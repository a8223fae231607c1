/** `LeaveTypeService`: the catalogue of leave types (annual, sick, ...), each
    with a unique name. */
module LeaveTypes {
  import opened Common
  import opened Tables
  import opened Exceptions

  /** One row of `leave_types`. `requiresDocumentation` is never null: the
      service writes it only with a non-null value. */
  datatype LeaveType = LeaveType(
    name: string,
    description: Option<string>,
    maxDaysPerYear: Option<int>,
    requiresDocumentation: bool,
    createdAt: Option<int>,
    updatedAt: Option<int>)

  /** The request body after binding; every field may be null. */
  datatype LeaveTypeDto = LeaveTypeDto(
    name: Option<string>,
    description: Option<string>,
    maxDaysPerYear: Option<int>,
    requiresDocumentation: Option<bool>)

  /** A JSON member as the client sent it. */
  datatype JsonField<T> = Absent | Null | Given(value: T)

  /** Binding `requiresDocumentation`: the DTO's field initialiser makes an
      omitted member `false`; only an explicit JSON null yields null. */
  function BindRequiresDocumentation(f: JsonField<bool>): (r: Option<bool>)
    ensures r.None? <==> f.Null?
    ensures f.Given? ==> r == Some(f.value)
    ensures f.Absent? ==> r == Some(false)
  {
    match f
    case Absent => Some(false)
    case Null => None
    case Given(b) => Some(b)
  }

  type Catalogue = Table<LeaveType>

  /** The unique `name` column. */
  function Name(lt: LeaveType): string {
    lt.name
  }

  predicate NameTaken(t: Catalogue, name: string) {
    KeyTaken(t, Name, name)
  }

  ghost predicate UniqueNames(t: Catalogue) {
    UniqueKey(t, Name)
  }

  function NameExistsMessage(name: string): string {
    "Leave type with name " + name + " already exists"
  }

  function NotFoundMessage(id: int): string {
    "Leave type not found with id: " + IntToString(id)
  }

  /** `create`, called with a body whose name has passed `@NotBlank`; `now`
      is the clock reading the persistence hook stamps. */
  function Create(t: Catalogue, name: string, dto: LeaveTypeDto, now: int): (r: Step<Catalogue, Row<LeaveType>>)
    ensures NameTaken(t, name) ==> r == Step(t, Err(IllegalArgument(NameExistsMessage(name))))
    ensures !NameTaken(t, name) ==> r.result.Ok?
    ensures r.result.Ok? ==>
              var lt := r.result.value.val;
              && r.result.value.id == t.nextId
              && lt.name == name && lt.description == dto.description && lt.maxDaysPerYear == dto.maxDaysPerYear
              && lt.requiresDocumentation == (dto.requiresDocumentation == Some(true))
              && lt.createdAt == Some(now) && lt.updatedAt == Some(now)
              && (Valid(t) ==> Find(r.state, t.nextId) == Some(lt))
              && (forall k :: k != t.nextId ==> Find(r.state, k) == Find(t, k))
    ensures Valid(t) ==> Valid(r.state)
    ensures UniqueNames(t) ==> UniqueNames(r.state)
  {
    if NameTaken(t, name) then
      Step(t, Err(IllegalArgument(NameExistsMessage(name))))
    else
      var lt := LeaveType(name, dto.description, dto.maxDaysPerYear,
                          dto.requiresDocumentation.GetOr(false), Some(now), Some(now));
      InsertKeepsKeyUnique(t, Name, lt);
      Step(Insert(t, lt), Ok(Row(t.nextId, lt)))
  }

  /** The four columns `update` can write are the same in `a` and `b`. */
  predicate SameFields(a: LeaveType, b: LeaveType) {
    && a.name == b.name && a.description == b.description
    && a.maxDaysPerYear == b.maxDaysPerYear && a.requiresDocumentation == b.requiresDocumentation
  }

  /** The leave type after `update` has applied the non-null fields of `dto`.
      The persistence hook stamps `now` only when the flush finds a column
      changed; an update that writes back the stored values leaves the row
      as it was. */
  function Patched(lt: LeaveType, dto: LeaveTypeDto, now: int): LeaveType {
    var applied := lt.(
      name := dto.name.GetOr(lt.name),
      description := if dto.description.Some? then dto.description else lt.description,
      maxDaysPerYear := if dto.maxDaysPerYear.Some? then dto.maxDaysPerYear else lt.maxDaysPerYear,
      requiresDocumentation := dto.requiresDocumentation.GetOr(lt.requiresDocumentation));
    if applied == lt then lt else applied.(updatedAt := Some(now))
  }

  /** `update`: renames only to a free name, then copies the non-null fields. */
  function Update(t: Catalogue, id: int, dto: LeaveTypeDto, now: int): (r: Step<Catalogue, Row<LeaveType>>)
    ensures Find(t, id).None? ==> r == Step(t, Err(IllegalArgument(NotFoundMessage(id))))
    ensures r.result.Err? ==> r.state == t
    ensures r.result.Err? && Find(t, id).Some? ==>
              && dto.name.Some? && dto.name.value != Find(t, id).value.name && NameTaken(t, dto.name.value)
              && r.result.error == IllegalArgument(NameExistsMessage(dto.name.value))
    ensures r.result.Ok? ==>
              && Find(t, id).Some?
              && r.result.value.id == id
              && Find(r.state, id) == Some(r.result.value.val)
              && (forall k :: k != id ==> Find(r.state, k) == Find(t, k))
    ensures r.result.Ok? ==>
              var old_ := Find(t, id).value;
              var new_ := r.result.value.val;
              && new_.name == (if dto.name.Some? then dto.name.value else old_.name)
              && new_.description == (if dto.description.Some? then dto.description else old_.description)
              && new_.maxDaysPerYear == (if dto.maxDaysPerYear.Some? then dto.maxDaysPerYear else old_.maxDaysPerYear)
              && new_.requiresDocumentation == (if dto.requiresDocumentation.Some? then dto.requiresDocumentation.value
                                                else old_.requiresDocumentation)
              && new_.createdAt == old_.createdAt
              && new_.updatedAt == (if SameFields(new_, old_) then old_.updatedAt else Some(now))
    ensures Find(t, id).Some? && dto.name.Some? && dto.name.value != Find(t, id).value.name
            && NameTaken(t, dto.name.value) ==>
              r == Step(t, Err(IllegalArgument(NameExistsMessage(dto.name.value))))
    ensures Valid(t) ==> Valid(r.state)
    ensures Valid(t) && UniqueNames(t) ==> UniqueNames(r.state)
  {
    match Find(t, id)
    case None => Step(t, Err(IllegalArgument(NotFoundMessage(id))))
    case Some(lt) =>
      if dto.name.Some? && dto.name.value != lt.name && NameTaken(t, dto.name.value) then
        Step(t, Err(IllegalArgument(NameExistsMessage(dto.name.value))))
      else
        var lt' := Patched(lt, dto, now);
        RewriteKeepsKeyUnique(t, Name, id, lt, lt');
        Step(Replace(t, id, lt'), Ok(Row(id, lt')))
  }

  /** Writing back a row's own values changes nothing, not even its
      update stamp; changing any one column stamps `now`. */
  lemma UpdateStampsOnlyChanges(t: Catalogue, id: int, dto: LeaveTypeDto, now: int)
    requires Find(t, id).Some?
    ensures var lt := Find(t, id).value;
            var r := Update(t, id, dto, now);
            var same := LeaveTypeDto(Some(lt.name), lt.description, lt.maxDaysPerYear, Some(lt.requiresDocumentation));
            && (dto == same ==> r.result == Ok(Row(id, lt)) && forall k :: Find(r.state, k) == Find(t, k))
            && (r.result.Ok? && !SameFields(r.result.value.val, lt) ==> r.result.value.val.updatedAt == Some(now))
  {
    var lt := Find(t, id).value;
    if dto == LeaveTypeDto(Some(lt.name), lt.description, lt.maxDaysPerYear, Some(lt.requiresDocumentation)) {
      assert Patched(lt, dto, now) == lt;
    }
  }

  /** `delete`: fails on a missing id, otherwise removes exactly that id. */
  function Delete(t: Catalogue, id: int): (r: Step<Catalogue, ()>)
    ensures Find(t, id).None? ==> r == Step(t, Err(IllegalArgument(NotFoundMessage(id))))
    ensures Find(t, id).Some? ==>
              && r.result.Ok?
              && Find(r.state, id).None?
              && (forall k :: k != id ==> Find(r.state, k) == Find(t, k))
    ensures Valid(t) ==> Valid(r.state)
    ensures UniqueNames(t) ==> UniqueNames(r.state)
  {
    if Find(t, id).None? then
      Step(t, Err(IllegalArgument(NotFoundMessage(id))))
    else
      DeleteKeepsKeyUnique(t, Name, id);
      Step(Tables.Delete(t, id), Ok(()))
  }

  /** A body that omits `requiresDocumentation` clears the flag on update,
      because binding fills in the field's default instead of null. */
  lemma OmittedFlagClearsDocumentation(t: Catalogue, id: int, name: string, now: int)
    requires Find(t, id).Some? && Find(t, id).value.name == name
    ensures var dto := LeaveTypeDto(Some(name), None, None, BindRequiresDocumentation(Absent));
            var r := Update(t, id, dto, now);
            r.result.Ok? && !Find(r.state, id).value.requiresDocumentation
  {
  }

  /** An explicit null keeps the flag as stored. */
  lemma NullFlagKeepsDocumentation(t: Catalogue, id: int, name: string, now: int)
    requires Find(t, id).Some? && Find(t, id).value.name == name
    ensures var dto := LeaveTypeDto(Some(name), None, None, BindRequiresDocumentation(Null));
            var r := Update(t, id, dto, now);
            r.result.Ok? && Find(r.state, id).value.requiresDocumentation == Find(t, id).value.requiresDocumentation
  {
  }
}
