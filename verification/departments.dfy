/** `DepartmentService`: departments with a unique name and an optional head
    (HOD), identified by the HOD's employee id in the identity service. */
module Departments {
  import opened Common
  import opened Tables
  import opened Exceptions

  datatype Department = Department(name: string, description: Option<string>, hodEmployeeId: Option<string>)

  /** The request body of create and update; every field may be null. */
  datatype DepartmentDto = DepartmentDto(name: Option<string>, description: Option<string>, hodEmployeeId: Option<string>)

  type Directory = Table<Department>

  /** The unique `name` column. */
  function Name(d: Department): string {
    d.name
  }

  /** `findByName(name).isPresent()`. */
  predicate NameTaken(t: Directory, name: string) {
    KeyTaken(t, Name, name)
  }

  /** No two departments share a name. */
  ghost predicate UniqueNames(t: Directory) {
    UniqueKey(t, Name)
  }

  function NameExistsMessage(name: string): string {
    "Department with name " + name + " already exists"
  }

  function NotFoundMessage(id: int): string {
    "Department not found with id: " + IntToString(id)
  }

  /** The HOD `create` stores: the given one only when non-null and non-empty. */
  function InitialHod(hod: Option<string>): (r: Option<string>)
    ensures r.Some? <==> hod.Some? && hod.value != ""
    ensures r.Some? ==> r == hod
  {
    if hod.Some? && hod.value != "" then hod else None
  }

  /** `create`, called with a body whose name has passed `@NotBlank`. */
  function Create(t: Directory, name: string, description: Option<string>, hodEmployeeId: Option<string>)
    : (r: Step<Directory, Row<Department>>)
    ensures NameTaken(t, name) ==> r == Step(t, Err(IllegalArgument(NameExistsMessage(name))))
    ensures !NameTaken(t, name) ==> r.result.Ok?
    ensures r.result.Ok? ==>
              && r.result.value == Row(t.nextId, Department(name, description, InitialHod(hodEmployeeId)))
              && (Valid(t) ==> Find(r.state, t.nextId) == Some(r.result.value.val))
              && (forall k :: k != t.nextId ==> Find(r.state, k) == Find(t, k))
    ensures Valid(t) ==> Valid(r.state)
    ensures UniqueNames(t) ==> UniqueNames(r.state)
  {
    if NameTaken(t, name) then
      Step(t, Err(IllegalArgument(NameExistsMessage(name))))
    else
      var d := Department(name, description, InitialHod(hodEmployeeId));
      InsertKeepsKeyUnique(t, Name, d);
      Step(Insert(t, d), Ok(Row(t.nextId, d)))
  }

  /** The department after `update` has applied the non-null fields of `dto`. */
  function Patched(d: Department, dto: DepartmentDto): Department {
    Department(dto.name.GetOr(d.name), if dto.description.Some? then dto.description else d.description,
               if dto.hodEmployeeId.Some? then dto.hodEmployeeId else d.hodEmployeeId)
  }

  /** `update`: renames only to a free name, then copies the non-null fields. */
  function Update(t: Directory, id: int, dto: DepartmentDto): (r: Step<Directory, Row<Department>>)
    ensures Find(t, id).None? ==> r == Step(t, Err(IllegalArgument(NotFoundMessage(id))))
    ensures r.result.Err? ==> r.state == t
    ensures r.result.Err? && Find(t, id).Some? ==>
              && dto.name.Some? && dto.name.value != Find(t, id).value.name && NameTaken(t, dto.name.value)
              && r.result.error == IllegalArgument(NameExistsMessage(dto.name.value))
    ensures r.result.Ok? ==>
              && Find(t, id).Some?
              && r.result.value.id == id
              && Find(r.state, id) == Some(r.result.value.val)
              && (forall k :: k != id ==> Find(r.state, k) == Find(t, k))
    ensures r.result.Ok? ==>
              var old_ := Find(t, id).value;
              var new_ := r.result.value.val;
              && (dto.name.None? ==> new_.name == old_.name)
              && (dto.name.Some? ==> new_.name == dto.name.value)
              && (dto.description.None? ==> new_.description == old_.description)
              && (dto.description.Some? ==> new_.description == dto.description)
              && (dto.hodEmployeeId.None? ==> new_.hodEmployeeId == old_.hodEmployeeId)
              && (dto.hodEmployeeId.Some? ==> new_.hodEmployeeId == dto.hodEmployeeId)
    ensures Find(t, id).Some? && dto.name.Some? && dto.name.value != Find(t, id).value.name
            && NameTaken(t, dto.name.value) ==>
              r == Step(t, Err(IllegalArgument(NameExistsMessage(dto.name.value))))
    ensures Valid(t) ==> Valid(r.state)
    ensures Valid(t) && UniqueNames(t) ==> UniqueNames(r.state)
  {
    match Find(t, id)
    case None => Step(t, Err(IllegalArgument(NotFoundMessage(id))))
    case Some(d) =>
      if dto.name.Some? && dto.name.value != d.name && NameTaken(t, dto.name.value) then
        Step(t, Err(IllegalArgument(NameExistsMessage(dto.name.value))))
      else
        var d' := Patched(d, dto);
        RewriteKeepsKeyUnique(t, Name, id, d, d');
        Step(Replace(t, id, d'), Ok(Row(id, d')))
  }

  /** `assignHod`: overwrites the HOD, null included; nothing else changes. */
  function AssignHod(t: Directory, id: int, hodEmployeeId: Option<string>): (r: Step<Directory, ()>)
    ensures Find(t, id).None? ==> r == Step(t, Err(IllegalArgument(NotFoundMessage(id))))
    ensures Find(t, id).Some? ==>
              && r.result.Ok?
              && Find(r.state, id) == Some(Find(t, id).value.(hodEmployeeId := hodEmployeeId))
              && (forall k :: k != id ==> Find(r.state, k) == Find(t, k))
    ensures Valid(t) ==> Valid(r.state)
    ensures Valid(t) && UniqueNames(t) ==> UniqueNames(r.state)
  {
    match Find(t, id)
    case None => Step(t, Err(IllegalArgument(NotFoundMessage(id))))
    case Some(d) =>
      var d' := d.(hodEmployeeId := hodEmployeeId);
      RewriteKeepsKeyUnique(t, Name, id, d, d');
      Step(Replace(t, id, d'), Ok(()))
  }

  /** `delete`: fails on a missing id, otherwise removes exactly that id. */
  function Delete(t: Directory, id: int): (r: Step<Directory, ()>)
    ensures Find(t, id).None? ==> r == Step(t, Err(IllegalArgument(NotFoundMessage(id))))
    ensures Find(t, id).Some? ==>
              && r.result.Ok?
              && Find(r.state, id).None?
              && (forall k :: k != id ==> Find(r.state, k) == Find(t, k))
    ensures Valid(t) ==> Valid(r.state)
    ensures UniqueNames(t) ==> UniqueNames(r.state)
  {
    if Find(t, id).None? then
      Step(t, Err(IllegalArgument(NotFoundMessage(id))))
    else
      DeleteKeepsKeyUnique(t, Name, id);
      Step(Tables.Delete(t, id), Ok(()))
  }

  /** `update` with an unchanged name never trips the uniqueness check. */
  lemma KeepingTheNameIsAccepted(t: Directory, id: int, dto: DepartmentDto)
    requires Find(t, id).Some? && dto.name == Some(Find(t, id).value.name)
    ensures Update(t, id, dto).result.Ok?
  {
  }

  /** Unlike `create`, `update` stores an empty HOD id as given. */
  lemma UpdateStoresEmptyHod(t: Directory, id: int, name: string)
    requires Find(t, id).Some?
    ensures Update(t, id, DepartmentDto(None, None, Some(""))).result.Ok?
    ensures Find(Update(t, id, DepartmentDto(None, None, Some(""))).state, id).value.hodEmployeeId == Some("")
    ensures Create(t, name, None, Some("")).result.Ok? ==>
              Create(t, name, None, Some("")).result.value.val.hodEmployeeId == None
  {
  }
}
