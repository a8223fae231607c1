/** `LeaveTypeController` (`/api/leave-types`): body validation, the role
    gate, then the service, in that order. */
module LeaveTypeController {
  import opened Common
  import opened Tables
  import opened Exceptions
  import opened Http
  import opened Security
  import opened LeaveTypes

  const ReadRoles: seq<string> := ["hr", "hod", "employee"]
  const WriteRoles: seq<string> := ["hr"]

  const NameRequired := "Leave type name is required"

  /** `@NotBlank` on `LeaveTypeDto.name`. */
  function ValidateBody(dto: LeaveTypeDto): (r: Outcome<Exception>)
    ensures r.Pass? <==> NotBlank(dto.name)
    ensures r.Fail? ==> r.error == Validation(map["name" := NameRequired])
  {
    if NotBlank(dto.name) then Pass else Fail(Validation(map["name" := NameRequired]))
  }

  /** `GET /api/leave-types`. */
  function GetAll(t: Catalogue, auth: Authentication): (r: Result<Reply<seq<Row<LeaveType>>>, Exception>)
    ensures r.Ok? <==> CheckRole(auth, ReadRoles).Pass?
    ensures r.Ok? ==> r.value == Ok200(t.rows)
    ensures r.Err? ==> r.error == CheckRole(auth, ReadRoles).error
  {
    match CheckRole(auth, ReadRoles)
    case Fail(e) => Err(e)
    case Pass => Ok(Ok200(t.rows))
  }

  /** `GET /api/leave-types/{id}`: an absent leave type is a 404 reply. */
  function Get(t: Catalogue, auth: Authentication, id: int): (r: Result<Reply<Row<LeaveType>>, Exception>)
    ensures r.Ok? <==> CheckRole(auth, ReadRoles).Pass?
    ensures r.Err? ==> r.error == CheckRole(auth, ReadRoles).error
    ensures r.Ok? ==> (r.value.NotFound404? <==> !HasId(t, id))
    ensures r.Ok? && HasId(t, id) ==> r.value == Ok200(Row(id, Find(t, id).value))
  {
    match CheckRole(auth, ReadRoles)
    case Fail(e) => Err(e)
    case Pass =>
      match Find(t, id)
      case Some(lt) => Ok(Ok200(Row(id, lt)))
      case None => Ok(NotFound404)
  }

  /** `POST /api/leave-types`. */
  function CreateLeaveType(t: Catalogue, auth: Authentication, dto: LeaveTypeDto, now: int)
    : (r: Step<Catalogue, Reply<Row<LeaveType>>>)
    ensures r.result.Err? ==> r.state == t
    ensures r.result.Ok? ==> r.result.value.Created201? && r.result.value.body.id == t.nextId
                             && (Valid(t) ==> Find(r.state, t.nextId) == Some(r.result.value.body.val))
    ensures Valid(t) ==> Valid(r.state)
    ensures UniqueNames(t) ==> UniqueNames(r.state)
  {
    match ValidateBody(dto)
    case Fail(e) => Step(t, Err(e))
    case Pass =>
      match CheckRole(auth, WriteRoles)
      case Fail(e) => Step(t, Err(e))
      case Pass =>
        var s := LeaveTypes.Create(t, dto.name.value, dto, now);
        match s.result
        case Err(e) => Step(s.state, Err(e))
        case Ok(row) => Step(s.state, Ok(Created201(row)))
  }

  /** `PUT /api/leave-types/{id}`. The body is validated too, so the service's
      "name is null" branch cannot be reached from here. */
  function UpdateLeaveType(t: Catalogue, auth: Authentication, id: int, dto: LeaveTypeDto, now: int)
    : (r: Step<Catalogue, Reply<Row<LeaveType>>>)
    ensures r.result.Err? ==> r.state == t
    ensures r.result.Ok? ==> r.result.value.Ok200? && r.result.value.body.id == id
                             && Find(r.state, id) == Some(r.result.value.body.val)
                             && dto.name.Some? && r.result.value.body.val.name == dto.name.value
    ensures Valid(t) ==> Valid(r.state)
    ensures Valid(t) && UniqueNames(t) ==> UniqueNames(r.state)
  {
    match ValidateBody(dto)
    case Fail(e) => Step(t, Err(e))
    case Pass =>
      match CheckRole(auth, WriteRoles)
      case Fail(e) => Step(t, Err(e))
      case Pass =>
        var s := LeaveTypes.Update(t, id, dto, now);
        match s.result
        case Err(e) => Step(s.state, Err(e))
        case Ok(row) => Step(s.state, Ok(Ok200(row)))
  }

  /** `DELETE /api/leave-types/{id}`. */
  function DeleteLeaveType(t: Catalogue, auth: Authentication, id: int): (r: Step<Catalogue, Reply<()>>)
    ensures r.result.Err? ==> r.state == t
    ensures r.result.Ok? ==> r.result.value == NoContent204 && HasId(t, id) && !HasId(r.state, id)
    ensures Valid(t) ==> Valid(r.state)
    ensures UniqueNames(t) ==> UniqueNames(r.state)
  {
    match CheckRole(auth, WriteRoles)
    case Fail(e) => Step(t, Err(e))
    case Pass =>
      var s := LeaveTypes.Delete(t, id);
      match s.result
      case Err(e) => Step(s.state, Err(e))
      case Ok(_) => Step(s.state, Ok(NoContent204))
  }

  /** Whether the caller's folded role is "hr". */
  predicate IsHr(auth: Authentication) {
    auth.Authenticated? && Lower(auth.principal.role) == "hr"
  }

  /** Reading is open to the three roles, and to nobody else. */
  lemma ReadAccess(t: Catalogue, auth: Authentication, id: int)
    ensures GetAll(t, auth).Ok? <==>
              auth.Authenticated? && Lower(auth.principal.role) in {"hr", "hod", "employee"}
    ensures Get(t, auth, id).Ok? <==> GetAll(t, auth).Ok?
  {
    GateAdmitsListedRoles(auth, ReadRoles);
  }

  /** The status codes of `POST /api/leave-types`, in the order the checks run. */
  lemma CreateStatus(t: Catalogue, auth: Authentication, dto: LeaveTypeDto, now: int)
    ensures StatusCode(CreateLeaveType(t, auth, dto, now).result) ==
              if !NotBlank(dto.name) then 400
              else if !auth.Authenticated? then 401
              else if !IsHr(auth) then 403
              else if NameTaken(t, dto.name.value) then 400
              else 201
  {
    GateVerdict(auth, WriteRoles);
  }

  /** The status codes of `PUT /api/leave-types/{id}`. */
  lemma UpdateStatus(t: Catalogue, auth: Authentication, id: int, dto: LeaveTypeDto, now: int)
    ensures StatusCode(UpdateLeaveType(t, auth, id, dto, now).result) ==
              if !NotBlank(dto.name) then 400
              else if !auth.Authenticated? then 401
              else if !IsHr(auth) then 403
              else if !HasId(t, id) then 400
              else if dto.name.value != Find(t, id).value.name && NameTaken(t, dto.name.value) then 400
              else 200
  {
    GateVerdict(auth, WriteRoles);
  }

  /** The status codes of `DELETE /api/leave-types/{id}`. */
  lemma DeleteStatus(t: Catalogue, auth: Authentication, id: int)
    ensures StatusCode(DeleteLeaveType(t, auth, id).result) ==
              if !auth.Authenticated? then 401
              else if !IsHr(auth) then 403
              else if !HasId(t, id) then 400
              else 204
  {
    GateVerdict(auth, WriteRoles);
  }

  /** Only an HR caller ever changes the catalogue. */
  lemma OnlyHrWrites(t: Catalogue, auth: Authentication, id: int, dto: LeaveTypeDto, now: int)
    requires !IsHr(auth)
    ensures CreateLeaveType(t, auth, dto, now).state == t
    ensures UpdateLeaveType(t, auth, id, dto, now).state == t
    ensures DeleteLeaveType(t, auth, id).state == t
  {
    GateAdmitsListedRoles(auth, WriteRoles);
  }
}
