/** `DepartmentController` (`/api/departments`): body validation, the role
    gate, then the service. Bean Validation of a `@Valid` body runs while the
    arguments are resolved, before the call reaches the role aspect, so a
    blank name is rejected even for a caller the gate would turn away. */
module DepartmentController {
  import opened Common
  import opened Tables
  import opened Exceptions
  import opened Http
  import opened Security
  import opened Departments

  const ReadRoles: seq<string> := ["hr", "hod", "employee"]
  const WriteRoles: seq<string> := ["hr"]

  const NameRequired := "Department name is required"

  /** `@NotBlank` on `DepartmentDto.name`. */
  function ValidateBody(dto: DepartmentDto): (r: Outcome<Exception>)
    ensures r.Pass? <==> NotBlank(dto.name)
    ensures r.Fail? ==> r.error == Validation(map["name" := NameRequired])
  {
    if NotBlank(dto.name) then Pass else Fail(Validation(map["name" := NameRequired]))
  }

  /** `GET /api/departments`. */
  function GetAll(t: Directory, auth: Authentication): (r: Result<Reply<seq<Row<Department>>>, Exception>)
    ensures r.Ok? <==> CheckRole(auth, ReadRoles).Pass?
    ensures r.Ok? ==> r.value == Ok200(t.rows)
    ensures r.Err? ==> r.error == CheckRole(auth, ReadRoles).error
  {
    match CheckRole(auth, ReadRoles)
    case Fail(e) => Err(e)
    case Pass => Ok(Ok200(t.rows))
  }

  /** `GET /api/departments/{id}`: an absent department is a 404 reply. */
  function Get(t: Directory, auth: Authentication, id: int): (r: Result<Reply<Row<Department>>, Exception>)
    ensures r.Ok? <==> CheckRole(auth, ReadRoles).Pass?
    ensures r.Err? ==> r.error == CheckRole(auth, ReadRoles).error
    ensures r.Ok? ==> (r.value.NotFound404? <==> !HasId(t, id))
    ensures r.Ok? && HasId(t, id) ==> r.value == Ok200(Row(id, Find(t, id).value))
  {
    match CheckRole(auth, ReadRoles)
    case Fail(e) => Err(e)
    case Pass =>
      match Find(t, id)
      case Some(d) => Ok(Ok200(Row(id, d)))
      case None => Ok(NotFound404)
  }

  /** `POST /api/departments`. */
  function CreateDepartment(t: Directory, auth: Authentication, dto: DepartmentDto)
    : (r: Step<Directory, Reply<Row<Department>>>)
    ensures r.result.Err? ==> r.state == t
    ensures r.result.Ok? ==> r.result.value.Created201? && r.result.value.body.id == t.nextId
                             && (Valid(t) ==> Find(r.state, t.nextId) == Some(r.result.value.body.val))
    ensures Valid(t) ==> Valid(r.state)
    ensures UniqueNames(t) ==> UniqueNames(r.state)
  {
    match ValidateBody(dto)
    case Fail(e) => Step(t, Err(e))
    case Pass =>
      match CheckRole(auth, WriteRoles)
      case Fail(e) => Step(t, Err(e))
      case Pass =>
        var s := Departments.Create(t, dto.name.value, dto.description, dto.hodEmployeeId);
        match s.result
        case Err(e) => Step(s.state, Err(e))
        case Ok(row) => Step(s.state, Ok(Created201(row)))
  }

  /** `PUT /api/departments/{id}`. The body is validated too, so a renaming
      update always carries a name. */
  function UpdateDepartment(t: Directory, auth: Authentication, id: int, dto: DepartmentDto)
    : (r: Step<Directory, Reply<Row<Department>>>)
    ensures r.result.Err? ==> r.state == t
    ensures r.result.Ok? ==> r.result.value.Ok200? && r.result.value.body.id == id
                             && Find(r.state, id) == Some(r.result.value.body.val)
                             && dto.name.Some? && r.result.value.body.val.name == dto.name.value
    ensures Valid(t) ==> Valid(r.state)
    ensures Valid(t) && UniqueNames(t) ==> UniqueNames(r.state)
  {
    match ValidateBody(dto)
    case Fail(e) => Step(t, Err(e))
    case Pass =>
      match CheckRole(auth, WriteRoles)
      case Fail(e) => Step(t, Err(e))
      case Pass =>
        var s := Departments.Update(t, id, dto);
        match s.result
        case Err(e) => Step(s.state, Err(e))
        case Ok(row) => Step(s.state, Ok(Ok200(row)))
  }

  /** `PUT /api/departments/{id}/assign-hod`: no body validation; the reply
      re-reads the department. */
  function AssignHodEndpoint(t: Directory, auth: Authentication, id: int, hodEmployeeId: Option<string>)
    : (r: Step<Directory, Reply<Row<Department>>>)
    ensures r.result.Err? ==> r.state == t
    ensures r.result.Ok? ==> HasId(t, id) && r.result.value == Ok200(Row(id, Find(t, id).value.(hodEmployeeId := hodEmployeeId)))
    ensures Valid(t) ==> Valid(r.state)
    ensures Valid(t) && UniqueNames(t) ==> UniqueNames(r.state)
  {
    match CheckRole(auth, WriteRoles)
    case Fail(e) => Step(t, Err(e))
    case Pass =>
      var s := Departments.AssignHod(t, id, hodEmployeeId);
      match s.result
      case Err(e) => Step(s.state, Err(e))
      case Ok(_) =>
        match Find(s.state, id)
        case Some(d) => Step(s.state, Ok(Ok200(Row(id, d))))
        case None => Step(s.state, Ok(NotFound404))
  }

  /** `DELETE /api/departments/{id}`. */
  function DeleteDepartment(t: Directory, auth: Authentication, id: int): (r: Step<Directory, Reply<()>>)
    ensures r.result.Err? ==> r.state == t
    ensures r.result.Ok? ==> r.result.value == NoContent204 && HasId(t, id) && !HasId(r.state, id)
    ensures Valid(t) ==> Valid(r.state)
    ensures UniqueNames(t) ==> UniqueNames(r.state)
  {
    match CheckRole(auth, WriteRoles)
    case Fail(e) => Step(t, Err(e))
    case Pass =>
      var s := Departments.Delete(t, id);
      match s.result
      case Err(e) => Step(s.state, Err(e))
      case Ok(_) => Step(s.state, Ok(NoContent204))
  }

  /** Whether the caller's folded role is "hr". */
  predicate IsHr(auth: Authentication) {
    auth.Authenticated? && Lower(auth.principal.role) == "hr"
  }

  /** Reading is open to the three roles, and to nobody else. */
  lemma ReadAccess(t: Directory, auth: Authentication)
    ensures GetAll(t, auth).Ok? <==>
              auth.Authenticated? && Lower(auth.principal.role) in {"hr", "hod", "employee"}
  {
    GateAdmitsListedRoles(auth, ReadRoles);
  }

  /** The status codes of `POST /api/departments`, in the order the checks run. */
  lemma CreateStatus(t: Directory, auth: Authentication, dto: DepartmentDto)
    ensures StatusCode(CreateDepartment(t, auth, dto).result) ==
              if !NotBlank(dto.name) then 400
              else if !auth.Authenticated? then 401
              else if !IsHr(auth) then 403
              else if NameTaken(t, dto.name.value) then 400
              else 201
  {
    GateVerdict(auth, WriteRoles);
  }

  /** The status codes of `PUT /api/departments/{id}`. */
  lemma UpdateStatus(t: Directory, auth: Authentication, id: int, dto: DepartmentDto)
    ensures StatusCode(UpdateDepartment(t, auth, id, dto).result) ==
              if !NotBlank(dto.name) then 400
              else if !auth.Authenticated? then 401
              else if !IsHr(auth) then 403
              else if !HasId(t, id) then 400
              else if dto.name.value != Find(t, id).value.name && NameTaken(t, dto.name.value) then 400
              else 200
  {
    GateVerdict(auth, WriteRoles);
  }

  /** `assign-hod` on a missing department answers 400, never 404: the
      service throws before the controller's not-found branch is reached, and
      after a successful assignment the department is always there. */
  lemma AssignHodStatus(t: Directory, auth: Authentication, id: int, hodEmployeeId: Option<string>)
    ensures StatusCode(AssignHodEndpoint(t, auth, id, hodEmployeeId).result) ==
              if !auth.Authenticated? then 401
              else if !IsHr(auth) then 403
              else if !HasId(t, id) then 400
              else 200
  {
    GateVerdict(auth, WriteRoles);
  }

  /** The status codes of `DELETE /api/departments/{id}`. */
  lemma DeleteStatus(t: Directory, auth: Authentication, id: int)
    ensures StatusCode(DeleteDepartment(t, auth, id).result) ==
              if !auth.Authenticated? then 401
              else if !IsHr(auth) then 403
              else if !HasId(t, id) then 400
              else 204
  {
    GateVerdict(auth, WriteRoles);
  }

  /** Only an HR caller ever changes the departments. */
  lemma OnlyHrWrites(t: Directory, auth: Authentication, id: int, dto: DepartmentDto, hod: Option<string>)
    requires !IsHr(auth)
    ensures CreateDepartment(t, auth, dto).state == t
    ensures UpdateDepartment(t, auth, id, dto).state == t
    ensures AssignHodEndpoint(t, auth, id, hod).state == t
    ensures DeleteDepartment(t, auth, id).state == t
  {
    GateAdmitsListedRoles(auth, WriteRoles);
  }
}
