/** `LeaveRequestController` (`/api/leave-requests`) and the Bean Validation
    of its `LeaveRequestDto`. `today` is the clock's date that
    `@FutureOrPresent` compares against. */
module LeaveRequestController {
  import opened Common
  import opened Tables
  import opened Exceptions
  import opened Http
  import opened Security
  import opened LeaveRequests
  import opened Gateway
  import opened LeaveRequestService

  const ListRoles: seq<string> := ["hr", "hod"]
  const EveryRole: seq<string> := ["hr", "hod", "employee"]
  const HodRole: seq<string> := ["hod"]
  const EmployeeRole: seq<string> := ["employee"]

  /** The body of `POST /api/leave-requests` as bound; every field may be null. */
  datatype LeaveRequestDto = LeaveRequestDto(
    leaveTypeId: Option<int>, startDate: Option<int>, endDate: Option<int>, reason: Option<string>)

  /** The message a required date field reports, if any. */
  function DateError(d: Option<int>, today: int, required: string, notPast: string): (r: Option<string>)
    ensures r.None? <==> d.Some? && d.value >= today
    ensures d.None? ==> r == Some(required)
    ensures d.Some? && d.value < today ==> r == Some(notPast)
  {
    if d.None? then Some(required) else if d.value < today then Some(notPast) else None
  }

  /** The field errors of a body: one entry per violated field. */
  function FieldErrors(dto: LeaveRequestDto, today: int): (errors: map<string, string>)
    ensures "leaveTypeId" in errors <==> dto.leaveTypeId.None?
    ensures "leaveTypeId" in errors ==> errors["leaveTypeId"] == "Leave type ID is required"
    ensures "startDate" in errors <==> !(dto.startDate.Some? && dto.startDate.value >= today)
    ensures "startDate" in errors ==>
              errors["startDate"] == if dto.startDate.None? then "Start date is required"
                                     else "Start date must be today or in the future"
    ensures "endDate" in errors <==> !(dto.endDate.Some? && dto.endDate.value >= today)
    ensures "endDate" in errors ==>
              errors["endDate"] == if dto.endDate.None? then "End date is required"
                                   else "End date must be today or in the future"
    ensures errors.Keys <= {"leaveTypeId", "startDate", "endDate"}
  {
    var a := if dto.leaveTypeId.None? then map["leaveTypeId" := "Leave type ID is required"] else map[];
    var s := DateError(dto.startDate, today, "Start date is required", "Start date must be today or in the future");
    var e := DateError(dto.endDate, today, "End date is required", "End date must be today or in the future");
    var b := if s.Some? then a["startDate" := s.value] else a;
    if e.Some? then b["endDate" := e.value] else b
  }

  /** `@Valid LeaveRequestDto`: the application, or every field error at once.
      The order of the two dates is not checked here. */
  function ValidateApplication(dto: LeaveRequestDto, today: int): (r: Result<Application, Exception>)
    ensures r.Ok? <==> dto.leaveTypeId.Some? && dto.startDate.Some? && dto.endDate.Some?
                       && dto.startDate.value >= today && dto.endDate.value >= today
    ensures r.Ok? ==> r.value == Application(dto.leaveTypeId.value, dto.startDate.value, dto.endDate.value, dto.reason)
    ensures r.Err? ==> r.error == Validation(FieldErrors(dto, today))
  {
    var errors := FieldErrors(dto, today);
    if errors == map[] then
      Ok(Application(dto.leaveTypeId.value, dto.startDate.value, dto.endDate.value, dto.reason))
    else
      assert dto.leaveTypeId.None? || !(dto.startDate.Some? && dto.startDate.value >= today)
             || !(dto.endDate.Some? && dto.endDate.value >= today) by {
        assert errors.Keys != {};
      }
      Err(Validation(errors))
  }

  /** `GET /api/leave-requests`. */
  function GetAll(db: HrDb, auth: Authentication): (r: Result<Reply<seq<Row<LeaveRequest>>>, Exception>)
    ensures r.Ok? <==> CheckRole(auth, ListRoles).Pass?
    ensures r.Ok? ==> r.value == Ok200(db.requests.rows)
    ensures r.Err? ==> r.error == CheckRole(auth, ListRoles).error
  {
    match CheckRole(auth, ListRoles)
    case Fail(e) => Err(e)
    case Pass => Ok(Ok200(db.requests.rows))
  }

  /** `GET /api/leave-requests/my-leaves`. */
  function GetMine(db: HrDb, auth: Authentication): (r: Result<Reply<seq<Row<LeaveRequest>>>, Exception>)
    ensures r.Ok? <==> CheckRole(auth, EveryRole).Pass?
    ensures r.Err? ==> r.error == CheckRole(auth, EveryRole).error
    ensures r.Ok? ==> r.value.Ok200? && r.value.body == FindMyLeaveRequests(db, auth).value
  {
    match CheckRole(auth, EveryRole)
    case Fail(e) => Err(e)
    case Pass =>
      match FindMyLeaveRequests(db, auth)
      case Err(e) => Err(e)
      case Ok(rows) => Ok(Ok200(rows))
  }

  /** `GET /api/leave-requests/pending`. */
  function GetPending(db: HrDb, auth: Authentication, gw: IdentityGateway)
    : (r: Result<Reply<seq<Row<LeaveRequest>>>, Exception>)
    ensures CheckRole(auth, HodRole).Fail? ==> r == Err(CheckRole(auth, HodRole).error)
    ensures CheckRole(auth, HodRole).Pass? ==>
              match FindPendingForHod(db, auth, gw)
              case Ok(rows) => r == Ok(Ok200(rows))
              case Err(e) => r == Err(e)
  {
    match CheckRole(auth, HodRole)
    case Fail(e) => Err(e)
    case Pass =>
      match FindPendingForHod(db, auth, gw)
      case Err(e) => Err(e)
      case Ok(rows) => Ok(Ok200(rows))
  }

  /** `GET /api/leave-requests/{id}`: a missing request raises, so it is a 400. */
  function GetOne(db: HrDb, auth: Authentication, id: int): (r: Result<Reply<Row<LeaveRequest>>, Exception>)
    ensures CheckRole(auth, EveryRole).Fail? ==> r == Err(CheckRole(auth, EveryRole).error)
    ensures CheckRole(auth, EveryRole).Pass? ==>
              (r.Ok? <==> HasId(db.requests, id))
              && (r.Ok? ==> r.value == Ok200(Row(id, Find(db.requests, id).value)))
              && (r.Err? ==> r.error.IllegalArgument?)
  {
    match CheckRole(auth, EveryRole)
    case Fail(e) => Err(e)
    case Pass =>
      match FindById(db, id)
      case Err(e) => Err(e)
      case Ok(row) => Ok(Ok200(row))
  }

  /** `POST /api/leave-requests`. */
  function CreateEndpoint(db: HrDb, auth: Authentication, gw: IdentityGateway, dto: LeaveRequestDto, today: int, now: int)
    : (r: Step<HrDb, Reply<Row<LeaveRequest>>>)
    ensures r.result.Err? ==> r.state == db
    ensures ValidateApplication(dto, today).Err? ==> r.result == Err(ValidateApplication(dto, today).error)
    ensures ValidateApplication(dto, today).Ok? && CheckRole(auth, EmployeeRole).Fail? ==>
              r.result == Err(CheckRole(auth, EmployeeRole).error)
    ensures r.result.Ok? ==>
              && ValidateApplication(dto, today).Ok? && CheckRole(auth, EmployeeRole).Pass?
              && var s := Create(db, auth, gw, ValidateApplication(dto, today).value, now);
                 s.result.Ok? && r == Step(s.state, Ok(Created201(s.result.value)))
    ensures ValidDb(db) ==> ValidDb(r.state)
  {
    match ValidateApplication(dto, today)
    case Err(e) => Step(db, Err(e))
    case Ok(app) =>
      match CheckRole(auth, EmployeeRole)
      case Fail(e) => Step(db, Err(e))
      case Pass =>
        var s := Create(db, auth, gw, app, now);
        match s.result
        case Err(e) => Step(s.state, Err(e))
        case Ok(row) => Step(s.state, Ok(Created201(row)))
  }

  /** `PUT /api/leave-requests/{id}/approve-reject`. */
  function ReviewEndpoint(db: HrDb, auth: Authentication, gw: IdentityGateway, id: int,
                          action: Option<string>, rejectionReason: Option<string>, now: int)
    : (r: Step<HrDb, Reply<Row<LeaveRequest>>>)
    ensures r.result.Err? ==> r.state == db
    ensures CheckRole(auth, HodRole).Fail? ==> r.result == Err(CheckRole(auth, HodRole).error)
    ensures r.result.Ok? ==>
              && CheckRole(auth, HodRole).Pass?
              && var s := ApproveOrReject(db, auth, gw, id, action, rejectionReason, now);
                 s.result.Ok? && r == Step(s.state, Ok(Ok200(s.result.value)))
    ensures ValidDb(db) ==> ValidDb(r.state)
  {
    match CheckRole(auth, HodRole)
    case Fail(e) => Step(db, Err(e))
    case Pass =>
      var s := ApproveOrReject(db, auth, gw, id, action, rejectionReason, now);
      match s.result
      case Err(e) => Step(s.state, Err(e))
      case Ok(row) => Step(s.state, Ok(Ok200(row)))
  }

  /** The folded role of an authenticated caller. */
  function RoleOf(auth: Authentication): string
    requires auth.Authenticated?
  {
    Lower(auth.principal.role)
  }

  /** The role table of the controller. */
  lemma RoleTable(db: HrDb, auth: Authentication, gw: IdentityGateway, id: int)
    ensures GetAll(db, auth).Ok? <==> auth.Authenticated? && RoleOf(auth) in {"hr", "hod"}
    ensures GetMine(db, auth).Ok? <==> auth.Authenticated? && RoleOf(auth) in {"hr", "hod", "employee"}
    ensures CheckRole(auth, EveryRole).Pass? <==> auth.Authenticated? && RoleOf(auth) in {"hr", "hod", "employee"}
    ensures CheckRole(auth, HodRole).Pass? <==> auth.Authenticated? && RoleOf(auth) == "hod"
    ensures CheckRole(auth, EmployeeRole).Pass? <==> auth.Authenticated? && RoleOf(auth) == "employee"
  {
    GateAdmitsListedRoles(auth, ListRoles);
    GateAdmitsListedRoles(auth, EveryRole);
    GateAdmitsListedRoles(auth, HodRole);
    GateAdmitsListedRoles(auth, EmployeeRole);
  }

  /** Only employees submit requests: HR and HOD callers never get past the gate. */
  lemma OnlyEmployeesApply(db: HrDb, auth: Authentication, gw: IdentityGateway, dto: LeaveRequestDto, today: int, now: int)
    requires CreateEndpoint(db, auth, gw, dto, today, now).result.Ok?
    ensures auth.Authenticated? && RoleOf(auth) == "employee"
  {
    GateAdmitsListedRoles(auth, EmployeeRole);
  }

  /** Any caller with one of the three roles reads any request, whoever owns it. */
  lemma NoOwnershipCheckOnRead(db: HrDb, auth: Authentication, id: int)
    requires auth.Authenticated? && RoleOf(auth) == "employee" && HasId(db.requests, id)
    ensures GetOne(db, auth, id) == Ok(Ok200(Row(id, Find(db.requests, id).value)))
  {
    GateAdmitsListedRoles(auth, EveryRole);
  }

  /** Behind the controller's gate the service's own "only HOD" check never fires. */
  lemma ServiceRoleCheckIsRedundant(db: HrDb, auth: Authentication, gw: IdentityGateway, id: int)
    requires CheckRole(auth, HodRole).Pass?
    ensures CheckReviewer(db, auth, gw, id) != Err(Security(Some(OnlyHodMayReview)))
  {
    GateAdmitsListedRoles(auth, HodRole);
  }

  /** The status codes of `POST /api/leave-requests`, in the order the checks run. */
  lemma CreateStatus(db: HrDb, auth: Authentication, gw: IdentityGateway, dto: LeaveRequestDto, today: int, now: int)
    ensures StatusCode(CreateEndpoint(db, auth, gw, dto, today, now).result) ==
              if ValidateApplication(dto, today).Err? then 400
              else if !auth.Authenticated? then 401
              else if RoleOf(auth) != "employee" then 403
              else if Create(db, auth, gw, ValidateApplication(dto, today).value, now).result.Err? then 400
              else 201
  {
    GateVerdict(auth, EmployeeRole);
  }

  /** A request id that does not exist answers 400 on approve-reject, not the
      404 the API documentation announces. */
  lemma ReviewOfMissingRequestIs400(db: HrDb, auth: Authentication, gw: IdentityGateway, id: int,
                                    action: Option<string>, rejectionReason: Option<string>, now: int)
    requires auth.Authenticated? && RoleOf(auth) == "hod" && !HasId(db.requests, id)
    ensures StatusCode(ReviewEndpoint(db, auth, gw, id, action, rejectionReason, now).result) == 400
  {
    GateAdmitsListedRoles(auth, HodRole);
    assert EqualsIgnoreCase("hod", auth.principal.role);
    assert CheckReviewer(db, auth, gw, id) == Err(IllegalArgument(RequestNotFound));
    assert ApproveOrReject(db, auth, gw, id, action, rejectionReason, now).result == Err(IllegalArgument(RequestNotFound));
  }
}
