/** The identity service behind the leave service's client: a transport
    answered by the identity service's own endpoints, and what that means for
    the leave lifecycle. The leave service forwards its caller's token with
    every call, so what the identity service lets that caller see is what
    the overlap checks get to check. */
module IdentityService {
  import opened Common
  import opened Tables
  import opened Exceptions
  import opened Security
  import opened Gateway
  import opened LeaveRequests
  import opened LeaveRequestService
  import opened LeaveRequestController
  import opened LeaveRequestProperties
  import Users
  import Auth

  /** A principal as the leave service decodes it into `UserInfo`. */
  function PrincipalInfo(p: Auth.Principal): UserInfo {
    UserInfo(p.employeeId, p.role, p.departmentId, p.isActive)
  }

  /** A user row as the leave service decodes it into `UserInfo`. */
  function RecordInfo(rec: Users.Record): UserInfo {
    UserInfo(rec.employeeId, Users.RoleName(rec.role), rec.departmentId, rec.isActive)
  }

  /** `GET /auth/validate` over the network; an error status or an
      unreachable service is a failed call. */
  function ValidateCall(jwt: Auth.Jwt, reachable: bool, token: string): (c: Call<Option<ValidateResponse>>)
    ensures c.Delivered? <==> reachable && Auth.Guard(jwt, Some(token)).Ok?
    ensures c.Delivered? ==>
              c.body == Some(ValidateResponse(Some(true), Some(PrincipalInfo(Auth.Guard(jwt, Some(token)).value))))
  {
    if !reachable then Failed
    else
      match Auth.ValidateEndpoint(jwt, Some(token))
      case Err(_) => Failed
      case Ok(b) => Delivered(Some(ValidateResponse(Some(b.valid), Some(PrincipalInfo(b.user)))))
  }

  /** `GET /auth/users/department/:id` over the network. */
  function DepartmentCall(us: Users.UserTable, jwt: Auth.Jwt, reachable: bool, departmentId: int, token: string)
    : (c: Call<seq<UserInfo>>)
    ensures c.Delivered? <==> reachable && Auth.UsersByDepartmentEndpoint(us, jwt, Some(token), departmentId).Ok?
    ensures c.Delivered? ==>
              var recs := Users.FindByDepartment(us, departmentId);
              |c.body| == |recs| && forall k :: 0 <= k < |recs| ==> c.body[k] == RecordInfo(recs[k])
  {
    if !reachable then Failed
    else
      match Auth.UsersByDepartmentEndpoint(us, jwt, Some(token), departmentId)
      case Err(_) => Failed
      case Ok(recs) => Delivered(seq(|recs|, k requires 0 <= k < |recs| => RecordInfo(recs[k])))
  }

  /** `GET /auth/users/employee/:employeeId` over the network; an unknown
      employee is a 200 with an empty body. */
  function EmployeeCall(us: Users.UserTable, jwt: Auth.Jwt, reachable: bool, employeeId: string, token: string)
    : (c: Call<Option<UserInfo>>)
    ensures c.Delivered? <==> reachable && Auth.Guard(jwt, Some(token)).Ok?
    ensures c.Delivered? ==> (c.body.Some? <==> Users.EmployeeIdTaken(us, employeeId))
    ensures c.Delivered? && c.body.Some? ==> c.body.value.employeeId == employeeId
  {
    if !reachable then Failed
    else
      match Auth.UserByEmployeeIdEndpoint(us, jwt, Some(token), employeeId)
      case Err(_) => Failed
      case Ok(None) => Delivered(None)
      case Ok(Some(rec)) => Delivered(Some(RecordInfo(rec)))
  }

  /** The transport to an identity service holding `us` and signing with
      `jwt`; `reachable` false is a service the client cannot reach. */
  function Connect(us: Users.UserTable, jwt: Auth.Jwt, reachable: bool): Transport {
    Transport(
      token => ValidateCall(jwt, reachable, token),
      (d, token) => DepartmentCall(us, jwt, reachable, d, token),
      (e, token) => EmployeeCall(us, jwt, reachable, e, token))
  }

  /** The gateway the leave service sees. */
  function Identity(us: Users.UserTable, jwt: Auth.Jwt, reachable: bool): IdentityGateway {
    Client(Connect(us, jwt, reachable))
  }

  /** A token whose payload, if it verifies, names neither "hr" nor "hod"
      exactly, which is every token the leave service lets apply for leave. */
  predicate NoDepartmentView(jwt: Auth.Jwt, token: string) {
    jwt.verify(token).Ok? ==> jwt.verify(token).value.role != "hr" && jwt.verify(token).value.role != "hod"
  }

  /** With such a token the identity service refuses the department list,
      and the client turns the refusal into an empty department. */
  lemma RefusedListIsEmpty(us: Users.UserTable, jwt: Auth.Jwt, reachable: bool, departmentId: int, token: string)
    requires NoDepartmentView(jwt, token)
    ensures Identity(us, jwt, reachable).usersByDepartment(departmentId, token) == []
    ensures DepartmentEmployeeIds(Identity(us, jwt, reachable), departmentId, token) == []
  {
  }

  /** So `create`'s overlap check looks at nobody: with such a token, no
      application is ever refused for clashing with a colleague. */
  lemma EmployeeTokenSkipsClashCheck(db: HrDb, us: Users.UserTable, jwt: Auth.Jwt, reachable: bool,
                                     auth: Authentication, app: Application, now: int)
    requires auth.Authenticated? && NoDepartmentView(jwt, auth.credentials)
    ensures forall d :: ApplyConflicts(db, Identity(us, jwt, reachable), auth, d, app) == []
    ensures Create(db, auth, Identity(us, jwt, reachable), app, now).result != Err(IllegalArgument(ApplyClash))
  {
    forall d
      ensures ApplyConflicts(db, Identity(us, jwt, reachable), auth, d, app) == []
    {
      RefusedListIsEmpty(us, jwt, reachable, d, auth.credentials);
      EmptyEmployeeListFindsNothing(db.requests, app.startDate, app.endDate, 0);
    }
  }

  /** The role a principal folds to: "hr" and "hod" fold to themselves. */
  lemma FoldedRoles()
    ensures Lower("hr") == "hr" && Lower("hod") == "hod"
  {
    assert Lower("") == "";
    assert Lower("r") == "r";
    assert Lower("d") == "d";
    assert Lower("od") == "od";
  }

  /** End to end: every caller the create endpoint admits holds an employee
      token, and the overlap check never refuses it, whatever the leaves of
      its colleagues. The caller's authentication is the one the JWT filter
      installs from this token through this gateway. */
  lemma AdmittedApplicantsSkipClashCheck(db: HrDb, us: Users.UserTable, jwt: Auth.Jwt, reachable: bool,
                                         auth: Authentication, dto: LeaveRequestDto, today: int, now: int)
    requires auth.Authenticated?
    requires Identity(us, jwt, reachable).validateToken(auth.credentials) == Some(auth.principal)
    ensures CreateEndpoint(db, auth, Identity(us, jwt, reachable), dto, today, now).result != Err(IllegalArgument(ApplyClash))
  {
    var gw := Identity(us, jwt, reachable);
    GateAdmitsListedRoles(auth, EmployeeRole);
    if ValidateApplication(dto, today).Ok? && CheckRole(auth, EmployeeRole).Pass? {
      var c := jwt.verify(auth.credentials).value;
      assert c.role == auth.principal.role;
      assert Lower(c.role) == "employee";
      FoldedRoles();
      EmployeeTokenSkipsClashCheck(db, us, jwt, reachable, auth, ValidateApplication(dto, today).value, now);
    }
  }

  /** The employee ids of the users the identity service files under a
      department, active or not. */
  function Staff(us: Users.UserTable, departmentId: int): set<string> {
    set u | u in us && u.departmentId == Some(departmentId) :: u.employeeId
  }

  /** As written, an application is accepted even though a colleague's
      approved or pending leave shares a day with it: the overlap check asks
      for the department list with the applicant's token, which is refused. */
  lemma ClashingApplicationAccepted(db: HrDb, us: Users.UserTable, jwt: Auth.Jwt, reachable: bool,
                                    auth: Authentication, app: Application, now: int, p: int)
    requires auth.Authenticated? && NoDepartmentView(jwt, auth.credentials)
    requires app.startDate <= app.endDate && HasId(db.leaveTypes, app.leaveTypeId)
    requires auth.principal.departmentId.Some? && HasId(db.departments, auth.principal.departmentId.value)
    requires 0 <= p < |db.requests.rows| && db.requests.rows[p].val.status != Rejected
    requires db.requests.rows[p].val.employeeId in Staff(us, auth.principal.departmentId.value)
    requires SharesDay(db.requests.rows[p].val, app.startDate, app.endDate)
    ensures Create(db, auth, Identity(us, jwt, reachable), app, now).result.Ok?
  {
    EmployeeTokenSkipsClashCheck(db, us, jwt, reachable, auth, app, now);
  }

  /** The department list call against an identity service that serves the
      list to every authenticated caller. */
  function CorrectedDepartmentCall(us: Users.UserTable, jwt: Auth.Jwt, reachable: bool, departmentId: int, token: string)
    : (c: Call<seq<UserInfo>>)
    ensures c.Delivered? <==> reachable && Auth.Guard(jwt, Some(token)).Ok?
    ensures c.Delivered? ==>
              var recs := Users.FindByDepartment(us, departmentId);
              |c.body| == |recs| && forall k :: 0 <= k < |recs| ==> c.body[k] == RecordInfo(recs[k])
  {
    if !reachable then Failed
    else
      match Auth.DepartmentListForAnyCaller(us, jwt, Some(token), departmentId)
      case Err(_) => Failed
      case Ok(recs) => Delivered(seq(|recs|, k requires 0 <= k < |recs| => RecordInfo(recs[k])))
  }

  /** The gateway the leave service sees when the department list is served
      to every authenticated caller. */
  function CorrectedIdentity(us: Users.UserTable, jwt: Auth.Jwt, reachable: bool): IdentityGateway {
    Client(Transport(
      token => ValidateCall(jwt, reachable, token),
      (d, token) => CorrectedDepartmentCall(us, jwt, reachable, d, token),
      (e, token) => EmployeeCall(us, jwt, reachable, e, token)))
  }

  /** With the corrected identity service reachable and a token it accepts,
      every user filed under the department is in the leave service's list. */
  lemma CorrectedListIsWholeDepartment(us: Users.UserTable, jwt: Auth.Jwt, departmentId: int, token: string)
    requires Auth.Guard(jwt, Some(token)).Ok?
    ensures forall e :: e in Staff(us, departmentId) ==>
              e in DepartmentEmployeeIds(CorrectedIdentity(us, jwt, true), departmentId, token)
  {
    var gw := CorrectedIdentity(us, jwt, true);
    var recs := Users.FindByDepartment(us, departmentId);
    var ids := DepartmentEmployeeIds(gw, departmentId, token);
    assert gw.usersByDepartment(departmentId, token) == CorrectedDepartmentCall(us, jwt, true, departmentId, token).body;
    forall e | e in Staff(us, departmentId)
      ensures e in ids
    {
      var u :| u in us && u.departmentId == Some(departmentId) && u.employeeId == e;
      var i :| 0 <= i < |us| && us[i] == u;
      assert Users.Selected(u, false, false) in recs;
      var k :| 0 <= k < |recs| && recs[k] == Users.Selected(u, false, false);
      assert ids[k] == e;
    }
  }

  /** Against the corrected identity service, an accepted application shares
      no day with any approved or pending leave of a user of the applicant's
      department. */
  lemma CorrectedCreateKeepsDepartmentApart(db: HrDb, us: Users.UserTable, jwt: Auth.Jwt, auth: Authentication,
                                            app: Application, now: int, p: int)
    requires ValidDb(db) && auth.Authenticated? && Auth.Guard(jwt, Some(auth.credentials)).Ok?
    requires Create(db, auth, CorrectedIdentity(us, jwt, true), app, now).result.Ok?
    requires 0 <= p < |db.requests.rows| && db.requests.rows[p].val.status != Rejected
    requires db.requests.rows[p].val.employeeId in Staff(us, auth.principal.departmentId.value)
    ensures !SharesDay(db.requests.rows[p].val, app.startDate, app.endDate)
  {
    CorrectedListIsWholeDepartment(us, jwt, auth.principal.departmentId.value, auth.credentials);
    CreatedRequestClashesWithNobody(db, auth, CorrectedIdentity(us, jwt, true), app, now, p);
  }

  /** A token whose verified payload is active and names "hr" or "hod". */
  predicate DepartmentViewer(jwt: Auth.Jwt, token: string) {
    && jwt.verify(token).Ok? && jwt.verify(token).value.isActive == Some(true)
    && (jwt.verify(token).value.role == "hr" || jwt.verify(token).value.role == "hod")
  }

  /** With a HOD's token and a reachable service, the department list is
      complete: every user of the department is in it. */
  lemma ViewerSeesWholeDepartment(us: Users.UserTable, jwt: Auth.Jwt, departmentId: int, token: string)
    requires DepartmentViewer(jwt, token)
    ensures forall e :: e in Staff(us, departmentId) ==>
              e in DepartmentEmployeeIds(Identity(us, jwt, true), departmentId, token)
  {
    var gw := Identity(us, jwt, true);
    var recs := Users.FindByDepartment(us, departmentId);
    var ids := DepartmentEmployeeIds(gw, departmentId, token);
    assert gw.usersByDepartment(departmentId, token) == DepartmentCall(us, jwt, true, departmentId, token).body;
    forall e | e in Staff(us, departmentId)
      ensures e in ids
    {
      var u :| u in us && u.departmentId == Some(departmentId) && u.employeeId == e;
      var i :| 0 <= i < |us| && us[i] == u;
      assert Users.Selected(u, false, false) in recs;
      var k :| 0 <= k < |recs| && recs[k] == Users.Selected(u, false, false);
      assert ids[k] == e;
    }
  }

  /** With a HOD's token, approving or rejecting never lets two approved
      leaves of the department's users share a day. */
  lemma HodDecisionsKeepDepartmentApart(db: HrDb, us: Users.UserTable, jwt: Auth.Jwt, auth: Authentication, id: int,
                                        action: Option<string>, reason: Option<string>, now: int)
    requires ValidDb(db) && auth.Authenticated? && DepartmentViewer(jwt, auth.credentials)
    requires ApproveOrReject(db, auth, Identity(us, jwt, true), id, action, reason, now).result.Ok?
    requires var d := CheckReviewer(db, auth, Identity(us, jwt, true), id).value.department.id;
             NoApprovedClash(db.requests, Staff(us, d))
    ensures var d := CheckReviewer(db, auth, Identity(us, jwt, true), id).value.department.id;
            NoApprovedClash(ApproveOrReject(db, auth, Identity(us, jwt, true), id, action, reason, now).state.requests,
                            Staff(us, d))
  {
    var gw := Identity(us, jwt, true);
    var d := CheckReviewer(db, auth, gw, id).value.department.id;
    ViewerSeesWholeDepartment(us, jwt, d, auth.credentials);
    DecisionKeepsApprovedLeavesApart(db, auth, gw, id, action, reason, now, Staff(us, d));
  }
}
