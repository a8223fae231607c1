/** `LeaveRequestService`: applying for leave, approving or rejecting it, and
    the listings around them. The caller is the `Authentication` the JWT
    filter installed; the identity service is reached through a gateway. */
module LeaveRequestService {
  import opened Common
  import opened Tables
  import opened Exceptions
  import opened Security
  import opened LeaveRequests
  import opened LeaveTypes
  import opened Departments
  import opened Gateway

  /** The three tables of the leave service's database. */
  datatype HrDb = HrDb(requests: Store, leaveTypes: Catalogue, departments: Directory)

  /** Keys are sound in every table and every stored range is well formed. */
  ghost predicate ValidDb(db: HrDb) {
    && Valid(db.requests) && Valid(db.leaveTypes) && Valid(db.departments)
    && WellFormedDates(db.requests)
  }

  const NotAuthenticated := "User not authenticated"
  const OnlyHodMayList := "Only HOD can view pending leave requests"
  const NotHodAnywhere := "No department found where you are HOD"
  const EndBeforeStart := "End date must be after or equal to start date"
  const LeaveTypeNotFound := "Leave type not found"
  const NoDepartment := "Employee must be assigned to a department"
  const DepartmentNotFound := "Department not found"
  const ApplyClash := "Cannot apply for leave: Another employee in your department already has an approved or pending leave during this period"
  const OnlyHodMayReview := "Only HOD can approve or reject leave requests"
  const RequestNotFound := "Leave request not found"
  const NotPending := "Leave request is not pending"
  const NotYourDepartment := "You are not the HOD of this employee's department"
  const ApproveClash := "Cannot approve: Another employee in this department already has an approved or pending leave during this period"
  const BadAction := "Action must be 'approve' or 'reject'"

  /** `getCurrentUser`. */
  function CurrentUser(auth: Authentication): (r: Result<UserInfo, Exception>)
    ensures r.Ok? <==> auth.Authenticated?
    ensures r.Ok? ==> r.value == auth.principal
    ensures r.Err? ==> r.error == Security(Some(NotAuthenticated))
  {
    if auth.Authenticated? then Ok(auth.principal) else Err(Security(Some(NotAuthenticated)))
  }

  /** `getDepartmentEmployeeIds`: the employee ids the identity service lists
      for the department, asked with the caller's own token. */
  function DepartmentEmployeeIds(gw: IdentityGateway, departmentId: int, token: string): (ids: seq<string>)
    ensures var users := gw.usersByDepartment(departmentId, token);
            |ids| == |users| && forall i :: 0 <= i < |users| ==> ids[i] == users[i].employeeId
  {
    var users := gw.usersByDepartment(departmentId, token);
    seq(|users|, i requires 0 <= i < |users| => users[i].employeeId)
  }

  /** `findById`. */
  function FindById(db: HrDb, id: int): (r: Result<Row<LeaveRequest>, Exception>)
    ensures r.Ok? <==> HasId(db.requests, id)
    ensures r.Ok? ==> r.value == Row(id, Find(db.requests, id).value)
    ensures r.Err? ==> r.error == IllegalArgument("Leave request not found with id: " + IntToString(id))
  {
    match Find(db.requests, id)
    case Some(lr) => Ok(Row(id, lr))
    case None => Err(IllegalArgument("Leave request not found with id: " + IntToString(id)))
  }

  /** `findMyLeaveRequests`: the caller's own requests. */
  function FindMyLeaveRequests(db: HrDb, auth: Authentication): (r: Result<seq<Row<LeaveRequest>>, Exception>)
    ensures r.Ok? <==> auth.Authenticated?
    ensures r.Err? ==> r.error == Security(Some(NotAuthenticated))
    ensures r.Ok? ==> forall i :: 0 <= i < |r.value| ==>
                        r.value[i] in db.requests.rows && r.value[i].val.employeeId == auth.principal.employeeId
    ensures r.Ok? ==> forall i :: 0 <= i < |db.requests.rows| && db.requests.rows[i].val.employeeId == auth.principal.employeeId
                        ==> db.requests.rows[i] in r.value
  {
    var user :- CurrentUser(auth);
    Ok(FindByEmployeeId(db.requests, user.employeeId))
  }

  /** The first department, in table order, whose HOD is `employeeId`. */
  function HeadedDepartment(db: HrDb, employeeId: string): (r: Option<Row<Department>>)
    ensures r.None? <==> forall i :: 0 <= i < |db.departments.rows| ==>
                           db.departments.rows[i].val.hodEmployeeId != Some(employeeId)
    ensures r.Some? ==> exists i :: 0 <= i < |db.departments.rows| && db.departments.rows[i] == r.value
                                  && r.value.val.hodEmployeeId == Some(employeeId)
                                  && forall j :: 0 <= j < i ==> db.departments.rows[j].val.hodEmployeeId != Some(employeeId)
  {
    First(db.departments.rows, (d: Row<Department>) => d.val.hodEmployeeId == Some(employeeId))
  }

  /** The pending requests of the listed employees, in table order. */
  function PendingOf(s: Store, ids: seq<string>): (r: seq<Row<LeaveRequest>>)
    ensures forall i :: 0 <= i < |r| ==> r[i] in s.rows && r[i].val.status == Pending && r[i].val.employeeId in ids
    ensures forall i :: 0 <= i < |s.rows| && s.rows[i].val.status == Pending && s.rows[i].val.employeeId in ids ==>
              s.rows[i] in r
  {
    Filter(s.rows, (x: Row<LeaveRequest>) => x.val.status == Pending && x.val.employeeId in ids)
  }

  /** `findPendingForHod`. */
  function FindPendingForHod(db: HrDb, auth: Authentication, gw: IdentityGateway)
    : (r: Result<seq<Row<LeaveRequest>>, Exception>)
    ensures !auth.Authenticated? ==> r == Err(Security(Some(NotAuthenticated)))
    ensures auth.Authenticated? && !EqualsIgnoreCase("hod", auth.principal.role) ==>
              r == Err(Security(Some(OnlyHodMayList)))
    ensures auth.Authenticated? && EqualsIgnoreCase("hod", auth.principal.role)
            && HeadedDepartment(db, auth.principal.employeeId).None? ==>
              r == Err(IllegalArgument(NotHodAnywhere))
    ensures r.Ok? ==>
              && auth.Authenticated? && EqualsIgnoreCase("hod", auth.principal.role)
              && HeadedDepartment(db, auth.principal.employeeId).Some?
              && var d := HeadedDepartment(db, auth.principal.employeeId).value;
                 var ids := DepartmentEmployeeIds(gw, d.id, auth.credentials);
                 && (forall i :: 0 <= i < |r.value| ==>
                       r.value[i] in db.requests.rows && r.value[i].val.status == Pending && r.value[i].val.employeeId in ids)
                 && (forall i :: (0 <= i < |db.requests.rows| && db.requests.rows[i].val.status == Pending
                                  && db.requests.rows[i].val.employeeId in ids) ==> db.requests.rows[i] in r.value)
  {
    var user :- CurrentUser(auth);
    if !EqualsIgnoreCase("hod", user.role) then Err(Security(Some(OnlyHodMayList)))
    else
      match HeadedDepartment(db, user.employeeId)
      case None => Err(IllegalArgument(NotHodAnywhere))
      case Some(d) => Ok(PendingOf(db.requests, DepartmentEmployeeIds(gw, d.id, auth.credentials)))
  }

  // ---------------------------------------------------------------------
  // create
  // ---------------------------------------------------------------------

  /** A `LeaveRequestDto` that has passed Bean Validation: type id and both
      dates present, reason optional. */
  datatype Application = Application(leaveTypeId: int, startDate: int, endDate: int, reason: Option<string>)

  /** The row `create` inserts for `user`, stamped at `now`. */
  function NewRequest(user: UserInfo, app: Application, now: int): (lr: LeaveRequest)
    ensures lr.status == Pending && lr.employeeId == user.employeeId
    ensures lr.leaveTypeId == app.leaveTypeId && lr.startDate == app.startDate && lr.endDate == app.endDate
    ensures lr.reason == app.reason && lr.approvedBy == None && lr.rejectionReason == None
    ensures lr.createdAt == Some(now) && lr.updatedAt == Some(now)
  {
    OnCreate(Draft(user.employeeId, app.leaveTypeId, app.startDate, app.endDate, app.reason), now)
  }

  /** The requests `create` finds in the way of `app` for a caller of
      department `departmentId`. */
  function ApplyConflicts(db: HrDb, gw: IdentityGateway, auth: Authentication, departmentId: int, app: Application)
    : seq<Row<LeaveRequest>>
    requires auth.Authenticated?
  {
    FindOverlappingLeaves(db.requests, DepartmentEmployeeIds(gw, departmentId, auth.credentials),
                          app.startDate, app.endDate, 0)
  }

  /** `create`: checks the dates, the leave type, the caller's department and
      the department's calendar, in that order, then inserts a pending request. */
  function Create(db: HrDb, auth: Authentication, gw: IdentityGateway, app: Application, now: int)
    : (r: Step<HrDb, Row<LeaveRequest>>)
    ensures r.result.Err? ==> r.state == db
    ensures !auth.Authenticated? ==> r.result == Err(Security(Some(NotAuthenticated)))
    ensures auth.Authenticated? && app.endDate < app.startDate ==> r.result == Err(IllegalArgument(EndBeforeStart))
    ensures auth.Authenticated? && app.startDate <= app.endDate && !HasId(db.leaveTypes, app.leaveTypeId) ==>
              r.result == Err(IllegalArgument(LeaveTypeNotFound))
    ensures auth.Authenticated? && app.startDate <= app.endDate && HasId(db.leaveTypes, app.leaveTypeId)
            && auth.principal.departmentId.None? ==>
              r.result == Err(IllegalArgument(NoDepartment))
    ensures auth.Authenticated? && app.startDate <= app.endDate && HasId(db.leaveTypes, app.leaveTypeId)
            && auth.principal.departmentId.Some? && !HasId(db.departments, auth.principal.departmentId.value) ==>
              r.result == Err(IllegalArgument(DepartmentNotFound))
    ensures auth.Authenticated? && app.startDate <= app.endDate && HasId(db.leaveTypes, app.leaveTypeId)
            && auth.principal.departmentId.Some? && HasId(db.departments, auth.principal.departmentId.value) ==>
              (r.result.Ok? <==> ApplyConflicts(db, gw, auth, auth.principal.departmentId.value, app) == [])
              && (r.result.Err? ==> r.result.error == IllegalArgument(ApplyClash))
    ensures r.result.Ok? ==>
              && auth.Authenticated? && app.startDate <= app.endDate
              && r.result.value == Row(db.requests.nextId, NewRequest(auth.principal, app, now))
              && r.state.leaveTypes == db.leaveTypes && r.state.departments == db.departments
              && (Valid(db.requests) ==> Find(r.state.requests, db.requests.nextId) == Some(r.result.value.val))
              && (forall k :: k != db.requests.nextId ==> Find(r.state.requests, k) == Find(db.requests, k))
    ensures ValidDb(db) ==> ValidDb(r.state)
  {
    if !auth.Authenticated? then Step(db, Err(Security(Some(NotAuthenticated))))
    else
    var user := auth.principal;
    if app.endDate < app.startDate then Step(db, Err(IllegalArgument(EndBeforeStart)))
    else if Find(db.leaveTypes, app.leaveTypeId).None? then Step(db, Err(IllegalArgument(LeaveTypeNotFound)))
    else if user.departmentId.None? then Step(db, Err(IllegalArgument(NoDepartment)))
    else if Find(db.departments, user.departmentId.value).None? then Step(db, Err(IllegalArgument(DepartmentNotFound)))
    else if ApplyConflicts(db, gw, auth, user.departmentId.value, app) != [] then Step(db, Err(IllegalArgument(ApplyClash)))
    else
      var lr := NewRequest(user, app, now);
      var requests := Insert(db.requests, lr);
      assert WellFormedDates(db.requests) ==> WellFormedDates(requests) by {
        assert requests.rows == db.requests.rows + [Row(db.requests.nextId, lr)] by {
          assert requests.rows[..|db.requests.rows|] == db.requests.rows;
        }
      }
      Step(db.(requests := requests), Ok(Row(db.requests.nextId, lr)))
  }

  // ---------------------------------------------------------------------
  // approveOrReject
  // ---------------------------------------------------------------------

  /** What `approveOrReject` has established before it looks at the action:
      the reviewer, the request and the department of its owner. */
  datatype Review = Review(reviewer: UserInfo, request: LeaveRequest, department: Row<Department>)

  /** The department of the request's owner, as the identity service reports
      the owner (asked with the reviewer's token). */
  function OwnerDepartment(gw: IdentityGateway, auth: Authentication, lr: LeaveRequest): Option<int>
    requires auth.Authenticated?
  {
    var owner := gw.userByEmployeeId(lr.employeeId, auth.credentials);
    if owner.Some? then owner.value.departmentId else None
  }

  /** The checks of `approveOrReject` up to and including "the caller heads
      the owner's department". */
  function CheckReviewer(db: HrDb, auth: Authentication, gw: IdentityGateway, id: int)
    : (r: Result<Review, Exception>)
    ensures !auth.Authenticated? ==> r == Err(Security(Some(NotAuthenticated)))
    ensures auth.Authenticated? && !EqualsIgnoreCase("hod", auth.principal.role) ==>
              r == Err(Security(Some(OnlyHodMayReview)))
    ensures auth.Authenticated? && EqualsIgnoreCase("hod", auth.principal.role) && !HasId(db.requests, id) ==>
              r == Err(IllegalArgument(RequestNotFound))
    ensures auth.Authenticated? && EqualsIgnoreCase("hod", auth.principal.role) && HasId(db.requests, id)
            && Find(db.requests, id).value.status != Pending ==>
              r == Err(IllegalArgument(NotPending))
    ensures auth.Authenticated? && EqualsIgnoreCase("hod", auth.principal.role) && HasId(db.requests, id)
            && Find(db.requests, id).value.status == Pending
            && OwnerDepartment(gw, auth, Find(db.requests, id).value).None? ==>
              r == Err(IllegalArgument(NoDepartment))
    ensures r.Ok? <==>
              && auth.Authenticated? && EqualsIgnoreCase("hod", auth.principal.role)
              && HasId(db.requests, id) && Find(db.requests, id).value.status == Pending
              && var did := OwnerDepartment(gw, auth, Find(db.requests, id).value);
                 && did.Some? && HasId(db.departments, did.value)
                 && Find(db.departments, did.value).value.hodEmployeeId == Some(auth.principal.employeeId)
    ensures r.Ok? ==>
              && r.value.reviewer == auth.principal
              && r.value.request == Find(db.requests, id).value
              && Some(r.value.department.id) == OwnerDepartment(gw, auth, r.value.request)
              && r.value.department.val == Find(db.departments, r.value.department.id).value
  {
    var user :- CurrentUser(auth);
    if !EqualsIgnoreCase("hod", user.role) then Err(Security(Some(OnlyHodMayReview)))
    else
      match Find(db.requests, id)
      case None => Err(IllegalArgument(RequestNotFound))
      case Some(lr) =>
        if lr.status != Pending then Err(IllegalArgument(NotPending))
        else
          match OwnerDepartment(gw, auth, lr)
          case None => Err(IllegalArgument(NoDepartment))
          case Some(did) =>
            match Find(db.departments, did)
            case None => Err(IllegalArgument(DepartmentNotFound))
            case Some(dept) =>
              if dept.hodEmployeeId != Some(user.employeeId) then Err(Security(Some(NotYourDepartment)))
              else Ok(Review(user, lr, Row(did, dept)))
  }

  /** `action` equals `word` ignoring case; a null action equals nothing. */
  predicate IsAction(action: Option<string>, word: string) {
    action.Some? && EqualsIgnoreCase(word, action.value)
  }

  /** The requests an approval of request `id` finds in the way. */
  function ApproveConflicts(db: HrDb, gw: IdentityGateway, auth: Authentication, rv: Review, id: int)
    : seq<Row<LeaveRequest>>
    requires auth.Authenticated?
  {
    FindOverlappingLeaves(db.requests, DepartmentEmployeeIds(gw, rv.department.id, auth.credentials),
                          rv.request.startDate, rv.request.endDate, id)
  }

  /** The request once the decision is applied, before the update hook. */
  function Decided(rv: Review, action: Option<string>, rejectionReason: Option<string>): (lr: LeaveRequest)
    requires IsAction(action, "approve") || IsAction(action, "reject")
    ensures SameContent(lr, rv.request.(status := lr.status, approvedBy := lr.approvedBy,
                                        rejectionReason := lr.rejectionReason))
    ensures lr.approvedBy == Some(rv.reviewer.employeeId)
    ensures IsAction(action, "approve") ==>
              lr.status == Approved && lr.rejectionReason == rv.request.rejectionReason
    ensures !IsAction(action, "approve") ==> lr.status == Rejected && lr.rejectionReason == rejectionReason
  {
    if IsAction(action, "approve") then
      rv.request.(status := Approved, approvedBy := Some(rv.reviewer.employeeId))
    else
      rv.request.(status := Rejected, approvedBy := Some(rv.reviewer.employeeId), rejectionReason := rejectionReason)
  }

  /** `approveOrReject`. */
  function ApproveOrReject(db: HrDb, auth: Authentication, gw: IdentityGateway, id: int,
                           action: Option<string>, rejectionReason: Option<string>, now: int)
    : (r: Step<HrDb, Row<LeaveRequest>>)
    ensures r.result.Err? ==> r.state == db
    ensures CheckReviewer(db, auth, gw, id).Err? ==> r.result == Err(CheckReviewer(db, auth, gw, id).error)
    ensures CheckReviewer(db, auth, gw, id).Ok? && !IsAction(action, "approve") && !IsAction(action, "reject") ==>
              r.result == Err(IllegalArgument(BadAction))
    ensures CheckReviewer(db, auth, gw, id).Ok? && IsAction(action, "approve") ==>
              (r.result.Ok? <==> ApproveConflicts(db, gw, auth, CheckReviewer(db, auth, gw, id).value, id) == [])
              && (r.result.Err? ==> r.result.error == IllegalArgument(ApproveClash))
    ensures CheckReviewer(db, auth, gw, id).Ok? && IsAction(action, "reject") ==> r.result.Ok?
    ensures r.result.Ok? ==>
              var old_ := Find(db.requests, id).value;
              var new_ := r.result.value.val;
              && auth.Authenticated? && CheckReviewer(db, auth, gw, id).Ok?
              && r.result.value.id == id
              && old_.status == Pending
              && new_.approvedBy == Some(auth.principal.employeeId)
              && (IsAction(action, "approve") ==> new_.status == Approved && new_.rejectionReason == old_.rejectionReason)
              && (!IsAction(action, "approve") ==> new_.status == Rejected && new_.rejectionReason == rejectionReason)
              && SameContent(new_, old_.(status := new_.status, approvedBy := new_.approvedBy,
                                         rejectionReason := new_.rejectionReason))
              && new_.createdAt == old_.createdAt && new_.updatedAt == Some(now)
              && Find(r.state.requests, id) == Some(new_)
              && (forall k :: k != id ==> Find(r.state.requests, k) == Find(db.requests, k))
              && r.state.requests == Replace(db.requests, id, new_)
              && r.state.leaveTypes == db.leaveTypes && r.state.departments == db.departments
    ensures ValidDb(db) ==> ValidDb(r.state)
  {
    match CheckReviewer(db, auth, gw, id)
    case Err(e) => Step(db, Err(e))
    case Ok(rv) =>
      if !IsAction(action, "approve") && !IsAction(action, "reject") then Step(db, Err(IllegalArgument(BadAction)))
      else if IsAction(action, "approve") && ApproveConflicts(db, gw, auth, rv, id) != [] then
        Step(db, Err(IllegalArgument(ApproveClash)))
      else
        var lr := OnUpdate(Decided(rv, action, rejectionReason), now);
        var requests := Replace(db.requests, id, lr);
        assert WellFormedDates(db.requests) ==> WellFormedDates(requests);
        Step(db.(requests := requests), Ok(Row(id, lr)))
  }

  /** Requests that are already approved or rejected are never changed. */
  lemma {:induction false} DecisionsAreFinal(db: HrDb, auth: Authentication, gw: IdentityGateway, id: int,
                                            action: Option<string>, rejectionReason: Option<string>, now: int, k: int)
    requires Find(db.requests, k).Some? && Find(db.requests, k).value.status != Pending
    ensures Find(ApproveOrReject(db, auth, gw, id, action, rejectionReason, now).state.requests, k) == Find(db.requests, k)
  {
    var r := ApproveOrReject(db, auth, gw, id, action, rejectionReason, now);
    if r.result.Ok? {
      assert k != id;
    }
  }
}
