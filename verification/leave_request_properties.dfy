/** What the overlap checks of `create` and `approveOrReject` buy: the new or
    newly approved request shares no day with any live request of the
    employees the identity service listed, and approvals never put two
    approved leaves of one department's staff on the same day. */
module LeaveRequestProperties {
  import opened Common
  import opened Tables
  import opened Security
  import opened LeaveRequests
  import opened Gateway
  import opened LeaveRequestService

  /** A request created by `create` shares no day with any approved or
      pending request of an employee the identity service listed for the
      caller's department. */
  lemma {:induction false} CreatedRequestClashesWithNobody(db: HrDb, auth: Authentication, gw: IdentityGateway,
                                                           app: Application, now: int, p: int)
    requires ValidDb(db) && Create(db, auth, gw, app, now).result.Ok?
    requires 0 <= p < |db.requests.rows| && db.requests.rows[p].val.status != Rejected
    requires db.requests.rows[p].val.employeeId in
               DepartmentEmployeeIds(gw, auth.principal.departmentId.value, auth.credentials)
    ensures !SharesDay(db.requests.rows[p].val, app.startDate, app.endDate)
  {
    var x := db.requests.rows[p];
    var ids := DepartmentEmployeeIds(gw, auth.principal.departmentId.value, auth.credentials);
    assert x.id != 0;
    assert !Overlapping(x, ids, app.startDate, app.endDate, 0);
    ClosedIntervalTest(x.val, app.startDate, app.endDate);
  }

  /** The request an approval decided, as stored afterwards. */
  function DecidedRequest(db: HrDb, auth: Authentication, gw: IdentityGateway, id: int,
                     action: Option<string>, reason: Option<string>, now: int): LeaveRequest
    requires ApproveOrReject(db, auth, gw, id, action, reason, now).result.Ok?
  {
    ApproveOrReject(db, auth, gw, id, action, reason, now).result.value.val
  }

  /** The employee ids an approval of `id` checked against. */
  function ReviewedStaff(db: HrDb, auth: Authentication, gw: IdentityGateway, id: int): seq<string>
    requires CheckReviewer(db, auth, gw, id).Ok?
  {
    DepartmentEmployeeIds(gw, CheckReviewer(db, auth, gw, id).value.department.id, auth.credentials)
  }

  /** An approved request shares no day with any other approved or pending
      request of an employee the identity service listed for the owner's
      department, in either direction. */
  lemma {:induction false} ApprovedRequestClashesWithNobody(db: HrDb, auth: Authentication, gw: IdentityGateway, id: int,
                                                            action: Option<string>, reason: Option<string>, now: int, p: int)
    requires ValidDb(db) && ApproveOrReject(db, auth, gw, id, action, reason, now).result.Ok?
    requires IsAction(action, "approve")
    requires 0 <= p < |db.requests.rows| && db.requests.rows[p].id != id && db.requests.rows[p].val.status != Rejected
    requires db.requests.rows[p].val.employeeId in ReviewedStaff(db, auth, gw, id)
    ensures var a := DecidedRequest(db, auth, gw, id, action, reason, now);
            && !SharesDay(a, db.requests.rows[p].val.startDate, db.requests.rows[p].val.endDate)
            && !SharesDay(db.requests.rows[p].val, a.startDate, a.endDate)
  {
    var a := DecidedRequest(db, auth, gw, id, action, reason, now);
    var rv := CheckReviewer(db, auth, gw, id).value;
    var x := db.requests.rows[p];
    var ids := ReviewedStaff(db, auth, gw, id);
    assert a.startDate == rv.request.startDate && a.endDate == rv.request.endDate;
    var j :| 0 <= j < |db.requests.rows| && db.requests.rows[j] == Row(id, rv.request);
    assert !Overlapping(x, ids, a.startDate, a.endDate, id);
    ClosedIntervalTest(x.val, a.startDate, a.endDate);
    ClosedIntervalTest(a, x.val.startDate, x.val.endDate);
  }

  /** No two approved requests of the given staff share a day. */
  ghost predicate NoApprovedClash(s: Store, staff: set<string>) {
    forall i, j :: 0 <= i < |s.rows| && 0 <= j < |s.rows| && i != j
      && s.rows[i].val.status == Approved && s.rows[j].val.status == Approved
      && s.rows[i].val.employeeId in staff && s.rows[j].val.employeeId in staff
      ==> !SharesDay(s.rows[i].val, s.rows[j].val.startDate, s.rows[j].val.endDate)
  }

  /** When the identity service lists at least the given staff for the
      owner's department, approving or rejecting keeps their approved leaves
      apart. */
  lemma {:induction false} DecisionKeepsApprovedLeavesApart(db: HrDb, auth: Authentication, gw: IdentityGateway, id: int,
                                                            action: Option<string>, reason: Option<string>, now: int,
                                                            staff: set<string>)
    requires ValidDb(db) && ApproveOrReject(db, auth, gw, id, action, reason, now).result.Ok?
    requires forall e :: e in staff ==> e in ReviewedStaff(db, auth, gw, id)
    requires NoApprovedClash(db.requests, staff)
    ensures NoApprovedClash(ApproveOrReject(db, auth, gw, id, action, reason, now).state.requests, staff)
  {
    var s := db.requests;
    var a := DecidedRequest(db, auth, gw, id, action, reason, now);
    var s' := ApproveOrReject(db, auth, gw, id, action, reason, now).state.requests;
    assert s' == Replace(s, id, a);
    forall i, j | 0 <= i < |s'.rows| && 0 <= j < |s'.rows| && i != j
      && s'.rows[i].val.status == Approved && s'.rows[j].val.status == Approved
      && s'.rows[i].val.employeeId in staff && s'.rows[j].val.employeeId in staff
      ensures !SharesDay(s'.rows[i].val, s'.rows[j].val.startDate, s'.rows[j].val.endDate)
    {
      if s.rows[i].id == id {
        assert s.rows[j].id != id;
        assert s'.rows[i].val == a && s'.rows[j] == s.rows[j];
        assert IsAction(action, "approve");
        ApprovedRequestClashesWithNobody(db, auth, gw, id, action, reason, now, j);
      } else if s.rows[j].id == id {
        assert s'.rows[j].val == a && s'.rows[i] == s.rows[i];
        assert IsAction(action, "approve");
        ApprovedRequestClashesWithNobody(db, auth, gw, id, action, reason, now, i);
      } else {
        assert s'.rows[i] == s.rows[i] && s'.rows[j] == s.rows[j];
      }
    }
  }
}
