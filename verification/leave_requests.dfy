/** The `LeaveRequest` entity and the queries of its repository. Dates are day
    numbers; clock readings are plain integers supplied by the caller. */
module LeaveRequests {
  import opened Common
  import opened Tables

  datatype Status = Pending | Approved | Rejected

  /** One row of `leave_requests`. Columns declared `nullable = false`
      (employee, start and end date) are plain values; the others may be null. */
  datatype LeaveRequest = LeaveRequest(
    employeeId: string,
    leaveTypeId: int,
    startDate: int,
    endDate: int,
    reason: Option<string>,
    status: Status,
    approvedBy: Option<string>,
    rejectionReason: Option<string>,
    createdAt: Option<int>,
    updatedAt: Option<int>)

  type Store = Table<LeaveRequest>

  /** A request as `new LeaveRequest()` plus the setters of `create` leave it,
      before the persistence hooks run. */
  function Draft(employeeId: string, leaveTypeId: int, startDate: int, endDate: int,
                 reason: Option<string>): (lr: LeaveRequest)
    ensures lr.status == Pending
    ensures lr.approvedBy == None && lr.rejectionReason == None
    ensures lr.createdAt == None && lr.updatedAt == None
  {
    LeaveRequest(employeeId, leaveTypeId, startDate, endDate, reason, Pending, None, None, None, None)
  }

  /** Everything but the two timestamps agrees. */
  predicate SameContent(a: LeaveRequest, b: LeaveRequest) {
    a.(createdAt := None, updatedAt := None) == b.(createdAt := None, updatedAt := None)
  }

  /** `@PrePersist`: both timestamps are set to the clock reading. */
  function OnCreate(lr: LeaveRequest, now: int): (r: LeaveRequest)
    ensures SameContent(r, lr)
    ensures r.createdAt == Some(now) && r.updatedAt == Some(now)
  {
    lr.(createdAt := Some(now), updatedAt := Some(now))
  }

  /** `@PreUpdate`: only the update timestamp moves. */
  function OnUpdate(lr: LeaveRequest, now: int): (r: LeaveRequest)
    ensures SameContent(r, lr)
    ensures r.createdAt == lr.createdAt && r.updatedAt == Some(now)
  {
    lr.(updatedAt := Some(now))
  }

  /** Updates never disturb the creation time stamped at insert. */
  lemma CreationTimeSurvivesUpdates(lr: LeaveRequest, t0: int, t1: int, t2: int)
    ensures OnUpdate(OnUpdate(OnCreate(lr, t0), t1), t2).createdAt == Some(t0)
    ensures OnUpdate(OnUpdate(OnCreate(lr, t0), t1), t2).updatedAt == Some(t2)
  {
  }

  // ---------------------------------------------------------------------
  // Repository queries
  // ---------------------------------------------------------------------

  /** `findByEmployeeId`. */
  function FindByEmployeeId(s: Store, employeeId: string): (r: seq<Row<LeaveRequest>>)
    ensures forall i :: 0 <= i < |r| ==> r[i] in s.rows && r[i].val.employeeId == employeeId
    ensures forall i :: 0 <= i < |s.rows| && s.rows[i].val.employeeId == employeeId ==> s.rows[i] in r
  {
    Filter(s.rows, (x: Row<LeaveRequest>) => x.val.employeeId == employeeId)
  }

  /** `findByStatus`. */
  function FindByStatus(s: Store, status: Status): (r: seq<Row<LeaveRequest>>)
    ensures forall i :: 0 <= i < |r| ==> r[i] in s.rows && r[i].val.status == status
    ensures forall i :: 0 <= i < |s.rows| && s.rows[i].val.status == status ==> s.rows[i] in r
  {
    Filter(s.rows, (x: Row<LeaveRequest>) => x.val.status == status)
  }

  /** The day `d` falls inside the inclusive range of the request. */
  predicate OnLeave(lr: LeaveRequest, d: int) {
    lr.startDate <= d <= lr.endDate
  }

  /** The request and the inclusive range `[start, end]` share at least one day. */
  ghost predicate SharesDay(lr: LeaveRequest, start: int, end: int) {
    exists d :: OnLeave(lr, d) && start <= d <= end
  }

  /** The WHERE clause of `findOverlappingLeaves`, conjunct by conjunct. */
  predicate Overlapping(x: Row<LeaveRequest>, employeeIds: seq<string>, start: int, end: int, excludeId: int) {
    && x.val.employeeId in employeeIds
    && x.val.status in {Approved, Pending}
    && x.id != excludeId
    && x.val.startDate <= end && x.val.endDate >= start
  }

  /** `findOverlappingLeaves`: the live requests of the listed employees,
      other than `excludeId`, that intersect `[start, end]`. */
  function FindOverlappingLeaves(s: Store, employeeIds: seq<string>, start: int, end: int, excludeId: int)
    : (r: seq<Row<LeaveRequest>>)
    ensures forall i :: 0 <= i < |r| ==>
              && r[i] in s.rows
              && r[i].val.employeeId in employeeIds
              && r[i].val.status != Rejected
              && r[i].id != excludeId
    ensures forall i :: 0 <= i < |s.rows| && Overlapping(s.rows[i], employeeIds, start, end, excludeId) ==>
              s.rows[i] in r
    ensures forall i :: 0 <= i < |r| ==> Overlapping(r[i], employeeIds, start, end, excludeId)
  {
    Filter(s.rows, (x: Row<LeaveRequest>) => Overlapping(x, employeeIds, start, end, excludeId))
  }

  /** For well-formed ranges the query's comparison is exactly "the two
      inclusive ranges share a day"; in particular touching ends overlap. */
  lemma {:induction false} ClosedIntervalTest(lr: LeaveRequest, start: int, end: int)
    requires lr.startDate <= lr.endDate && start <= end
    ensures (lr.startDate <= end && lr.endDate >= start) <==> SharesDay(lr, start, end)
  {
    if lr.startDate <= end && lr.endDate >= start {
      var d := if lr.startDate < start then start else lr.startDate;
      assert OnLeave(lr, d) && start <= d <= end;
    }
  }

  /** The intersection test does not care which range is the stored one. */
  lemma OverlapIsSymmetric(a: LeaveRequest, b: LeaveRequest)
    ensures (a.startDate <= b.endDate && a.endDate >= b.startDate)
        <==> (b.startDate <= a.endDate && b.endDate >= a.startDate)
  {
  }

  /** A leave that ends on the day another begins conflicts with it. */
  lemma TouchingEndsOverlap(x: Row<LeaveRequest>, employeeIds: seq<string>, excludeId: int, later: int)
    requires x.val.employeeId in employeeIds && x.val.status != Rejected && x.id != excludeId
    requires x.val.startDate <= x.val.endDate && later >= x.val.endDate
    ensures Overlapping(x, employeeIds, x.val.endDate, later, excludeId)
  {
  }

  /** Nobody in the list means nothing found. */
  lemma EmptyEmployeeListFindsNothing(s: Store, start: int, end: int, excludeId: int)
    ensures FindOverlappingLeaves(s, [], start, end, excludeId) == []
  {
    FilterNone(s.rows, (x: Row<LeaveRequest>) => Overlapping(x, [], start, end, excludeId));
  }

  /** With positive identity keys the sentinel 0 excludes no stored request. */
  lemma ZeroExcludesNothing(s: Store, employeeIds: seq<string>, start: int, end: int, i: int)
    requires Valid(s) && 0 <= i < |s.rows|
    requires s.rows[i].val.employeeId in employeeIds && s.rows[i].val.status != Rejected
    requires s.rows[i].val.startDate <= end && s.rows[i].val.endDate >= start
    ensures s.rows[i] in FindOverlappingLeaves(s, employeeIds, start, end, 0)
  {
  }

  /** Every stored range is well formed. */
  ghost predicate WellFormedDates(s: Store) {
    forall i :: 0 <= i < |s.rows| ==> s.rows[i].val.startDate <= s.rows[i].val.endDate
  }

  /** The query finds something exactly when some live request of a listed
      employee, other than `excludeId`, shares a day with `[start, end]`. */
  lemma {:induction false} OverlapQueryMeansSharedDay(s: Store, employeeIds: seq<string>, start: int, end: int, excludeId: int)
    requires WellFormedDates(s) && start <= end
    ensures |FindOverlappingLeaves(s, employeeIds, start, end, excludeId)| > 0 <==>
              exists i :: 0 <= i < |s.rows| && s.rows[i].id != excludeId
                          && s.rows[i].val.employeeId in employeeIds
                          && s.rows[i].val.status != Rejected
                          && SharesDay(s.rows[i].val, start, end)
  {
    var r := FindOverlappingLeaves(s, employeeIds, start, end, excludeId);
    if |r| > 0 {
      var x := r[0];
      var i :| 0 <= i < |s.rows| && s.rows[i] == x;
      ClosedIntervalTest(x.val, start, end);
    }
    if exists i :: 0 <= i < |s.rows| && s.rows[i].id != excludeId
                   && s.rows[i].val.employeeId in employeeIds
                   && s.rows[i].val.status != Rejected
                   && SharesDay(s.rows[i].val, start, end) {
      var i :| 0 <= i < |s.rows| && s.rows[i].id != excludeId
               && s.rows[i].val.employeeId in employeeIds
               && s.rows[i].val.status != Rejected
               && SharesDay(s.rows[i].val, start, end);
      ClosedIntervalTest(s.rows[i].val, start, end);
      assert s.rows[i] in r;
    }
  }
}
