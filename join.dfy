/** The left join of the timesheet table onto the employee table on `employee_id`. */
module Join {
  import opened Wrappers
  import opened Schema

  /** A row of the merged table: the employee's columns followed by the timesheet's columns. The
      two tables share the key column, held here as `employee.employeeId`. */
  datatype Joined = Joined(employee: Employee, timesheetId: Option<string>, date: Option<Date>, checkin: Option<int>, checkout: Option<int>)

  /** The merged row of an employee and one of their timesheets. */
  function Attach(e: Employee, t: Timesheet): Joined {
    Joined(e, Some(t.timesheetId), t.date, t.checkin, t.checkout)
  }

  /** The merged row of an employee without timesheets: every timesheet column is empty. */
  function Unmatched(e: Employee): Joined {
    Joined(e, None, None, None, None)
  }

  /** True when some timesheet carries the employee's key. */
  ghost predicate HasTimesheet(e: Employee, ts: seq<Timesheet>) {
    exists t :: t in ts && t.employeeId == e.employeeId
  }

  /** The timesheets whose key is `id`, in their original order. */
  function Matching(id: int, ts: seq<Timesheet>): (ms: seq<Timesheet>)
    ensures forall t :: t in ms <==> t in ts && t.employeeId == id
  {
    if ts == [] then []
    else (if ts[0].employeeId == id then [ts[0]] else []) + Matching(id, ts[1..])
  }

  /** Matching keeps every timesheet with the key exactly as many times as it occurs, and no
      other: duplicate timesheet rows each make a merged row. */
  lemma {:induction false} MatchingMultiplicity(id: int, ts: seq<Timesheet>)
    ensures forall t :: multiset(Matching(id, ts))[t] == if t.employeeId == id then multiset(ts)[t] else 0
    decreases |ts|
  {
    if ts != [] {
      MatchingMultiplicity(id, ts[1..]);
      assert ts == [ts[0]] + ts[1..];
    }
  }

  /** The number of timesheets whose key is `id`. */
  function KeyCount(ts: seq<Timesheet>, id: int): nat {
    if ts == [] then 0 else (if ts[0].employeeId == id then 1 else 0) + KeyCount(ts[1..], id)
  }

  /** The timesheets matched to a key are as many as the timesheets carrying that key. */
  lemma {:induction false} MatchingCount(id: int, ts: seq<Timesheet>)
    ensures |Matching(id, ts)| == KeyCount(ts, id)
    decreases |ts|
  {
    if ts != [] {
      MatchingCount(id, ts[1..]);
    }
  }

  /** Matching keeps the order of the timesheets: matching a concatenation concatenates the
      matches of its parts. */
  lemma {:induction false} MatchingAppend(id: int, a: seq<Timesheet>, b: seq<Timesheet>)
    ensures Matching(id, a + b) == Matching(id, a) + Matching(id, b)
    decreases |a|
  {
    if a == [] {
      assert a + b == b;
    } else {
      var ab := a + b;
      var head := if a[0].employeeId == id then [a[0]] else [];
      assert ab[0] == a[0] && ab[1..] == a[1..] + b;
      assert Matching(id, ab) == head + Matching(id, a[1..] + b);
      assert Matching(id, a) == head + Matching(id, a[1..]);
      MatchingAppend(id, a[1..], b);
    }
  }

  /** The merged rows of one employee with each of the given timesheets, in order. */
  function AttachAll(e: Employee, ms: seq<Timesheet>): (js: seq<Joined>)
    ensures |js| == |ms|
    ensures forall i :: 0 <= i < |ms| ==> js[i] == Attach(e, ms[i])
    ensures forall j :: j in js <==> exists t :: t in ms && j == Attach(e, t)
  {
    if ms == [] then [] else [Attach(e, ms[0])] + AttachAll(e, ms[1..])
  }

  /** The merged rows of one employee: one per matching timesheet, or a single row with empty
      timesheet columns when there is none. */
  function JoinEmployee(e: Employee, ts: seq<Timesheet>): seq<Joined> {
    var ms := Matching(e.employeeId, ts);
    if ms == [] then [Unmatched(e)] else AttachAll(e, ms)
  }

  /** The left join: each employee row, in order, followed by nothing else than its merged rows. */
  function LeftJoin(es: seq<Employee>, ts: seq<Timesheet>): seq<Joined> {
    if es == [] then [] else JoinEmployee(es[0], ts) + LeftJoin(es[1..], ts)
  }

  /** `j` is a merged row the join makes for employee row `e`: `e` paired with one of its
      timesheets, or `e` with empty timesheet columns when it has none. */
  ghost predicate MergedFrom(e: Employee, ts: seq<Timesheet>, j: Joined) {
    (j == Unmatched(e) && !HasTimesheet(e, ts)) ||
    (exists t :: t in ts && t.employeeId == e.employeeId && j == Attach(e, t))
  }

  /** A row is in the left join exactly when it pairs an employee with one of that employee's
      timesheets, or it is the empty-timesheet row of an employee who has none. Timesheets whose
      key matches no employee leave no row. */
  lemma {:induction false} LeftJoinMembership(es: seq<Employee>, ts: seq<Timesheet>, j: Joined)
    ensures j in LeftJoin(es, ts) <==> exists e :: e in es && MergedFrom(e, ts, j)
    decreases |es|
  {
    if es != [] {
      var rest := es[1..];
      LeftJoinMembership(rest, ts, j);
      JoinEmployeeMembership(es[0], ts, j);
      assert j in LeftJoin(es, ts) <==> j in JoinEmployee(es[0], ts) || j in LeftJoin(rest, ts);
      if j in LeftJoin(es, ts) {
        if j in JoinEmployee(es[0], ts) {
          assert es[0] in es;
        } else {
          var e :| e in rest && MergedFrom(e, ts, j);
          assert e in es;
        }
      }
      if e :| e in es && MergedFrom(e, ts, j) {
        if e != es[0] {
          assert e in rest;
        }
      }
    }
  }

  lemma JoinEmployeeMembership(e: Employee, ts: seq<Timesheet>, j: Joined)
    ensures j in JoinEmployee(e, ts) <==> MergedFrom(e, ts, j)
  {
    var ms := Matching(e.employeeId, ts);
    if ms == [] {
      assert !HasTimesheet(e, ts);
    } else {
      assert ms[0] in ms;
    }
  }

  /** The number of rows whose employee key is `id`. */
  function RowsWithKey(js: seq<Joined>, id: int): nat {
    if js == [] then 0 else (if js[0].employee.employeeId == id then 1 else 0) + RowsWithKey(js[1..], id)
  }

  /** The number of employee rows whose key is `id`. */
  function EmployeesWithKey(es: seq<Employee>, id: int): nat {
    if es == [] then 0 else (if es[0].employeeId == id then 1 else 0) + EmployeesWithKey(es[1..], id)
  }

  /** The left join's row count for a key: the rows with key `id` number the employee rows with
      that key times the timesheets with that key, or times one when there is no such timesheet. */
  lemma {:induction false} LeftJoinRowCount(es: seq<Employee>, ts: seq<Timesheet>, id: int)
    ensures var n := KeyCount(ts, id);
      RowsWithKey(LeftJoin(es, ts), id) == EmployeesWithKey(es, id) * (if n == 0 then 1 else n)
    decreases |es|
  {
    MatchingCount(id, ts);
    if es != [] {
      var n := |Matching(id, ts)|;
      var m := if n == 0 then 1 else n;
      LeftJoinRowCount(es[1..], ts, id);
      RowsWithKeyAppend(JoinEmployee(es[0], ts), LeftJoin(es[1..], ts), id);
      JoinEmployeeRowCount(es[0], ts, id);
      calc {
        RowsWithKey(LeftJoin(es, ts), id);
        (if es[0].employeeId == id then m else 0) + EmployeesWithKey(es[1..], id) * m;
        ((if es[0].employeeId == id then 1 else 0) + EmployeesWithKey(es[1..], id)) * m;
      }
    }
  }

  /** Each employee row contributes its own block of merged rows: the i-th pairs it with the i-th
      timesheet carrying its key, or a single row with empty timesheet columns when there is none. */
  lemma EmployeeRows(e: Employee, ts: seq<Timesheet>)
    ensures var n := KeyCount(ts, e.employeeId);
      |JoinEmployee(e, ts)| == if n == 0 then 1 else n
    ensures forall j :: j in JoinEmployee(e, ts) ==> j.employee == e
    ensures KeyCount(ts, e.employeeId) == 0 ==> JoinEmployee(e, ts) == [Unmatched(e)]
    ensures KeyCount(ts, e.employeeId) > 0 ==>
      && |JoinEmployee(e, ts)| == |Matching(e.employeeId, ts)|
      && forall i :: 0 <= i < |Matching(e.employeeId, ts)| ==> JoinEmployee(e, ts)[i] == Attach(e, Matching(e.employeeId, ts)[i])
  {
    MatchingCount(e.employeeId, ts);
  }

  /** The left join keeps the order of the employee rows: joining a concatenation concatenates
      the joins of its parts. */
  lemma {:induction false} LeftJoinAppend(a: seq<Employee>, b: seq<Employee>, ts: seq<Timesheet>)
    ensures LeftJoin(a + b, ts) == LeftJoin(a, ts) + LeftJoin(b, ts)
    decreases |a|
  {
    if a == [] {
      assert a + b == b;
    } else {
      assert (a + b)[1..] == a[1..] + b;
      LeftJoinAppend(a[1..], b, ts);
    }
  }

  lemma JoinEmployeeRowCount(e: Employee, ts: seq<Timesheet>, id: int)
    ensures var n := |Matching(id, ts)|;
      RowsWithKey(JoinEmployee(e, ts), id) == if e.employeeId != id then 0 else if n == 0 then 1 else n
  {
    AttachAllRowCount(e, Matching(e.employeeId, ts), id);
  }

  lemma {:induction false} AttachAllRowCount(e: Employee, ms: seq<Timesheet>, id: int)
    ensures RowsWithKey(AttachAll(e, ms), id) == if e.employeeId == id then |ms| else 0
    decreases |ms|
  {
    if ms != [] {
      AttachAllRowCount(e, ms[1..], id);
      assert AttachAll(e, ms)[1..] == AttachAll(e, ms[1..]);
    }
  }

  lemma {:induction false} RowsWithKeyAppend(a: seq<Joined>, b: seq<Joined>, id: int)
    ensures RowsWithKey(a + b, id) == RowsWithKey(a, id) + RowsWithKey(b, id)
    decreases |a|
  {
    if a == [] {
      assert a + b == b;
    } else {
      assert (a + b)[1..] == a[1..] + b;
      RowsWithKeyAppend(a[1..], b, id);
    }
  }
}
