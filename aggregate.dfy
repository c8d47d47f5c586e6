/** The two aggregations of the job. Stage 1 groups the timed rows by (year, month, branch,
    salary), summing the hours and counting distinct employees; stage 2 groups those buckets by
    (year, month, branch), summing each bucket's salary once, its hours and its employee count. */
module Aggregate {
  import opened Wrappers
  import opened Enrich
  import opened Grouping

  // ----- Stage 1: by year, month, branch and salary -----

  datatype Key4 = Key4(year: int, month: int, branchId: int, salary: int)

  /** The running aggregate of a stage-1 group: its hours and the employee keys seen so far. */
  datatype Tally = Tally(hours: int, employees: set<int>)

  /** A stage-1 output row. */
  datatype Bucket = Bucket(year: int, month: int, branchId: int, salary: int, totalHour: int, totalEmployee: int)

  /** The stage-1 key of a row. A row whose year or month is empty has no key: the grouping leaves
      rows with an empty key out of every group. */
  function BucketKeyOf(r: Row): Option<Key4> {
    if r.year.Some? && r.month.Some? then
      Some(Key4(r.year.value, r.month.value, r.joined.employee.branchId, r.joined.employee.salary))
    else None
  }

  /** The hours a row adds to a sum: an empty `hour_diff` is skipped, that is, adds nothing. */
  function Hours(r: Row): int {
    if r.hourDiff.Some? then r.hourDiff.value else 0
  }

  function EmployeeKey(r: Row): int {
    r.joined.employee.employeeId
  }

  function KeyOf(b: Bucket): Key4 {
    Key4(b.year, b.month, b.branchId, b.salary)
  }

  const NoTally := Tally(0, {})

  function AddTally(a: Tally, b: Tally): Tally {
    Tally(a.hours + b.hours, a.employees + b.employees)
  }

  function TallyHours(t: Tally): int {
    t.hours
  }

  /** What each keyed row contributes to its group: its hours and its employee key. */
  function Tallies(rows: seq<Row>): seq<(Key4, Tally)> {
    if rows == [] then []
    else
      var r := rows[|rows| - 1];
      Tallies(rows[..|rows| - 1]) +
        (match BucketKeyOf(r)
         case None => []
         case Some(k) => [(k, Tally(Hours(r), {EmployeeKey(r)}))])
  }

  function ToBucket(g: (Key4, Tally)): Bucket {
    Bucket(g.0.year, g.0.month, g.0.branchId, g.0.salary, g.1.hours, |g.1.employees|)
  }

  function Buckets(gs: seq<(Key4, Tally)>): (bs: seq<Bucket>)
    ensures |bs| == |gs|
    ensures forall i :: 0 <= i < |gs| ==> bs[i] == ToBucket(gs[i])
  {
    if gs == [] then [] else [ToBucket(gs[0])] + Buckets(gs[1..])
  }

  /** Stage 1: one bucket per (year, month, branch, salary) key, with `total_hour` the sum of the
      hours and `total_employee` the number of distinct employee keys among that key's rows. */
  function Stage1(rows: seq<Row>): seq<Bucket> {
    Buckets(GroupBy(Tallies(rows), NoTally, AddTally))
  }

  /** The stage-1 keys that occur among the rows. */
  ghost function RowKeys(rows: seq<Row>): set<Key4> {
    set i | 0 <= i < |rows| && BucketKeyOf(rows[i]).Some? :: BucketKeyOf(rows[i]).value
  }

  /** The sum of the hours of the rows with key `k`. */
  ghost function HoursIn(rows: seq<Row>, k: Key4): int {
    if rows == [] then 0
    else
      var r := rows[|rows| - 1];
      HoursIn(rows[..|rows| - 1], k) + (if BucketKeyOf(r) == Some(k) then Hours(r) else 0)
  }

  /** The employee keys of the rows with key `k`, each once. */
  ghost function EmployeesIn(rows: seq<Row>, k: Key4): set<int> {
    set i | 0 <= i < |rows| && BucketKeyOf(rows[i]) == Some(k) :: EmployeeKey(rows[i])
  }

  /** The sum of the hours of all rows that have a key. */
  ghost function DatedHours(rows: seq<Row>): int {
    if rows == [] then 0
    else
      var r := rows[|rows| - 1];
      DatedHours(rows[..|rows| - 1]) + (if BucketKeyOf(r).Some? then Hours(r) else 0)
  }

  /** Stage 1 yields exactly one bucket for each key that occurs among the rows, and no other. */
  lemma Stage1Keys(rows: seq<Row>)
    ensures var bs := Stage1(rows);
      && (forall i, j :: 0 <= i < j < |bs| ==> KeyOf(bs[i]) != KeyOf(bs[j]))
      && (forall b :: b in bs ==> KeyOf(b) in RowKeys(rows))
      && (forall k :: k in RowKeys(rows) ==> exists b :: b in bs && KeyOf(b) == k)
  {
    var gs := GroupBy(Tallies(rows), NoTally, AddTally);
    var bs := Stage1(rows);
    TalliesKeys(rows);
    forall i, j | 0 <= i < j < |bs| ensures KeyOf(bs[i]) != KeyOf(bs[j]) {
      assert KeyOf(bs[i]) == gs[i].0 && KeyOf(bs[j]) == gs[j].0;
    }
    forall b | b in bs ensures KeyOf(b) in RowKeys(rows) {
      var i :| 0 <= i < |bs| && bs[i] == b;
      assert KeyOf(b) == gs[i].0;
    }
    forall k | k in RowKeys(rows) ensures exists b :: b in bs && KeyOf(b) == k {
      assert k in KeySet(gs);
      var i :| 0 <= i < |gs| && gs[i].0 == k;
      assert bs[i] in bs && KeyOf(bs[i]) == k;
    }
  }

  /** Each stage-1 bucket holds the sum of the hours of its rows and the number of distinct
      employees among them: an employee with several rows in one bucket is counted once. */
  lemma Stage1Totals(rows: seq<Row>)
    ensures forall b :: b in Stage1(rows) ==>
      b.totalHour == HoursIn(rows, KeyOf(b)) && b.totalEmployee == |EmployeesIn(rows, KeyOf(b))|
  {
    var gs := GroupBy(Tallies(rows), NoTally, AddTally);
    var bs := Stage1(rows);
    forall b | b in bs ensures b.totalHour == HoursIn(rows, KeyOf(b)) && b.totalEmployee == |EmployeesIn(rows, KeyOf(b))| {
      var i :| 0 <= i < |bs| && bs[i] == b;
      LookupAt(gs, i, NoTally);
      TalliesReduce(rows, gs[i].0);
      assert KeyOf(b) == gs[i].0;
    }
  }

  /** Stage 1 keeps the hours: its buckets' `total_hour` add up to the hours of all keyed rows. */
  lemma Stage1KeepsHours(rows: seq<Row>)
    ensures BucketSums(Stage1(rows)).hours == DatedHours(rows)
  {
    var gs := GroupBy(Tallies(rows), NoTally, AddTally);
    GroupByKeepsWeight(Tallies(rows), NoTally, AddTally, TallyHours);
    BucketHoursWeight(gs);
    TalliesWeight(rows);
  }

  lemma {:induction false} TalliesReduce(rows: seq<Row>, k: Key4)
    ensures Reduce(Select(Tallies(rows), k), NoTally, AddTally) == Tally(HoursIn(rows, k), EmployeesIn(rows, k))
    decreases |rows|
  {
    if rows == [] {
      assert EmployeesIn(rows, k) == {};
    } else {
      var init := rows[..|rows| - 1];
      var r := rows[|rows| - 1];
      TalliesReduce(init, k);
      EmployeesInSnoc(rows, k);
      match BucketKeyOf(r)
      case None =>
        assert Tallies(init) + [] == Tallies(init);
        assert Tallies(rows) == Tallies(init);
      case Some(k') =>
        var p := (k', Tally(Hours(r), {EmployeeKey(r)}));
        assert Tallies(rows) == Tallies(init) + [p];
        ReduceSelectSnoc(Tallies(init), p, NoTally, AddTally);
    }
  }

  lemma EmployeesInSnoc(rows: seq<Row>, k: Key4)
    requires rows != []
    ensures var r := rows[|rows| - 1];
      EmployeesIn(rows, k) == EmployeesIn(rows[..|rows| - 1], k) + (if BucketKeyOf(r) == Some(k) then {EmployeeKey(r)} else {})
  {
    var init := rows[..|rows| - 1];
    var r := rows[|rows| - 1];
    forall x | x in EmployeesIn(rows, k)
      ensures x in EmployeesIn(init, k) + (if BucketKeyOf(r) == Some(k) then {EmployeeKey(r)} else {})
    {
      var i :| 0 <= i < |rows| && BucketKeyOf(rows[i]) == Some(k) && EmployeeKey(rows[i]) == x;
      if i < |init| { assert init[i] == rows[i]; }
    }
    forall x | x in EmployeesIn(init, k) ensures x in EmployeesIn(rows, k) {
      var i :| 0 <= i < |init| && BucketKeyOf(init[i]) == Some(k) && EmployeeKey(init[i]) == x;
      assert rows[i] == init[i];
    }
  }

  lemma {:induction false} TalliesKeys(rows: seq<Row>)
    ensures KeySet(Tallies(rows)) == RowKeys(rows)
    decreases |rows|
  {
    if rows == [] {
      assert KeySet(Tallies(rows)) == {};
    } else {
      var init := rows[..|rows| - 1];
      var r := rows[|rows| - 1];
      TalliesKeys(init);
      RowKeysSnoc(rows);
      match BucketKeyOf(r)
      case None =>
        assert Tallies(init) + [] == Tallies(init);
        assert Tallies(rows) == Tallies(init);
      case Some(k') =>
        var p := (k', Tally(Hours(r), {EmployeeKey(r)}));
        assert Tallies(rows) == Tallies(init) + [p];
        KeySetSnoc(Tallies(init), p);
    }
  }

  lemma RowKeysSnoc(rows: seq<Row>)
    requires rows != []
    ensures var r := rows[|rows| - 1];
      RowKeys(rows) == RowKeys(rows[..|rows| - 1]) + (if BucketKeyOf(r).Some? then {BucketKeyOf(r).value} else {})
  {
    var init := rows[..|rows| - 1];
    var r := rows[|rows| - 1];
    forall k | k in RowKeys(rows)
      ensures k in RowKeys(init) + (if BucketKeyOf(r).Some? then {BucketKeyOf(r).value} else {})
    {
      var i :| 0 <= i < |rows| && BucketKeyOf(rows[i]).Some? && BucketKeyOf(rows[i]).value == k;
      if i < |init| { assert init[i] == rows[i]; }
    }
    forall k | k in RowKeys(init) ensures k in RowKeys(rows) {
      var i :| 0 <= i < |init| && BucketKeyOf(init[i]).Some? && BucketKeyOf(init[i]).value == k;
      assert rows[i] == init[i];
    }
    if BucketKeyOf(r).Some? {
      assert rows[|rows| - 1] == r;
    }
  }

  lemma {:induction false} BucketHoursWeight(gs: seq<(Key4, Tally)>)
    ensures BucketSums(Buckets(gs)).hours == Weight(gs, TallyHours)
    decreases |gs|
  {
    if gs != [] {
      BucketHoursWeight(gs[1..]);
      assert Buckets(gs)[1..] == Buckets(gs[1..]);
    }
  }

  lemma {:induction false} TalliesWeight(rows: seq<Row>)
    ensures Weight(Tallies(rows), TallyHours) == DatedHours(rows)
    decreases |rows|
  {
    if rows != [] {
      var init := rows[..|rows| - 1];
      var r := rows[|rows| - 1];
      TalliesWeight(init);
      match BucketKeyOf(r)
      case None =>
        assert Tallies(init) + [] == Tallies(init);
        assert Tallies(rows) == Tallies(init);
      case Some(k') =>
        var p := (k', Tally(Hours(r), {EmployeeKey(r)}));
        assert Tallies(rows) == Tallies(init) + [p];
        WeightAppend(Tallies(init), [p], TallyHours);
    }
  }

  // ----- Stage 2: by year, month and branch -----

  datatype Key3 = Key3(year: int, month: int, branchId: int)

  /** Three sums side by side: salary, hours and employees. */
  datatype Totals = Totals(salary: int, hours: int, employees: int)

  /** A stage-2 output row. */
  datatype Summary = Summary(year: int, month: int, branchId: int, totalSalary: int, totalHour: int, totalEmployee: int)

  function Coarsen(k: Key4): Key3 {
    Key3(k.year, k.month, k.branchId)
  }

  function GroupKeyOf(b: Bucket): Key3 {
    Key3(b.year, b.month, b.branchId)
  }

  function SummaryKey(s: Summary): Key3 {
    Key3(s.year, s.month, s.branchId)
  }

  const NoTotals := Totals(0, 0, 0)

  function AddTotals(a: Totals, b: Totals): Totals {
    Totals(a.salary + b.salary, a.hours + b.hours, a.employees + b.employees)
  }

  function SalaryPart(t: Totals): int { t.salary }
  function HoursPart(t: Totals): int { t.hours }
  function EmployeesPart(t: Totals): int { t.employees }

  /** What each bucket contributes to its stage-2 group: its salary once, its hours and its
      employee count. */
  function Contributions(bs: seq<Bucket>): seq<(Key3, Totals)> {
    if bs == [] then []
    else
      var b := bs[|bs| - 1];
      Contributions(bs[..|bs| - 1]) + [(GroupKeyOf(b), Totals(b.salary, b.totalHour, b.totalEmployee))]
  }

  function ToSummary(g: (Key3, Totals)): Summary {
    Summary(g.0.year, g.0.month, g.0.branchId, g.1.salary, g.1.hours, g.1.employees)
  }

  function Summaries(gs: seq<(Key3, Totals)>): (ss: seq<Summary>)
    ensures |ss| == |gs|
    ensures forall i :: 0 <= i < |gs| ==> ss[i] == ToSummary(gs[i])
  {
    if gs == [] then [] else [ToSummary(gs[0])] + Summaries(gs[1..])
  }

  /** Stage 2: one summary per (year, month, branch) key of the buckets. */
  function Stage2(bs: seq<Bucket>): seq<Summary> {
    Summaries(GroupBy(Contributions(bs), NoTotals, AddTotals))
  }

  /** The stage-2 keys that occur among the buckets. */
  ghost function BucketKeys(bs: seq<Bucket>): set<Key3> {
    set b | b in bs :: GroupKeyOf(b)
  }

  /** The sums of salary, hours and employee count over the buckets with key `k`. */
  ghost function TotalsIn(bs: seq<Bucket>, k: Key3): Totals {
    if bs == [] then NoTotals
    else
      var b := bs[|bs| - 1];
      var t := TotalsIn(bs[..|bs| - 1], k);
      if GroupKeyOf(b) == k then Totals(t.salary + b.salary, t.hours + b.totalHour, t.employees + b.totalEmployee)
      else t
  }

  /** The sums of salary, hours and employee count over all buckets. */
  function BucketSums(bs: seq<Bucket>): Totals {
    if bs == [] then NoTotals
    else
      var t := BucketSums(bs[1..]);
      Totals(bs[0].salary + t.salary, bs[0].totalHour + t.hours, bs[0].totalEmployee + t.employees)
  }

  /** The sums of `total_salary`, `total_hour` and `total_employee` over all summaries. */
  function SummarySums(ss: seq<Summary>): Totals {
    if ss == [] then NoTotals
    else
      var t := SummarySums(ss[1..]);
      Totals(ss[0].totalSalary + t.salary, ss[0].totalHour + t.hours, ss[0].totalEmployee + t.employees)
  }

  /** Stage 2 yields exactly one summary for each (year, month, branch) key of the buckets. */
  lemma Stage2Keys(bs: seq<Bucket>)
    ensures var ss := Stage2(bs);
      && (forall i, j :: 0 <= i < j < |ss| ==> SummaryKey(ss[i]) != SummaryKey(ss[j]))
      && (forall s :: s in ss ==> SummaryKey(s) in BucketKeys(bs))
      && (forall k :: k in BucketKeys(bs) ==> exists s :: s in ss && SummaryKey(s) == k)
  {
    var gs := GroupBy(Contributions(bs), NoTotals, AddTotals);
    var ss := Stage2(bs);
    ContributionsKeys(bs);
    forall i, j | 0 <= i < j < |ss| ensures SummaryKey(ss[i]) != SummaryKey(ss[j]) {
      assert SummaryKey(ss[i]) == gs[i].0 && SummaryKey(ss[j]) == gs[j].0;
    }
    forall s | s in ss ensures SummaryKey(s) in BucketKeys(bs) {
      var i :| 0 <= i < |ss| && ss[i] == s;
      assert SummaryKey(s) == gs[i].0;
    }
    forall k | k in BucketKeys(bs) ensures exists s :: s in ss && SummaryKey(s) == k {
      assert k in KeySet(gs);
      var i :| 0 <= i < |gs| && gs[i].0 == k;
      assert ss[i] in ss && SummaryKey(ss[i]) == k;
    }
  }

  /** Each summary holds, over the buckets of its key, the sum of their salaries (each bucket's
      salary once, not weighted by employees or hours), of their hours and of their employee
      counts. */
  lemma Stage2Totals(bs: seq<Bucket>)
    ensures forall s :: s in Stage2(bs) ==>
      var t := TotalsIn(bs, SummaryKey(s));
      s.totalSalary == t.salary && s.totalHour == t.hours && s.totalEmployee == t.employees
  {
    var gs := GroupBy(Contributions(bs), NoTotals, AddTotals);
    var ss := Stage2(bs);
    forall s | s in ss
      ensures var t := TotalsIn(bs, SummaryKey(s));
        s.totalSalary == t.salary && s.totalHour == t.hours && s.totalEmployee == t.employees
    {
      var i :| 0 <= i < |ss| && ss[i] == s;
      LookupAt(gs, i, NoTotals);
      ContributionsReduce(bs, gs[i].0);
      assert SummaryKey(s) == gs[i].0;
    }
  }

  /** Stage 2 keeps all three sums: over the summaries they equal those over the buckets. */
  lemma Stage2KeepsSums(bs: seq<Bucket>)
    ensures SummarySums(Stage2(bs)) == BucketSums(bs)
  {
    var cs := Contributions(bs);
    var gs := GroupBy(cs, NoTotals, AddTotals);
    GroupByKeepsWeight(cs, NoTotals, AddTotals, SalaryPart);
    GroupByKeepsWeight(cs, NoTotals, AddTotals, HoursPart);
    GroupByKeepsWeight(cs, NoTotals, AddTotals, EmployeesPart);
    SummariesWeight(gs);
    ContributionsWeight(bs);
  }

  /** Both stages together keep the hours: the summaries' `total_hour` add up to the hours of all
      keyed rows, and their `total_employee` to the stage-1 employee counts. */
  lemma HoursConserved(rows: seq<Row>)
    ensures SummarySums(Stage2(Stage1(rows))).hours == DatedHours(rows)
    ensures SummarySums(Stage2(Stage1(rows))).employees == BucketSums(Stage1(rows)).employees
  {
    Stage1KeepsHours(rows);
    Stage2KeepsSums(Stage1(rows));
  }

  lemma {:induction false} ContributionsReduce(bs: seq<Bucket>, k: Key3)
    ensures Reduce(Select(Contributions(bs), k), NoTotals, AddTotals) == TotalsIn(bs, k)
    decreases |bs|
  {
    if bs != [] {
      var init := bs[..|bs| - 1];
      var b := bs[|bs| - 1];
      var p := (GroupKeyOf(b), Totals(b.salary, b.totalHour, b.totalEmployee));
      ContributionsReduce(init, k);
      assert Contributions(bs) == Contributions(init) + [p];
      ReduceSelectSnoc(Contributions(init), p, NoTotals, AddTotals);
    }
  }

  lemma {:induction false} ContributionsKeys(bs: seq<Bucket>)
    ensures KeySet(Contributions(bs)) == BucketKeys(bs)
    decreases |bs|
  {
    if bs == [] {
      assert KeySet(Contributions(bs)) == {};
    } else {
      var init := bs[..|bs| - 1];
      var b := bs[|bs| - 1];
      var p := (GroupKeyOf(b), Totals(b.salary, b.totalHour, b.totalEmployee));
      ContributionsKeys(init);
      assert Contributions(bs) == Contributions(init) + [p];
      KeySetSnoc(Contributions(init), p);
      assert bs == init + [b];
      assert BucketKeys(bs) == BucketKeys(init) + {GroupKeyOf(b)};
    }
  }

  lemma {:induction false} SummariesWeight(gs: seq<(Key3, Totals)>)
    ensures SummarySums(Summaries(gs)) == Totals(Weight(gs, SalaryPart), Weight(gs, HoursPart), Weight(gs, EmployeesPart))
    decreases |gs|
  {
    if gs != [] {
      SummariesWeight(gs[1..]);
      assert Summaries(gs)[1..] == Summaries(gs[1..]);
    }
  }

  lemma {:induction false} ContributionsWeight(bs: seq<Bucket>)
    ensures BucketSums(bs) == Totals(Weight(Contributions(bs), SalaryPart), Weight(Contributions(bs), HoursPart), Weight(Contributions(bs), EmployeesPart))
    decreases |bs|
  {
    if bs != [] {
      var init := bs[..|bs| - 1];
      var b := bs[|bs| - 1];
      var p := (GroupKeyOf(b), Totals(b.salary, b.totalHour, b.totalEmployee));
      ContributionsWeight(init);
      assert Contributions(bs) == Contributions(init) + [p];
      WeightAppend(Contributions(init), [p], SalaryPart);
      WeightAppend(Contributions(init), [p], HoursPart);
      WeightAppend(Contributions(init), [p], EmployeesPart);
      BucketSumsSnoc(init, b);
      assert bs == init + [b];
    }
  }

  lemma {:induction false} BucketSumsSnoc(bs: seq<Bucket>, b: Bucket)
    ensures var t := BucketSums(bs);
      BucketSums(bs + [b]) == Totals(t.salary + b.salary, t.hours + b.totalHour, t.employees + b.totalEmployee)
    decreases |bs|
  {
    if bs == [] {
      assert (bs + [b])[1..] == [];
    } else {
      assert (bs + [b])[1..] == bs[1..] + [b];
      BucketSumsSnoc(bs[1..], b);
    }
  }

  // ----- When each employee is counted once per (year, month, branch) -----

  /** Rows that share an employee key share a salary, as they do when employee keys are unique. */
  ghost predicate OneSalaryPerEmployee(rows: seq<Row>) {
    forall i, j :: 0 <= i < |rows| && 0 <= j < |rows| && EmployeeKey(rows[i]) == EmployeeKey(rows[j]) ==>
      rows[i].joined.employee.salary == rows[j].joined.employee.salary
  }

  /** The distinct employee keys among the keyed rows whose (year, month, branch) is `k`. */
  ghost function EmployeesOfGroup(rows: seq<Row>, k: Key3): set<int> {
    set i | 0 <= i < |rows| && BucketKeyOf(rows[i]).Some? && Coarsen(BucketKeyOf(rows[i]).value) == k :: EmployeeKey(rows[i])
  }

  /** When each employee has one salary, summing the per-salary distinct counts of stage 1 gives,
      for each (year, month, branch), the number of distinct employees: nobody is counted twice. */
  lemma EmployeesCountedOnce(rows: seq<Row>)
    requires OneSalaryPerEmployee(rows)
    ensures forall s :: s in Stage2(Stage1(rows)) ==> s.totalEmployee == |EmployeesOfGroup(rows, SummaryKey(s))|
  {
    var bs := Stage1(rows);
    Stage1Keys(rows);
    Stage1Totals(rows);
    Stage2Totals(bs);
    forall s | s in Stage2(bs) ensures s.totalEmployee == |EmployeesOfGroup(rows, SummaryKey(s))| {
      var k := SummaryKey(s);
      UnionCount(rows, bs, k);
      UnionCovers(rows, k);
    }
  }

  /** The employee keys of the stage-1 buckets of `cs` whose (year, month, branch) is `k`. */
  ghost function Union(rows: seq<Row>, cs: seq<Bucket>, k: Key3): set<int> {
    if cs == [] then {}
    else
      var c := cs[|cs| - 1];
      Union(rows, cs[..|cs| - 1], k) + (if GroupKeyOf(c) == k then EmployeesIn(rows, KeyOf(c)) else {})
  }

  lemma {:induction false} UnionMembership(rows: seq<Row>, cs: seq<Bucket>, k: Key3, x: int)
    ensures x in Union(rows, cs, k) <==> exists c :: c in cs && GroupKeyOf(c) == k && x in EmployeesIn(rows, KeyOf(c))
    decreases |cs|
  {
    if cs != [] {
      var init := cs[..|cs| - 1];
      UnionMembership(rows, init, k, x);
      assert cs == init + [cs[|cs| - 1]];
    }
  }

  /** Buckets with distinct keys and one salary per employee have disjoint employee sets within a
      (year, month, branch), so their counts add up to the size of their union. */
  lemma {:induction false} UnionCount(rows: seq<Row>, cs: seq<Bucket>, k: Key3)
    requires OneSalaryPerEmployee(rows)
    requires forall i, j :: 0 <= i < j < |cs| ==> KeyOf(cs[i]) != KeyOf(cs[j])
    requires forall c :: c in cs ==> c.totalEmployee == |EmployeesIn(rows, KeyOf(c))|
    ensures TotalsIn(cs, k).employees == |Union(rows, cs, k)|
    decreases |cs|
  {
    if cs != [] {
      var init := cs[..|cs| - 1];
      var c := cs[|cs| - 1];
      assert forall d :: d in init ==> d in cs;
      UnionCount(rows, init, k);
      if GroupKeyOf(c) == k {
        var a := Union(rows, init, k);
        var e := EmployeesIn(rows, KeyOf(c));
        forall x | x in a ensures x !in e {
          UnionMembership(rows, init, k, x);
          var d :| d in init && GroupKeyOf(d) == k && x in EmployeesIn(rows, KeyOf(d));
          var m :| 0 <= m < |init| && init[m] == d;
          assert cs[m] == d;
          SalaryFixesBucket(rows, KeyOf(d), KeyOf(c), x);
        }
        assert a * e == {};
      }
    }
  }

  /** Within one (year, month, branch), an employee with one salary belongs to one bucket only. */
  lemma SalaryFixesBucket(rows: seq<Row>, k1: Key4, k2: Key4, x: int)
    requires OneSalaryPerEmployee(rows)
    requires Coarsen(k1) == Coarsen(k2)
    requires x in EmployeesIn(rows, k1)
    ensures x in EmployeesIn(rows, k2) ==> k1 == k2
  {
    if x in EmployeesIn(rows, k2) {
      var i :| 0 <= i < |rows| && BucketKeyOf(rows[i]) == Some(k1) && EmployeeKey(rows[i]) == x;
      var j :| 0 <= j < |rows| && BucketKeyOf(rows[j]) == Some(k2) && EmployeeKey(rows[j]) == x;
    }
  }

  /** Over all stage-1 buckets, the employee keys of a (year, month, branch) are exactly those of
      its rows. */
  lemma UnionCovers(rows: seq<Row>, k: Key3)
    ensures Union(rows, Stage1(rows), k) == EmployeesOfGroup(rows, k)
  {
    var bs := Stage1(rows);
    Stage1Keys(rows);
    forall x | x in Union(rows, bs, k) ensures x in EmployeesOfGroup(rows, k) {
      UnionMembership(rows, bs, k, x);
      var c :| c in bs && GroupKeyOf(c) == k && x in EmployeesIn(rows, KeyOf(c));
      var i :| 0 <= i < |rows| && BucketKeyOf(rows[i]) == Some(KeyOf(c)) && EmployeeKey(rows[i]) == x;
      assert Coarsen(KeyOf(c)) == k;
    }
    forall x | x in EmployeesOfGroup(rows, k) ensures x in Union(rows, bs, k) {
      var i :| 0 <= i < |rows| && BucketKeyOf(rows[i]).Some? && Coarsen(BucketKeyOf(rows[i]).value) == k && EmployeeKey(rows[i]) == x;
      var k4 := BucketKeyOf(rows[i]).value;
      assert k4 in RowKeys(rows);
      var c :| c in bs && KeyOf(c) == k4;
      assert x in EmployeesIn(rows, KeyOf(c));
      UnionMembership(rows, bs, k, x);
    }
  }
}
