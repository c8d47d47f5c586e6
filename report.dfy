/** The end of the job: the salary-per-hour ratio, the selection of the output columns, and the
    whole transform as the sequence of steps it runs on its working table. */
module Report {
  import opened Wrappers
  import opened Schema
  import opened Join
  import opened Enrich
  import opened Grouping
  import opened Aggregate

  /** The result of dividing by `total_hour` with no guard: a finite quotient, or what a
      floating-point division gives when the divisor is zero. */
  datatype Ratio = Finite(value: real) | PositiveInfinity | NegativeInfinity | NotANumber

  /** `total_salary / total_hour`. Nothing guards a zero `total_hour`, which happens when the hours
      of a group cancel out or are all zero: the quotient is then infinite, or not a number for
      zero over zero. */
  function SalaryPerHour(totalSalary: int, totalHour: int): (r: Ratio)
    ensures r.Finite? <==> totalHour != 0
    ensures r.Finite? ==> r.value * totalHour as real == totalSalary as real
    ensures r == PositiveInfinity <==> totalHour == 0 && totalSalary > 0
    ensures r == NegativeInfinity <==> totalHour == 0 && totalSalary < 0
    ensures r == NotANumber <==> totalHour == 0 && totalSalary == 0
  {
    if totalHour != 0 then Finite(totalSalary as real / totalHour as real)
    else if totalSalary > 0 then PositiveInfinity
    else if totalSalary < 0 then NegativeInfinity
    else NotANumber
  }

  /** An output row: exactly the columns year, month, branch_id, total_employee, total_salary and
      salary_per_hour, in that order. */
  datatype OutputRow = OutputRow(year: int, month: int, branchId: int, totalEmployee: int, totalSalary: int, salaryPerHour: Ratio)

  function OutputKey(o: OutputRow): Key3 {
    Key3(o.year, o.month, o.branchId)
  }

  /** Adds `salary_per_hour` to each summary and keeps only the output columns: `total_hour` is
      used for the ratio and then dropped; every kept column keeps its value. */
  function Finalize(ss: seq<Summary>): (os: seq<OutputRow>)
    ensures |os| == |ss|
    ensures forall i :: 0 <= i < |ss| ==>
      && OutputKey(os[i]) == SummaryKey(ss[i])
      && os[i].totalEmployee == ss[i].totalEmployee
      && os[i].totalSalary == ss[i].totalSalary
      && os[i].salaryPerHour == SalaryPerHour(ss[i].totalSalary, ss[i].totalHour)
  {
    if ss == [] then []
    else
      var s := ss[0];
      [OutputRow(s.year, s.month, s.branchId, s.totalEmployee, s.totalSalary, SalaryPerHour(s.totalSalary, s.totalHour))]
        + Finalize(ss[1..])
  }

  /** The working table after the null filter: renamed, joined, with its derived columns, and
      only the rows with hours. */
  function TimedRows(employees: seq<RawEmployee>, timesheets: seq<Timesheet>): seq<Row> {
    KeepTimed(DeriveAll(LeftJoin(RenameKeys(employees), timesheets)))
  }

  /** The transform, step by step: rename the key column, merge, assign `year`, `month` and
      `hour_diff` in place, drop the rows without hours, aggregate twice and select the output
      columns. The output has one row per (year, month, branch). */
  method ProcessData(employees: seq<RawEmployee>, timesheets: seq<Timesheet>) returns (result: seq<OutputRow>)
    ensures result == Finalize(Stage2(Stage1(TimedRows(employees, timesheets))))
    ensures forall i, j :: 0 <= i < j < |result| ==> OutputKey(result[i]) != OutputKey(result[j])
  {
    var staff := RenameKeys(employees);
    var merged := LeftJoin(staff, timesheets);
    var df := new Frame(merged);
    df.AssignYear();
    df.AssignMonth();
    df.AssignHourDiff();
    assert df.rows == DeriveAll(merged);
    df.DropNullHours();
    var buckets := Stage1(df.rows);
    var summaries := Stage2(buckets);
    Stage2Keys(buckets);
    result := Finalize(summaries);
  }

  /** The output has one row for each (year, month, branch) of a dated row, and no other. */
  lemma OutputGroups(rows: seq<Row>, k: Key3)
    ensures (exists o :: o in Finalize(Stage2(Stage1(rows))) && OutputKey(o) == k) <==>
      (exists r :: r in rows && BucketKeyOf(r).Some? && Coarsen(BucketKeyOf(r).value) == k)
  {
    if o :| o in Finalize(Stage2(Stage1(rows))) && OutputKey(o) == k {
      OutputGroupHasRow(rows, o);
    }
    if r :| r in rows && BucketKeyOf(r).Some? && Coarsen(BucketKeyOf(r).value) == k {
      RowHasOutputGroup(rows, r);
    }
  }

  lemma OutputGroupHasRow(rows: seq<Row>, o: OutputRow)
    requires o in Finalize(Stage2(Stage1(rows)))
    ensures exists r :: r in rows && BucketKeyOf(r).Some? && Coarsen(BucketKeyOf(r).value) == OutputKey(o)
  {
    var bs := Stage1(rows);
    var ss := Stage2(bs);
    var os := Finalize(ss);
    var k := OutputKey(o);
    Stage1Keys(rows);
    Stage2Keys(bs);
    var i :| 0 <= i < |os| && os[i] == o;
    assert SummaryKey(ss[i]) == k && ss[i] in ss;
    var b :| b in bs && GroupKeyOf(b) == k;
    assert KeyOf(b) in RowKeys(rows);
    var n :| 0 <= n < |rows| && BucketKeyOf(rows[n]).Some? && BucketKeyOf(rows[n]).value == KeyOf(b);
    assert rows[n] in rows && Coarsen(BucketKeyOf(rows[n]).value) == k;
  }

  lemma RowHasOutputGroup(rows: seq<Row>, r: Row)
    requires r in rows && BucketKeyOf(r).Some?
    ensures exists o :: o in Finalize(Stage2(Stage1(rows))) && OutputKey(o) == Coarsen(BucketKeyOf(r).value)
  {
    var bs := Stage1(rows);
    var ss := Stage2(bs);
    var os := Finalize(ss);
    var k := Coarsen(BucketKeyOf(r).value);
    Stage1Keys(rows);
    Stage2Keys(bs);
    var n :| 0 <= n < |rows| && rows[n] == r;
    assert BucketKeyOf(r).value in RowKeys(rows);
    var b :| b in bs && KeyOf(b) == BucketKeyOf(r).value;
    assert GroupKeyOf(b) == k && k in BucketKeys(bs);
    var s :| s in ss && SummaryKey(s) == k;
    var i :| 0 <= i < |ss| && ss[i] == s;
    assert os[i] in os && OutputKey(os[i]) == k;
  }

  /** When employee rows that share a key share a salary (as they do when keys are unique), the
      output's `total_employee` is the number of distinct employees with hours in that year, month
      and branch. */
  lemma EachEmployeeCountedOnce(employees: seq<RawEmployee>, timesheets: seq<Timesheet>)
    requires forall i, j :: 0 <= i < |employees| && 0 <= j < |employees| && employees[i].employeId == employees[j].employeId ==>
      employees[i].salary == employees[j].salary
    ensures var rows := TimedRows(employees, timesheets);
      forall o :: o in Finalize(Stage2(Stage1(rows))) ==> o.totalEmployee == |EmployeesOfGroup(rows, OutputKey(o))|
  {
    var staff := RenameKeys(employees);
    var merged := LeftJoin(staff, timesheets);
    var rows := TimedRows(employees, timesheets);
    forall n | 0 <= n < |rows| ensures rows[n].joined.employee in staff {
      var r := rows[n];
      assert multiset(rows)[r] > 0;
      var m :| 0 <= m < |DeriveAll(merged)| && DeriveAll(merged)[m] == r;
      assert merged[m] in merged;
      LeftJoinMembership(staff, timesheets, merged[m]);
    }
    forall i, j | 0 <= i < |rows| && 0 <= j < |rows| && EmployeeKey(rows[i]) == EmployeeKey(rows[j])
      ensures rows[i].joined.employee.salary == rows[j].joined.employee.salary
    {
      var a :| 0 <= a < |staff| && staff[a] == rows[i].joined.employee;
      var b :| 0 <= b < |staff| && staff[b] == rows[j].joined.employee;
    }
    EmployeesCountedOnce(rows);
    var ss := Stage2(Stage1(rows));
    forall o | o in Finalize(ss) ensures o.totalEmployee == |EmployeesOfGroup(rows, OutputKey(o))| {
      var i :| 0 <= i < |ss| && Finalize(ss)[i] == o;
      assert ss[i] in ss;
    }
  }

  /** A timed row of branch 10 in January 2024 for the example below. */
  function ExampleRow(id: int, salary: int, hours: int): Row {
    var e := Employee(id, 10, salary, Date(2023, 1, 1), None);
    Row(Joined(e, Some("ts"), Some(Date(2024, 1, 15)), Some(8 * 3600), Some((8 + hours) * 3600)), Some(2024), Some(1), Some(hours))
  }

  /** The documented example: E1 (salary 5000, 8 h), E2 (5000, 6 h) and E3 (7000, 4 h) give the
      buckets 5000 -> 14 h, 2 employees and 7000 -> 4 h, 1 employee, then one summary with
      3 employees, salary 12000 and 18 h, so 12000 / 18 per hour. */
  lemma TwoStageExample()
    ensures var rows := [ExampleRow(1, 5000, 8), ExampleRow(2, 5000, 6), ExampleRow(3, 7000, 4)];
      && Stage1(rows) == [Bucket(2024, 1, 10, 5000, 14, 2), Bucket(2024, 1, 10, 7000, 4, 1)]
      && Finalize(Stage2(Stage1(rows))) == [OutputRow(2024, 1, 10, 3, 12000, Finite(12000.0 / 18.0))]
  {
    ExampleStage1();
    ExampleStage2();
  }

  lemma ExampleStage1()
    ensures Stage1([ExampleRow(1, 5000, 8), ExampleRow(2, 5000, 6), ExampleRow(3, 7000, 4)])
      == [Bucket(2024, 1, 10, 5000, 14, 2), Bucket(2024, 1, 10, 7000, 4, 1)]
  {
    ExampleTallies();
    ExampleGroups();
    assert |{1, 2}| == 2;
  }

  lemma ExampleTallies()
    ensures Tallies([ExampleRow(1, 5000, 8), ExampleRow(2, 5000, 6), ExampleRow(3, 7000, 4)])
      == [(Key4(2024, 1, 10, 5000), Tally(8, {1})), (Key4(2024, 1, 10, 5000), Tally(6, {2})), (Key4(2024, 1, 10, 7000), Tally(4, {3}))]
  {
    var r1, r2, r3 := ExampleRow(1, 5000, 8), ExampleRow(2, 5000, 6), ExampleRow(3, 7000, 4);
    var rows := [r1, r2, r3];
    assert rows[..2] == [r1, r2] && [r1, r2][..1] == [r1] && [r1][..0] == [];
    assert Tallies([r1]) == [(Key4(2024, 1, 10, 5000), Tally(8, {1}))];
    assert Tallies([r1, r2]) == [(Key4(2024, 1, 10, 5000), Tally(8, {1})), (Key4(2024, 1, 10, 5000), Tally(6, {2}))];
  }

  lemma ExampleGroups()
    ensures GroupBy([(Key4(2024, 1, 10, 5000), Tally(8, {1})), (Key4(2024, 1, 10, 5000), Tally(6, {2})), (Key4(2024, 1, 10, 7000), Tally(4, {3}))], NoTally, AddTally)
      == [(Key4(2024, 1, 10, 5000), Tally(14, {1, 2})), (Key4(2024, 1, 10, 7000), Tally(4, {3}))]
  {
    var low, high := Key4(2024, 1, 10, 5000), Key4(2024, 1, 10, 7000);
    var p1: (Key4, Tally), p2: (Key4, Tally), p3: (Key4, Tally) := (low, Tally(8, {1})), (low, Tally(6, {2})), (high, Tally(4, {3}));
    var ps := [p1, p2, p3];
    assert ps[..2] == [p1, p2] && [p1, p2][..1] == [p1] && [p1][..0] == [];
    assert {} + {1} == {1};
    assert GroupBy([p1], NoTally, AddTally) == [(low, Tally(8, {1}))];
    assert {1} + {2} == {1, 2};
    assert GroupBy([p1, p2], NoTally, AddTally) == [(low, Tally(14, {1, 2}))];
    assert {} + {3} == {3};
    assert Insert([(low, Tally(14, {1, 2}))], high, Tally(4, {3}), NoTally, AddTally) == [(low, Tally(14, {1, 2})), (high, Tally(4, {3}))];
  }

  lemma ExampleStage2()
    ensures Finalize(Stage2([Bucket(2024, 1, 10, 5000, 14, 2), Bucket(2024, 1, 10, 7000, 4, 1)]))
      == [OutputRow(2024, 1, 10, 3, 12000, Finite(12000.0 / 18.0))]
  {
    var bs := [Bucket(2024, 1, 10, 5000, 14, 2), Bucket(2024, 1, 10, 7000, 4, 1)];
    var k := Key3(2024, 1, 10);
    var c1: (Key3, Totals), c2: (Key3, Totals) := (k, Totals(5000, 14, 2)), (k, Totals(7000, 4, 1));
    assert bs[..1] == [bs[0]] && [bs[0]][..0] == [];
    assert Contributions(bs) == [c1, c2];
    assert [c1, c2][..1] == [c1] && [c1][..0] == [];
    assert GroupBy([c1], NoTotals, AddTotals) == [(k, Totals(5000, 14, 2))];
    assert Insert([(k, Totals(5000, 14, 2))], k, Totals(7000, 4, 1), NoTotals, AddTotals) == [(k, Totals(12000, 18, 3))];
    assert GroupBy([c1, c2], NoTotals, AddTotals) == [(k, Totals(12000, 18, 3))];
  }

  /** An employee with three rows in one bucket is counted once. */
  lemma DistinctCountExample()
    ensures Stage1([ExampleRow(1, 5000, 8), ExampleRow(1, 5000, 6), ExampleRow(1, 5000, 4)]) == [Bucket(2024, 1, 10, 5000, 18, 1)]
  {
    RepeatTallies();
    RepeatGroups();
  }

  lemma RepeatTallies()
    ensures Tallies([ExampleRow(1, 5000, 8), ExampleRow(1, 5000, 6), ExampleRow(1, 5000, 4)])
      == [(Key4(2024, 1, 10, 5000), Tally(8, {1})), (Key4(2024, 1, 10, 5000), Tally(6, {1})), (Key4(2024, 1, 10, 5000), Tally(4, {1}))]
  {
    var r1, r2, r3 := ExampleRow(1, 5000, 8), ExampleRow(1, 5000, 6), ExampleRow(1, 5000, 4);
    var rows := [r1, r2, r3];
    assert rows[..2] == [r1, r2] && [r1, r2][..1] == [r1] && [r1][..0] == [];
    assert Tallies([r1]) == [(Key4(2024, 1, 10, 5000), Tally(8, {1}))];
    assert Tallies([r1, r2]) == [(Key4(2024, 1, 10, 5000), Tally(8, {1})), (Key4(2024, 1, 10, 5000), Tally(6, {1}))];
  }

  lemma RepeatGroups()
    ensures GroupBy([(Key4(2024, 1, 10, 5000), Tally(8, {1})), (Key4(2024, 1, 10, 5000), Tally(6, {1})), (Key4(2024, 1, 10, 5000), Tally(4, {1}))], NoTally, AddTally)
      == [(Key4(2024, 1, 10, 5000), Tally(18, {1}))]
  {
    var key := Key4(2024, 1, 10, 5000);
    var p1: (Key4, Tally), p2: (Key4, Tally), p3: (Key4, Tally) := (key, Tally(8, {1})), (key, Tally(6, {1})), (key, Tally(4, {1}));
    var ps := [p1, p2, p3];
    assert ps[..2] == [p1, p2] && [p1, p2][..1] == [p1] && [p1][..0] == [];
    assert {} + {1} == {1};
    assert {1} + {1} == {1};
    assert GroupBy([p1], NoTally, AddTally) == [(key, Tally(8, {1}))];
    assert GroupBy([p1, p2], NoTally, AddTally) == [(key, Tally(14, {1}))];
  }

  /** An employee id listed with two salaries is counted once per salary: two rows of employee 1,
      at 5000 and at 7000, fall into two stage-1 buckets of one employee each, and stage 2 adds
      them up to a `total_employee` of 2 although the group has one distinct employee. */
  lemma TwoSalaryExample()
    ensures var rows := [ExampleRow(1, 5000, 8), ExampleRow(1, 7000, 8)];
      && Finalize(Stage2(Stage1(rows))) == [OutputRow(2024, 1, 10, 2, 12000, Finite(12000.0 / 16.0))]
      && EmployeesOfGroup(rows, Key3(2024, 1, 10)) == {1}
  {
    TwoSalaryStage1();
    TwoSalaryStage2();
    TwoSalaryGroup();
  }

  lemma TwoSalaryStage1()
    ensures Stage1([ExampleRow(1, 5000, 8), ExampleRow(1, 7000, 8)])
      == [Bucket(2024, 1, 10, 5000, 8, 1), Bucket(2024, 1, 10, 7000, 8, 1)]
  {
    var r1, r2 := ExampleRow(1, 5000, 8), ExampleRow(1, 7000, 8);
    var low, high := Key4(2024, 1, 10, 5000), Key4(2024, 1, 10, 7000);
    var p1: (Key4, Tally), p2: (Key4, Tally) := (low, Tally(8, {1})), (high, Tally(8, {1}));
    assert [r1, r2][..1] == [r1] && [r1][..0] == [];
    assert Tallies([r1]) == [p1];
    assert Tallies([r1, r2]) == [p1, p2];
    assert [p1, p2][..1] == [p1] && [p1][..0] == [];
    assert {} + {1} == {1};
    assert GroupBy([p1], NoTally, AddTally) == [p1];
    assert Insert([p1], high, Tally(8, {1}), NoTally, AddTally) == [p1, p2];
    assert GroupBy([p1, p2], NoTally, AddTally) == [p1, p2];
  }

  lemma TwoSalaryStage2()
    ensures Finalize(Stage2([Bucket(2024, 1, 10, 5000, 8, 1), Bucket(2024, 1, 10, 7000, 8, 1)]))
      == [OutputRow(2024, 1, 10, 2, 12000, Finite(12000.0 / 16.0))]
  {
    var bs := [Bucket(2024, 1, 10, 5000, 8, 1), Bucket(2024, 1, 10, 7000, 8, 1)];
    var k := Key3(2024, 1, 10);
    var c1: (Key3, Totals), c2: (Key3, Totals) := (k, Totals(5000, 8, 1)), (k, Totals(7000, 8, 1));
    assert bs[..1] == [bs[0]] && [bs[0]][..0] == [];
    assert Contributions(bs) == [c1, c2];
    assert [c1, c2][..1] == [c1] && [c1][..0] == [];
    assert GroupBy([c1], NoTotals, AddTotals) == [c1];
    assert Insert([c1], k, Totals(7000, 8, 1), NoTotals, AddTotals) == [(k, Totals(12000, 16, 2))];
    assert GroupBy([c1, c2], NoTotals, AddTotals) == [(k, Totals(12000, 16, 2))];
  }

  lemma TwoSalaryGroup()
    ensures EmployeesOfGroup([ExampleRow(1, 5000, 8), ExampleRow(1, 7000, 8)], Key3(2024, 1, 10)) == {1}
  {
    var rows := [ExampleRow(1, 5000, 8), ExampleRow(1, 7000, 8)];
    assert EmployeeKey(rows[0]) == 1 && BucketKeyOf(rows[0]).Some? && Coarsen(BucketKeyOf(rows[0]).value) == Key3(2024, 1, 10);
    assert forall i :: 0 <= i < |rows| ==> EmployeeKey(rows[i]) == 1;
  }
}
