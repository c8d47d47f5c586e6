/** The columns the job adds to the merged table (`year`, `month`, `hour_diff`) and the filter
    that drops the rows whose worked hours cannot be computed. */
module Enrich {
  import opened Wrappers
  import opened Schema
  import opened Join

  const SecondsPerHour := 60 * 60

  /** A row of the merged table together with the derived columns. */
  datatype Row = Row(joined: Joined, year: Option<int>, month: Option<int>, hourDiff: Option<int>)

  /** The year of a date cell; empty when the date is. */
  function YearOf(d: Option<Date>): Option<int> {
    if d.Some? then Some(d.value.year) else None
  }

  /** The month of a date cell; empty when the date is. */
  function MonthOf(d: Option<Date>): Option<int> {
    if d.Some? then Some(d.value.month) else None
  }

  /** The whole hours worked between checkin and checkout, rounded down: present exactly when both
      times are, and then the largest `h` with `h` hours not exceeding the difference. A checkout
      before the checkin gives a negative count, rounded down as well. */
  function HourDiff(checkin: Option<int>, checkout: Option<int>): (h: Option<int>)
    ensures h.Some? <==> checkin.Some? && checkout.Some?
    ensures h.Some? ==> h.value * SecondsPerHour <= checkout.value - checkin.value < (h.value + 1) * SecondsPerHour
  {
    if checkin.Some? && checkout.Some? then Some((checkout.value - checkin.value) / SecondsPerHour) else None
  }

  /** Worked examples: 08:00 to 17:00 is 9 hours, 08:00 to 08:59 is 0 hours, 17:00 to 08:00 is
      -9 hours, 08:30 to 08:00 is -1 hour (half an hour back, rounded down), and an empty cell
      leaves the count empty. */
  lemma HourDiffExamples()
    ensures HourDiff(Some(8 * 3600), Some(17 * 3600)) == Some(9)
    ensures HourDiff(Some(8 * 3600), Some(8 * 3600 + 59 * 60)) == Some(0)
    ensures HourDiff(Some(17 * 3600), Some(8 * 3600)) == Some(-9)
    ensures HourDiff(Some(8 * 3600 + 30 * 60), Some(8 * 3600)) == Some(-1)
    ensures HourDiff(None, Some(8 * 3600)) == None
  {
  }

  /** A merged row with its derived columns filled in. */
  function Derive(j: Joined): Row {
    Row(j, YearOf(j.date), MonthOf(j.date), HourDiff(j.checkin, j.checkout))
  }

  /** The merged table with its derived columns filled in, row by row. */
  function DeriveAll(js: seq<Joined>): seq<Row> {
    seq(|js|, i requires 0 <= i < |js| => Derive(js[i]))
  }

  /** A row of the merged table before any derived column has been assigned. */
  function Blank(j: Joined): Row {
    Row(j, None, None, None)
  }

  /** Keeps exactly the rows whose `hour_diff` is present, unchanged and in order: a row with zero
      or negative hours stays. */
  function KeepTimed(rows: seq<Row>): (kept: seq<Row>)
    ensures forall r :: multiset(kept)[r] == if r.hourDiff.Some? then multiset(rows)[r] else 0
    ensures |kept| <= |rows|
  {
    if rows == [] then []
    else
      assert rows == [rows[0]] + rows[1..];
      (if rows[0].hourDiff.Some? then [rows[0]] else []) + KeepTimed(rows[1..])
  }

  /** The filter keeps the order of the rows: filtering a concatenation is concatenating the
      filtered parts. */
  lemma {:induction false} KeepTimedAppend(a: seq<Row>, b: seq<Row>)
    ensures KeepTimed(a + b) == KeepTimed(a) + KeepTimed(b)
    decreases |a|
  {
    if a == [] {
      assert a + b == b;
    } else {
      assert (a + b)[1..] == a[1..] + b;
      KeepTimedAppend(a[1..], b);
    }
  }

  /** An employee without timesheets has no hours, so the filter removes their row: every row that
      survives carries a timesheet. */
  lemma UnmatchedRowsDropped(es: seq<Employee>, ts: seq<Timesheet>)
    ensures forall r :: r in KeepTimed(DeriveAll(LeftJoin(es, ts))) ==> r.joined.timesheetId.Some?
  {
    var rows := DeriveAll(LeftJoin(es, ts));
    forall r | r in KeepTimed(rows) ensures r.joined.timesheetId.Some? {
      assert multiset(KeepTimed(rows))[r] > 0;
      var i :| 0 <= i < |rows| && rows[i] == r;
      var j := LeftJoin(es, ts)[i];
      LeftJoinMembership(es, ts, j);
    }
  }

  /** The working table of the job while its columns are assigned one after another. */
  class Frame {
    var rows: seq<Row>

    /** The table produced by the merge; its derived columns are still empty. */
    constructor (joined: seq<Joined>)
      ensures |rows| == |joined|
      ensures forall i :: 0 <= i < |joined| ==> rows[i] == Blank(joined[i])
    {
      rows := seq(|joined|, i requires 0 <= i < |joined| => Blank(joined[i]));
    }

    /** Assigns the `year` column from the `date` column; nothing else changes. */
    method AssignYear()
      modifies this
      ensures |rows| == |old(rows)|
      ensures forall i :: 0 <= i < |rows| ==> rows[i] == old(rows[i]).(year := YearOf(old(rows[i]).joined.date))
    {
      var df := rows;
      rows := seq(|df|, i requires 0 <= i < |df| => df[i].(year := YearOf(df[i].joined.date)));
    }

    /** Assigns the `month` column from the `date` column; nothing else changes. */
    method AssignMonth()
      modifies this
      ensures |rows| == |old(rows)|
      ensures forall i :: 0 <= i < |rows| ==> rows[i] == old(rows[i]).(month := MonthOf(old(rows[i]).joined.date))
    {
      var df := rows;
      rows := seq(|df|, i requires 0 <= i < |df| => df[i].(month := MonthOf(df[i].joined.date)));
    }

    /** Assigns the `hour_diff` column from the `checkin` and `checkout` columns; nothing else changes. */
    method AssignHourDiff()
      modifies this
      ensures |rows| == |old(rows)|
      ensures forall i :: 0 <= i < |rows| ==>
        rows[i] == old(rows[i]).(hourDiff := HourDiff(old(rows[i]).joined.checkin, old(rows[i]).joined.checkout))
    {
      var df := rows;
      rows := seq(|df|, i requires 0 <= i < |df| =>
        df[i].(hourDiff := HourDiff(df[i].joined.checkin, df[i].joined.checkout)));
    }

    /** Replaces the table by its rows whose `hour_diff` is present. */
    method DropNullHours()
      modifies this
      ensures rows == KeepTimed(old(rows))
    {
      rows := KeepTimed(rows);
    }
  }
}
