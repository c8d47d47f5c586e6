# salary_per_hour: a verified model of the daily transform

The job reads an employee table and a timesheet table and produces, for each (year, month, branch), three values beside the key columns:

- `total_employee`: the sum, over the group's salary values, of the number of distinct employees at that salary. This is the number of distinct employees when each employee id has one salary; see "One salary per employee" below.
- `total_salary`: the sum of the group's distinct salary values; see "Salary counted per bucket" below.
- the salary paid per worked hour.

This project models the transform `process_data` in `Personal/mekari/main.py` and proves what each of its steps guarantees.

The job runs these steps in order:

1. Rename the employee key column from `employe_id` to `employee_id`.
2. Left-join the timesheets onto the employees by that key.
3. Add the `year` and `month` columns from the timesheet date.
4. Add `hour_diff`, the whole hours between checkin and checkout, rounded down.
5. Drop the rows whose `hour_diff` is empty.
6. Group by (year, month, branch, salary), summing the hours and counting the distinct employees.
7. Group again by (year, month, branch), summing the bucket salaries, hours and employee counts.
8. Divide the salary by the hours and keep the six output columns.

## Modules

- `Wrappers` (`wrappers.dfy`): the `Option` type for empty cells.
- `Schema` (`schema.dfy`): the input rows (dates and times already parsed) and the key rename.
- `Join` (`join.dfy`): the left join.
- `Enrich` (`enrich.dfy`): the derived columns and the null filter. The class `Enrich.Frame` is the working table whose `year`, `month` and `hour_diff` columns the job assigns in place, one after another.
- `Grouping` (`grouping.dfy`): a generic one-pass group-by. It is proved equal to the declarative reading of a group-by: one group per key that occurs, holding the reduction of exactly that key's values in order.
- `Aggregate` (`aggregate.dfy`): the two aggregation stages, their totals and conservation laws, and when the second stage counts every employee once.
- `Report` (`report.dfy`): `salary_per_hour`, the column selection, and `ProcessData`, the whole transform as the step-by-step method it is in the source.

## Modelling choices

- **Times.** Times are seconds after midnight. The job parses bare time strings, which all fall on the same day, so `hour_diff` is `(checkout - checkin) / 3600`. Dafny's integer division rounds down for a positive divisor, exactly as the floor in the source does, negative differences included.
- **Unparseable times.** The job converts the time strings with `pd.to_datetime` without `errors="coerce"`. A malformed string therefore stops the job with an error rather than giving an empty `hour_diff`. The model follows the code: the only empty `hour_diff` comes from an empty checkin or checkout cell.
- **Rows without a date.** pandas' group-by leaves out rows whose `year` or `month` is empty (its default `dropna=True`). Such a row survives the null filter when its times are present, but it falls into no bucket. `BucketKeyOf` returns `None` for it, and `DatedHours` sums only the hours of keyed rows.
- **Zero hours.** The division `total_salary / total_hour` has no guard. A zero `total_hour` is modelled as the IEEE result the float division gives: positive infinity, negative infinity, or not-a-number for 0/0 (`Report.Ratio`).
- **Salary counted per bucket.** `total_salary` sums the salary of each stage-1 bucket once. It is not weighted by employees or hours: two employees with the same salary in one branch and month contribute that salary once. `Report.TwoStageExample` shows this: three employees at 5000, 5000 and 7000 give a `total_salary` of 12000.
- **One salary per employee.** Stage 2 adds up the per-salary distinct counts of stage 1. An employee id that appears on two employee rows with different salaries is joined to its timesheets under both rows, so it falls into two buckets and is counted twice. `Aggregate.EmployeesCountedOnce` proves the count exact when each id has one salary. `Report.TwoSalaryExample` shows the double count otherwise: employee 1 at 5000 and at 7000 gives a `total_employee` of 2 for a group with one distinct employee.

## Model

| member | source | states |
|---|---|---|
| Schema.RenameKeys | Personal/mekari/main.py:31-32 | The renamed table has the same rows in the same order; `employee_id` carries the old `employe_id` values and every other column is unchanged |
| Schema.RenameKeyInvertible | Personal/mekari/main.py:31-32 | The rename loses nothing: restoring the old column name gives back the original row, in both directions |
| Join.Matching | Personal/mekari/main.py:36-37 | The timesheets selected for a key are exactly those carrying that key |
| Join.MatchingMultiplicity | Personal/mekari/main.py:36-37 | Each timesheet with the key is selected exactly as many times as it occurs, and every other timesheet zero times, so duplicate timesheet rows each make a merged row |
| Join.MatchingCount | Personal/mekari/main.py:36-37 | The number of selected timesheets is the number of timesheets carrying the key |
| Join.MatchingAppend | Personal/mekari/main.py:36-37 | Selection keeps the timesheets' order: selecting from a concatenation concatenates the selections |
| Join.AttachAll | Personal/mekari/main.py:36-37 | One merged row per matching timesheet, in order: the i-th pairs the employee with the i-th timesheet, so duplicate timesheets keep their multiplicity |
| Join.LeftJoinMembership | Personal/mekari/main.py:36-37 | A row is in the left join iff it pairs an employee with one of that employee's timesheets, or it is the all-empty timesheet row of an employee who has none; unmatched timesheets leave no row |
| Join.LeftJoinRowCount | Personal/mekari/main.py:36-37 | The joined rows with key `id` number the employee rows with that key times the timesheets with that key, or times one when there is no such timesheet |
| Join.EmployeeRows | Personal/mekari/main.py:36-37 | Each employee row yields its own block of merged rows: the i-th pairs it with the i-th timesheet carrying its key, or a single all-empty timesheet row when there is none; the block has one row per such timesheet, or one row |
| Join.LeftJoinAppend | Personal/mekari/main.py:36-37 | The join keeps the order of the employee rows: joining a concatenation concatenates the joins of its parts |
| Enrich.HourDiff | Personal/mekari/main.py:59-61 | `hour_diff` is present iff both checkin and checkout are, and is then the greatest whole number of hours not exceeding checkout minus checkin (negative differences included) |
| Enrich.HourDiffExamples | Personal/mekari/main.py:59-61 | 08:00 to 17:00 gives 9, 08:00 to 08:59 gives 0, 17:00 to 08:00 gives -9, 08:30 to 08:00 gives -1, and an empty checkin gives an empty result |
| Enrich.KeepTimed | Personal/mekari/main.py:63-64 | The filter keeps each row with a present `hour_diff` exactly as often as it occurs, and no row with an empty one |
| Enrich.KeepTimedAppend | Personal/mekari/main.py:63-64 | The filter keeps the order of the rows: filtering a concatenation concatenates the filtered parts |
| Enrich.UnmatchedRowsDropped | Personal/mekari/main.py:36-64 | Every row that survives the filter carries a timesheet, so employees without timesheets leave the pipeline |
| Enrich.Frame.constructor | Personal/mekari/main.py:37 | The working table starts as the merged rows with their derived columns empty |
| Enrich.Frame.AssignYear | Personal/mekari/main.py:55-56 | Each row's `year` becomes the year of its date (empty for an empty date); nothing else changes |
| Enrich.Frame.AssignMonth | Personal/mekari/main.py:55-57 | Each row's `month` becomes the month of its date (empty for an empty date); nothing else changes |
| Enrich.Frame.AssignHourDiff | Personal/mekari/main.py:59-61 | Each row's `hour_diff` becomes `HourDiff` of its checkin and checkout; nothing else changes |
| Enrich.Frame.DropNullHours | Personal/mekari/main.py:63-64 | The table is replaced by its filtered rows |
| Grouping.Insert | Personal/mekari/main.py:66-71 | Folding a value into its group adds at most the new key, keeps keys distinct, and changes only that key's value |
| Grouping.GroupBy | Personal/mekari/main.py:66-71 | A group-by yields distinct keys, exactly the keys that occur, and for each key the reduction of that key's values in order |
| Grouping.LookupAt | Personal/mekari/main.py:66-71 | In a grouping with distinct keys, looking up a group's key finds that group |
| Grouping.GroupByKeepsWeight | Personal/mekari/main.py:66-71 | Grouping keeps the total of every measure that adds up under the aggregation: no value is dropped or counted twice |
| Aggregate.Stage1Keys | Personal/mekari/main.py:66-68 | Stage 1 gives exactly one bucket per (year, month, branch_id, salary) key of the keyed rows, and no other |
| Aggregate.Stage1Totals | Personal/mekari/main.py:66-68 | Each bucket's `total_hour` is the sum of its rows' hours, and its `total_employee` is the number of distinct employee ids among them |
| Aggregate.Stage1KeepsHours | Personal/mekari/main.py:66-68 | The buckets' `total_hour` add up to the hours of all keyed rows |
| Aggregate.Stage2Keys | Personal/mekari/main.py:70-71 | Stage 2 gives exactly one summary per (year, month, branch_id) of the buckets, and no other |
| Aggregate.Stage2Totals | Personal/mekari/main.py:70-71 | Each summary holds the sums, over its buckets, of the salary (once per bucket), the hours and the employee counts |
| Aggregate.Stage2KeepsSums | Personal/mekari/main.py:70-71 | Over all summaries, salary, hour and employee totals equal those over the buckets |
| Aggregate.HoursConserved | Personal/mekari/main.py:66-71 | The final `total_hour` sum equals the hours of the filtered keyed rows, and the final `total_employee` sum equals the sum of the stage-1 counts |
| Aggregate.EmployeesCountedOnce | Personal/mekari/main.py:66-71 | When each employee has one salary, a summary's `total_employee` is the number of distinct employees of its (year, month, branch) |
| Report.SalaryPerHour | Personal/mekari/main.py:73-74 | The ratio is finite iff `total_hour` is not zero, and then multiplied by `total_hour` gives `total_salary`; at zero hours it is +inf, -inf or NaN by the sign of the salary |
| Report.Finalize | Personal/mekari/main.py:73-86 | One output row per summary, with exactly the columns year, month, branch_id, total_employee, total_salary and salary_per_hour, each kept from the summary or computed by `SalaryPerHour` |
| Report.ProcessData | Personal/mekari/main.py:24-105 | The step-by-step transform equals rename, join, derive, filter, both stages and the column selection applied in turn, and no two output rows share a (year, month, branch_id) |
| Report.OutputGroups | Personal/mekari/main.py:66-86 | There is an output row for a (year, month, branch) iff some surviving dated row belongs to it |
| Report.EachEmployeeCountedOnce | Personal/mekari/main.py:24-86 | When employee rows that share an id share a salary, each output row's `total_employee` is the number of distinct employees with hours in that group |
| Report.TwoStageExample | Personal/mekari/main.py:66-86 | Employees at 5000 (8 h), 5000 (6 h) and 7000 (4 h) give buckets (5000, 14 h, 2) and (7000, 4 h, 1), then one row with 3 employees, salary 12000 and 12000/18 per hour |
| Report.DistinctCountExample | Personal/mekari/main.py:66-68 | One employee with three timesheets in a bucket gives that bucket 18 h and 1 employee |
| Report.TwoSalaryExample | Personal/mekari/main.py:37-86 | One employee id with rows at salaries 5000 and 7000 (8 h each) gives one output row with `total_employee` 2, salary 12000 and 12000/16 per hour, while the group has the single distinct employee 1 |

## Left out

- Reading the CSV files (`read_file_csv`) and the hard-coded file URLs (main.py:11-22) are I/O; the model takes the two tables as sequences of rows.
- `load_to_dwh` and the `__main__` block (main.py:107-123) are a BigQuery client call. Line 123 also refers to an undefined `project_id`.
- The `astype(..., errors="ignore")` loops (main.py:52-53 and 100-101) are dynamic per-column casts with a silent fallback. The model gives every column its type from the start.
- Parsing with `pd.to_datetime` and `.dt.year` / `.dt.month` (main.py:56-61) is not modelled: dates and times are already-parsed integer fields. The error a malformed time string raises is therefore not modelled.
- `np.round(..., decimals=2)` and the float64 cast (main.py:89 and 97) are floating-point rounding. `Report.SalaryPerHour` is the exact real quotient.
- `print(df_result.head(5))` (main.py:103) is diagnostic output.
- Output row order: pandas sorts the group keys, while the model emits groups in order of first appearance. The contracts speak only of which rows the output holds.
- Integer widths: the int64 columns are unbounded integers here, so an overflow of the sums is not modelled.
- Report.ProcessData: it uses the pure `RenameKeys`, `LeftJoin`, `Stage1` and `Stage2` rather than in-place frames for the steps that build a new table. Only the three column assignments and the filter act on the `Frame` in place.
