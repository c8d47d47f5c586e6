/** The rows the job reads, with dates and times already parsed, and the renaming of the
    employee key column that lets the two tables share a join key. */
module Schema {
  import opened Wrappers

  /** A calendar date. */
  datatype Date = Date(year: int, month: int, day: int)

  /** An employee row as the employee file spells it: the key column is `employe_id`. */
  datatype RawEmployee = RawEmployee(employeId: int, branchId: int, salary: int, joinDate: Date, resignDate: Option<Date>)

  /** An employee row once its key column is called `employee_id`. */
  datatype Employee = Employee(employeeId: int, branchId: int, salary: int, joinDate: Date, resignDate: Option<Date>)

  /** A timesheet row. `checkin` and `checkout` are times of day in seconds after midnight;
      any of `date`, `checkin` and `checkout` may be an empty cell. */
  datatype Timesheet = Timesheet(timesheetId: string, employeeId: int, date: Option<Date>, checkin: Option<int>, checkout: Option<int>)

  /** Renames the key column of one employee row. */
  function RenameKey(e: RawEmployee): Employee {
    Employee(e.employeId, e.branchId, e.salary, e.joinDate, e.resignDate)
  }

  /** Gives an employee row back its original key column name. */
  function RestoreKey(e: Employee): RawEmployee {
    RawEmployee(e.employeeId, e.branchId, e.salary, e.joinDate, e.resignDate)
  }

  /** Renames the key column of the employee table: the values of `employe_id` become the values
      of `employee_id`, every other column keeps its values, and rows keep their order. */
  function RenameKeys(es: seq<RawEmployee>): (rs: seq<Employee>)
    ensures |rs| == |es|
    ensures forall i :: 0 <= i < |es| ==>
      && rs[i].employeeId == es[i].employeId
      && rs[i].branchId == es[i].branchId
      && rs[i].salary == es[i].salary
      && rs[i].joinDate == es[i].joinDate
      && rs[i].resignDate == es[i].resignDate
  {
    if es == [] then [] else [RenameKey(es[0])] + RenameKeys(es[1..])
  }

  /** The rename neither loses nor invents information: it has an inverse on both sides. */
  lemma RenameKeyInvertible(e: RawEmployee, f: Employee)
    ensures RestoreKey(RenameKey(e)) == e
    ensures RenameKey(RestoreKey(f)) == f
  {
  }
}
