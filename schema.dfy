/**
 * Column names and the column layouts the pipeline depends on: the header the
 * downloaded file must carry, and the column order of the `employees` and
 * `employees_temp` tables.
 */
module Schema {

  const SerialNumber: string := "Serial Number"
  const CompanyName: string := "Company Name"
  const EmployeeMarkme: string := "Employee Markme"
  const Description: string := "Description"
  const Leave: string := "Leave"
  const ProcessedTimestamp: string := "Processed Timestamp"
  const LeaveCategory: string := "Leave Category"

  /** The header `validate_data` insists on, in this order. */
  const ExpectedHeader: seq<string> := [SerialNumber, CompanyName, EmployeeMarkme, Description, Leave]

  /** Column order of `employees` as created by its `CREATE TABLE IF NOT EXISTS`. */
  const EmployeesColumns: seq<string> :=
    [SerialNumber, CompanyName, EmployeeMarkme, Description, Leave, ProcessedTimestamp, LeaveCategory]

  /** Column order of `employees_temp` as created after its `DROP TABLE IF EXISTS`. */
  const EmployeesTempColumns: seq<string> :=
    [SerialNumber, CompanyName, EmployeeMarkme, Description, Leave, ProcessedTimestamp, LeaveCategory]

  /** Positions in a transformed row (and in both tables). */
  const SerialAt: nat := 0
  const CompanyAt: nat := 1
  const MarkmeAt: nat := 2
  const DescriptionAt: nat := 3
  const LeaveAt: nat := 4
  const TimestampAt: nat := 5
  const CategoryAt: nat := 6

  predicate Distinct(names: seq<string>) {
    forall i, j :: 0 <= i < j < |names| ==> names[i] != names[j]
  }

  /**
   * The header names are pairwise distinct, and the two tables have the same
   * columns in the same order: the staging table is the validated header
   * followed by the two derived columns, so the positional `COPY` and the
   * positional `INSERT INTO employees SELECT *` line up column for column.
   */
  lemma Layouts()
    ensures Distinct(ExpectedHeader)
    ensures EmployeesTempColumns == ExpectedHeader + [ProcessedTimestamp, LeaveCategory]
    ensures EmployeesColumns == EmployeesTempColumns
    ensures |EmployeesTempColumns| == 7
    ensures EmployeesTempColumns[SerialAt] == SerialNumber && EmployeesTempColumns[CompanyAt] == CompanyName
    ensures EmployeesTempColumns[MarkmeAt] == EmployeeMarkme && EmployeesTempColumns[DescriptionAt] == Description
    ensures EmployeesTempColumns[LeaveAt] == Leave && EmployeesTempColumns[TimestampAt] == ProcessedTimestamp
    ensures EmployeesTempColumns[CategoryAt] == LeaveCategory
  {
  }
}
