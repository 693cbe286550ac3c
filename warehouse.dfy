/**
 * The two PostgreSQL tables and what `load_data` and `merge_data` do to them.
 * A table is keyed by `Serial Number` (its primary key); a row's other six
 * columns are a `Fields` value, in table column order.
 */
module Warehouse {
  import opened Wrappers
  import opened Cells
  import opened Schema

  /** The non-key columns of `employees` / `employees_temp`, in column order. */
  datatype Fields = Fields(company: Value, markme: Value, description: Value, leave: Value,
                           processed: Value, category: Value)

  type Table = map<int, Fields>

  // ---------------------------------------------------------------------------
  // load_data: COPY employees_temp FROM STDIN WITH CSV HEADER
  // ---------------------------------------------------------------------------

  /** Why `COPY` aborts; nothing it read before the failing row is kept. */
  datatype LoadError =
    | ColumnCount(row: nat)                // the row has more or fewer values than the table has columns
    | BadKey(row: nat)                     // `Serial Number` is not a number
    | BadLeave(row: nat)                   // `Leave` is not a 32-bit INTEGER
    | NullKey(row: nat)                    // `Serial Number` missing: the primary key is NOT NULL
    | DuplicateKey(row: nat, serial: int)  // the primary key already holds this serial number

  /** What PostgreSQL's 4-byte INTEGER accepts: no value, or a whole number in its range. */
  predicate IntegerCell(v: Value) {
    v.Null? || (v.Int? && -0x8000_0000 <= v.i < 0x8000_0000)
  }

  /** The record that `COPY` names in error `e` has the defect the error reports. */
  predicate Faulty(row: seq<Value>, e: LoadError) {
    match e
    case ColumnCount(_) => |row| != |EmployeesTempColumns|
    case BadKey(_) => |row| == |EmployeesTempColumns| && row[SerialAt].Str?
    case BadLeave(_) => |row| == |EmployeesTempColumns| && !row[SerialAt].Str? && !IntegerCell(row[LeaveAt])
    case NullKey(_) => |row| == |EmployeesTempColumns| && row[SerialAt].Null? && IntegerCell(row[LeaveAt])
    case DuplicateKey(_, k) => |row| == |EmployeesTempColumns| && row[SerialAt] == Int(k) && IntegerCell(row[LeaveAt])
  }

  /** The table row a record becomes: values are taken by position, not by name. */
  function RowFields(row: seq<Value>): Fields
    requires |row| == |EmployeesTempColumns|
  {
    Fields(row[CompanyAt], row[MarkmeAt], row[DescriptionAt], row[LeaveAt], row[TimestampAt], row[CategoryAt])
  }

  /** A row of a table: its primary key and its other columns. */
  datatype Record = Record(serial: int, fields: Fields)

  /** The serial numbers present in a list of table rows. */
  function SerialsOf(rows: seq<Record>): set<int> {
    set i | 0 <= i < |rows| :: rows[i].serial
  }

  /** No serial number occurs twice: what the primary key guarantees of a table. */
  predicate UniqueSerials(rows: seq<Record>) {
    forall i, j :: 0 <= i < j < |rows| ==> rows[i].serial != rows[j].serial
  }

  /** A table's rows as a map from serial number to the other columns. */
  function AsTable(rows: seq<Record>): (t: Table)
    ensures t.Keys == SerialsOf(rows)
    decreases |rows|
  {
    if rows == [] then map[]
    else
      var last := rows[|rows| - 1];
      var t := AsTable(rows[..|rows| - 1])[last.serial := last.fields];
      assert SerialsOf(rows) == SerialsOf(rows[..|rows| - 1]) + {last.serial} by {
        assert forall i :: 0 <= i < |rows| - 1 ==> rows[..|rows| - 1][i] == rows[i];
      }
      t
  }

  /** With distinct serial numbers, each row of the list is found under its own serial number. */
  lemma {:induction false} AsTableLookup(rows: seq<Record>, i: int)
    requires UniqueSerials(rows) && 0 <= i < |rows|
    ensures rows[i].serial in AsTable(rows) && AsTable(rows)[rows[i].serial] == rows[i].fields
    decreases |rows|
  {
    var init := rows[..|rows| - 1];
    if i < |rows| - 1 {
      assert init[i] == rows[i];
      assert UniqueSerials(init) by {
        assert forall a :: 0 <= a < |init| ==> init[a] == rows[a];
      }
      AsTableLookup(init, i);
      assert rows[|rows| - 1].serial != rows[i].serial;
    }
  }

  /** A record `COPY` can store: one value per column, a numeric serial number and an INTEGER leave. */
  predicate Storable(row: seq<Value>) {
    |row| == |EmployeesTempColumns| && row[SerialAt].Int? && IntegerCell(row[LeaveAt])
  }

  /** Every record can be stored. */
  predicate WellFormed(rows: seq<seq<Value>>) {
    forall i :: 0 <= i < |rows| ==> Storable(rows[i])
  }

  /** The table row a record becomes. */
  function ToRecord(row: seq<Value>): Record
    requires |row| == |EmployeesTempColumns| && row[SerialAt].Int?
  {
    Record(row[SerialAt].i, RowFields(row))
  }

  /** The records as table rows, in file order. */
  function ToRecords(rows: seq<seq<Value>>): (r: seq<Record>)
    requires WellFormed(rows)
    ensures |r| == |rows|
  {
    seq(|rows|, i requires 0 <= i < |rows| => ToRecord(rows[i]))
  }

  /**
   * `COPY` of the records after the rows already in the table, one by one in
   * file order; the first record that does not fit aborts the whole copy with
   * its error, counting records from `at`.
   */
  function CopyFrom(table: seq<Record>, rows: seq<seq<Value>>, at: nat): (r: Result<seq<Record>, LoadError>)
    requires UniqueSerials(table)
    ensures r.Success? <==> WellFormed(rows) && UniqueSerials(table + ToRecords(rows))
    ensures r.Success? ==> r.value == table + ToRecords(rows)
    ensures r.Failure? ==> at <= r.error.row < at + |rows| && Faulty(rows[r.error.row - at], r.error)
    decreases |rows|
  {
    if rows == [] then
      assert table + ToRecords(rows) == table;
      Success(table)
    else
      var row := rows[0];
      if |row| != |EmployeesTempColumns| then Failure(ColumnCount(at))
      else if row[SerialAt].Str? then Failure(BadKey(at))
      else if !IntegerCell(row[LeaveAt]) then Failure(BadLeave(at))
      else match row[SerialAt]
        case Null => Failure(NullKey(at))
        case Int(k) =>
          CopyStep(table, rows);
          if k in SerialsOf(table) then
            Failure(DuplicateKey(at, k))
          else
            var r := CopyFrom(table + [ToRecord(row)], rows[1..], at + 1);
            assert r.Failure? ==> rows[1..][r.error.row - (at + 1)] == rows[r.error.row - at];
            r
  }

  lemma CopyStep(table: seq<Record>, rows: seq<seq<Value>>)
    requires rows != [] && Storable(rows[0])
    ensures WellFormed(rows) <==> WellFormed(rows[1..])
    ensures WellFormed(rows) ==> table + ToRecords(rows) == table + [ToRecord(rows[0])] + ToRecords(rows[1..])
    ensures UniqueSerials(table + [ToRecord(rows[0])]) <==> UniqueSerials(table) && rows[0][SerialAt].i !in SerialsOf(table)
    ensures WellFormed(rows) && rows[0][SerialAt].i in SerialsOf(table) ==> !UniqueSerials(table + ToRecords(rows))
  {
    assert forall i :: 0 < i < |rows| ==> rows[i] == rows[1..][i - 1];
    var k := rows[0][SerialAt].i;
    var t1 := table + [ToRecord(rows[0])];
    assert forall i :: 0 <= i < |table| ==> table[i] == t1[i];
    assert t1[|table|].serial == k;
    if k in SerialsOf(table) {
      var i :| 0 <= i < |table| && table[i].serial == k;
      if WellFormed(rows) {
        var all := table + ToRecords(rows);
        assert all[i].serial == k && all[|table|].serial == k;
      }
      assert t1[i].serial == k;
    } else {
      assert forall i :: 0 <= i < |table| ==> table[i].serial != k;
    }
  }

  /**
   * `COPY` into the table as it stands: every record is stored after the rows
   * already there when each can be stored and no serial number repeats;
   * otherwise the error names a record (the first is counted as 0) that has
   * the defect it reports.
   */
  function Copy(table: seq<Record>, rows: seq<seq<Value>>): (r: Result<seq<Record>, LoadError>)
    requires UniqueSerials(table)
    ensures r.Success? <==> WellFormed(rows) && UniqueSerials(table + ToRecords(rows))
    ensures r.Success? ==> r.value == table + ToRecords(rows)
    ensures r.Failure? ==> r.error.row < |rows| && Faulty(rows[r.error.row], r.error)
  {
    CopyFrom(table, rows, 0)
  }

  // ---------------------------------------------------------------------------
  // merge_data: INSERT INTO employees SELECT DISTINCT * FROM employees_temp
  //             ON CONFLICT ("Serial Number") DO UPDATE SET ...
  // ---------------------------------------------------------------------------

  /**
   * The `DO UPDATE SET` list: the incoming row's values for every non-key
   * column except `Company Name`, which keeps the existing value.
   */
  function ResolveConflict(existing: Fields, incoming: Fields): (r: Fields)
    ensures r.company == existing.company
    ensures r.markme == incoming.markme && r.description == incoming.description && r.leave == incoming.leave
    ensures r.processed == incoming.processed && r.category == incoming.category
  {
    incoming.(company := existing.company)
  }

  /**
   * The upsert of a whole staging table into `employees`. The staging table's
   * primary key makes its rows distinct already, so `SELECT DISTINCT` drops
   * nothing and no key is met twice.
   */
  function Upsert(employees: Table, staging: Table): (r: Table)
    ensures r.Keys == employees.Keys + staging.Keys
    ensures forall k :: k in employees && k !in staging ==> r[k] == employees[k]
    ensures forall k :: k in staging && k !in employees ==> r[k] == staging[k]
    ensures forall k :: k in staging && k in employees ==> r[k] == ResolveConflict(employees[k], staging[k])
  {
    map k | k in employees.Keys + staging.Keys ::
      if k !in staging then employees[k]
      else if k in employees then ResolveConflict(employees[k], staging[k])
      else staging[k]
  }

  /** Merging the same staging table twice leaves the table as merging it once. */
  lemma UpsertIdempotent(employees: Table, staging: Table)
    ensures Upsert(Upsert(employees, staging), staging) == Upsert(employees, staging)
  {
    var once := Upsert(employees, staging);
    var twice := Upsert(once, staging);
    assert twice.Keys == once.Keys;
    forall k | k in once ensures twice[k] == once[k] {
      if k in staging {
        assert twice[k] == ResolveConflict(once[k], staging[k]);
      }
    }
  }

  /**
   * Merging a second staging table with the same serial numbers and the same
   * company names as the first leaves the table as merging only the second:
   * every column the first merge wrote is either overwritten again or, for
   * `Company Name`, equal in both.
   */
  lemma UpsertRefresh(employees: Table, first: Table, second: Table)
    requires first.Keys == second.Keys
    requires forall k :: k in first ==> first[k].company == second[k].company
    ensures Upsert(Upsert(employees, first), second) == Upsert(employees, second)
  {
    var once := Upsert(employees, first);
    var twice := Upsert(once, second);
    var direct := Upsert(employees, second);
    assert twice.Keys == direct.Keys;
    forall k | k in direct ensures twice[k] == direct[k] {
      if k in second {
        assert twice[k] == ResolveConflict(once[k], second[k]);
      }
    }
  }

  /**
   * A serial number already in `employees` keeps its `Company Name` through any
   * number of merges, whatever the staging tables hold.
   */
  function UpsertAll(employees: Table, stagings: seq<Table>): Table
    decreases |stagings|
  {
    if stagings == [] then employees else UpsertAll(Upsert(employees, stagings[0]), stagings[1..])
  }

  lemma {:induction false} CompanyNameKept(employees: Table, stagings: seq<Table>, k: int)
    requires k in employees
    ensures k in UpsertAll(employees, stagings)
    ensures UpsertAll(employees, stagings)[k].company == employees[k].company
    decreases |stagings|
  {
    if stagings != [] {
      CompanyNameKept(Upsert(employees, stagings[0]), stagings[1..], k);
    }
  }

  /**
   * Merging one more staging row whose serial number the staging prefix did
   * not hold yet is a single-row upsert on top of the earlier merge.
   */
  lemma UpsertOneMore(employees: Table, staged: Table, k: int, incoming: Fields)
    requires k !in staged
    ensures Upsert(employees, staged[k := incoming]) ==
      Upsert(employees, staged)[k := if k in employees then ResolveConflict(employees[k], incoming) else incoming]
  {
  }

  /** Merging the staging rows up to `i + 1` is merging those up to `i` and then row `i`. */
  lemma MergeStep(employees: Table, staging: seq<Record>, i: int)
    requires UniqueSerials(staging) && 0 <= i < |staging|
    ensures staging[i].serial !in AsTable(staging[..i])
    ensures Upsert(employees, AsTable(staging[..i + 1])) ==
      Upsert(employees, AsTable(staging[..i]))[staging[i].serial :=
        if staging[i].serial in employees then ResolveConflict(employees[staging[i].serial], staging[i].fields)
        else staging[i].fields]
  {
    var k := staging[i].serial;
    assert staging[..i + 1][..i] == staging[..i];
    assert forall j :: 0 <= j < i ==> staging[..i][j] == staging[j];
    UpsertOneMore(employees, AsTable(staging[..i]), k, staging[i].fields);
  }

  /** The two database tables of the pipeline. */
  class Database {
    var employees: Table
    var employeesTemp: seq<Record>

    /** The staging table's primary key: its serial numbers are distinct. */
    ghost predicate Valid()
      reads this
    {
      UniqueSerials(employeesTemp)
    }

    constructor (existing: Table)
      ensures Valid() && employees == existing && employeesTemp == []
    {
      employees := existing;
      employeesTemp := [];
    }

    /** `DROP TABLE IF EXISTS employees_temp; CREATE TABLE employees_temp (...)`. */
    method CreateEmployeesTempTable()
      modifies this
      ensures Valid() && employeesTemp == [] && employees == old(employees)
    {
      employeesTemp := [];
    }

    /**
     * `load_data`: `COPY` of the transformed records into `employees_temp`,
     * committed when every record fits and not applied at all otherwise.
     */
    method LoadData(rows: seq<seq<Value>>) returns (r: Outcome<LoadError>)
      requires Valid()
      modifies this
      ensures Valid() && employees == old(employees)
      ensures Copy(old(employeesTemp), rows).Success? ==>
        r == Pass && employeesTemp == Copy(old(employeesTemp), rows).value
      ensures Copy(old(employeesTemp), rows).Failure? ==>
        r == Fail(Copy(old(employeesTemp), rows).error) && employeesTemp == old(employeesTemp)
    {
      match Copy(employeesTemp, rows)
      case Success(t) =>
        employeesTemp := t;
        r := Pass;
      case Failure(e) =>
        r := Fail(e);
    }

    /**
     * `merge_data`: each staging row in turn is inserted, or, when its serial
     * number is already in `employees`, resolves the conflict by the
     * `DO UPDATE SET` list; returns 0, as `merge_data` does on success.
     */
    method MergeData() returns (status: int)
      requires Valid()
      modifies this
      ensures Valid() && status == 0
      ensures employeesTemp == old(employeesTemp)
      ensures employees == Upsert(old(employees), AsTable(employeesTemp))
    {
      var i := 0;
      while i < |employeesTemp|
        invariant 0 <= i <= |employeesTemp|
        invariant employeesTemp == old(employeesTemp)
        invariant employees == Upsert(old(employees), AsTable(employeesTemp[..i]))
      {
        var next := employeesTemp[i];
        MergeStep(old(employees), employeesTemp, i);
        var row := if next.serial in employees then ResolveConflict(employees[next.serial], next.fields) else next.fields;
        employees := employees[next.serial := row];
        i := i + 1;
      }
      assert employeesTemp[..i] == employeesTemp;
      status := 0;
    }
  }
}
