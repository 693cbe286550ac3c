/**
 * One run of the `process_employees_etl_pipeline` DAG, in the order its steps
 * are meant to run: recreate the staging table, download and validate,
 * transform, load into staging, merge into `employees`. The text of the
 * downloaded file and the records `pd.read_csv` reads from it are given
 * separately; parsing CSV is not part of this model.
 */
module Pipeline {
  import opened Wrappers
  import opened PyStr
  import opened Cells
  import opened Schema
  import opened Validation
  import opened Transform
  import opened Warehouse
  import opened Binning

  /** The first failing step of a run. */
  datatype RunError =
    | SchemaMismatch(validation: ValidationError)
    | TransformFailed(transform: TransformError)
    | LoadFailed(load: LoadError)

  // ---------------------------------------------------------------------------
  // The header a validated file gives the frame
  // ---------------------------------------------------------------------------

  /**
   * A file that passes `validate_data` gives the frame five distinct names,
   * with `Company Name` and `Description` where they belong and, whatever
   * whitespace surrounds the line, no name of a new column; `Leave` is the last of them exactly when the header line does
   * not end in whitespace, and is missing otherwise, because `validate_data`
   * strips the line but `pd.read_csv` keeps the whitespace in the last name.
   */
  lemma ValidatedLayout(text: string)
    requires ValidateData(text).Pass?
    ensures |HeaderNames(text)| == |ExpectedHeader| && Distinct(HeaderNames(text))
    ensures HeaderNames(text)[CompanyAt] == CompanyName && HeaderNames(text)[DescriptionAt] == Description
    ensures HeaderLayout(HeaderNames(text)) <==> !EndsInSpace(FirstLine(text))
    ensures EndsInSpace(FirstLine(text)) <==> Leave !in HeaderNames(text)
    ensures ProcessedTimestamp !in HeaderNames(text) && Schema.LeaveCategory !in HeaderNames(text)
  {
    var lead, trail := ValidatedNames(text);
    PaddedLayout(lead, trail);
    TrailingSpace(lead, trail);
    NewNamesAbsent(lead, trail);
  }

  /** The names of the header line with whitespace around it, as `pd.read_csv` keeps them. */
  function PaddedNames(lead: string, trail: string): seq<string> {
    [lead + SerialNumber, CompanyName, EmployeeMarkme, Description, Leave + trail]
  }

  /** The padded names have the expected layout exactly when nothing follows `Leave`, and lack `Leave` otherwise. */
  lemma PaddedLayout(lead: string, trail: string)
    requires AllSpace(lead) && AllSpace(trail)
    ensures var names := PaddedNames(lead, trail);
      && |names| == |ExpectedHeader| && Distinct(names)
      && names[CompanyAt] == CompanyName && names[DescriptionAt] == Description
      && (HeaderLayout(names) <==> trail == [])
      && (Leave in names <==> trail == [])
  {
    var names := PaddedNames(lead, trail);
    PaddedNamesDistinct(lead, trail);
    NewNamesAbsent(lead, trail);
    LeavePadded(lead, trail);
  }

  /** The padded names differ pairwise: their first letters do. */
  lemma PaddedNamesDistinct(lead: string, trail: string)
    requires AllSpace(lead) && AllSpace(trail)
    ensures Distinct(PaddedNames(lead, trail))
  {
    var names := PaddedNames(lead, trail);
    var heads := [names[0][0], 'C', 'E', 'D', 'L'];
    assert names[0][0] == 'S' || IsSpace(names[0][0]) by {
      if lead != [] {
        assert names[0][0] == lead[0];
      }
    }
    assert forall i :: 0 <= i < |names| ==> names[i] != [] && names[i][0] == heads[i];
    assert forall i, j :: 0 <= i < j < |heads| ==> heads[i] != heads[j];
  }

  /** Neither new column's name is among the padded names. */
  lemma NewNamesAbsent(lead: string, trail: string)
    requires AllSpace(lead) && AllSpace(trail)
    ensures ProcessedTimestamp !in PaddedNames(lead, trail) && Schema.LeaveCategory !in PaddedNames(lead, trail)
  {
    var names := PaddedNames(lead, trail);
    var heads := [names[0][0], 'C', 'E', 'D', 'L'];
    assert names[0][0] == 'S' || IsSpace(names[0][0]) by {
      if lead != [] {
        assert names[0][0] == lead[0];
      }
    }
    assert forall i :: 0 <= i < |names| ==> names[i] != [] && names[i][0] == heads[i];
    var last := names[4];
    assert last[|last| - 1] == 'e' || IsSpace(last[|last| - 1]) by {
      if trail != [] {
        assert last[|last| - 1] == trail[|trail| - 1];
      }
    }
    assert ProcessedTimestamp[0] == 'P';
    assert Schema.LeaveCategory[0] == 'L' && Schema.LeaveCategory[|Schema.LeaveCategory| - 1] == 'y';
  }

  /** `Leave` is a padded name, the last, exactly when nothing follows it. */
  lemma LeavePadded(lead: string, trail: string)
    ensures var names := PaddedNames(lead, trail);
      (names[LeaveAt] == Leave <==> trail == []) && (Leave in names <==> trail == [])
  {
    var names := PaddedNames(lead, trail);
    assert |names[0]| > |Leave| && |names[1]| != |Leave| && |names[2]| != |Leave| && |names[3]| != |Leave|;
    if trail == [] {
      assert names[LeaveAt] == Leave;
    } else {
      assert |names[LeaveAt]| > |Leave|;
    }
  }

  /** The header line ends in whitespace exactly when something follows the expected text. */
  lemma TrailingSpace(lead: string, trail: string)
    requires AllSpace(trail)
    ensures EndsInSpace(lead + ExpectedLine + trail) <==> trail != []
  {
    ExpectedLineShape();
    var line := lead + ExpectedLine + trail;
    if trail == [] {
      assert line == lead + ExpectedLine;
      assert line[|line| - 1] == ExpectedLine[|ExpectedLine| - 1];
    } else {
      assert line[|line| - 1] == trail[|trail| - 1];
    }
  }

  // ---------------------------------------------------------------------------
  // What a run stages and merges
  // ---------------------------------------------------------------------------

  /**
   * The records of a run load into an empty staging table: numeric, distinct
   * serial numbers and a `Leave` that fits an INTEGER.
   */
  predicate Loadable(rows: seq<seq<Value>>)
    requires InputRows(rows)
  {
    && (forall i :: 0 <= i < |rows| ==> rows[i][SerialAt].Int? && IntegerCell(rows[i][LeaveAt]))
    && (forall i, j :: 0 <= i < j < |rows| ==> rows[i][SerialAt] != rows[j][SerialAt])
  }

  /** The serial numbers of the file's records. */
  function FileSerials(rows: seq<seq<Value>>): set<int>
    requires InputRows(rows)
  {
    set i | 0 <= i < |rows| && rows[i][SerialAt].Int? :: rows[i][SerialAt].i
  }

  /** What the merge writes for record `row` of the file, before any conflict resolution. */
  function Incoming(row: seq<Value>, timestamp: string): (f: Fields)
    requires IsInputRow(row)
    ensures f.company == TitleCell(row[CompanyAt]) && f.description == CapitalizeCell(row[DescriptionAt])
    ensures f.markme == row[MarkmeAt] && f.leave == row[LeaveAt]
    ensures f.processed == Str(timestamp) && f.category == CategoryCell(row[LeaveAt])
  {
    RowFields(TransformRow(row, timestamp))
  }

  /**
   * The transformed records can be stored exactly when every serial number is
   * numeric and every leave fits an INTEGER, and then load into an empty
   * staging table exactly when the serial numbers are also distinct.
   */
  lemma TransformedLoadable(rows: seq<seq<Value>>, timestamp: string)
    requires InputRows(rows)
    ensures WellFormed(Transformed(rows, timestamp)) <==>
      (forall i :: 0 <= i < |rows| ==> rows[i][SerialAt].Int? && IntegerCell(rows[i][LeaveAt]))
    ensures WellFormed(Transformed(rows, timestamp)) ==>
      (UniqueSerials(ToRecords(Transformed(rows, timestamp))) <==> Loadable(rows))
  {
    var out := Transformed(rows, timestamp);
    assert forall i :: 0 <= i < |rows| ==> out[i][SerialAt] == rows[i][SerialAt] && out[i][LeaveAt] == rows[i][LeaveAt];
    if WellFormed(out) {
      var recs := ToRecords(out);
      assert forall i :: 0 <= i < |rows| ==> recs[i].serial == rows[i][SerialAt].i;
    }
  }

  /** The rows `load_data` puts in the empty staging table: one per record, in file order, each under its own serial number. */
  function StagedRecords(rows: seq<seq<Value>>, timestamp: string): (recs: seq<Record>)
    requires InputRows(rows) && Loadable(rows)
    ensures |recs| == |rows| && UniqueSerials(recs)
    ensures forall i :: 0 <= i < |rows| ==> recs[i] == Record(rows[i][SerialAt].i, Incoming(rows[i], timestamp))
  {
    TransformedLoadable(rows, timestamp);
    ToRecords(Transformed(rows, timestamp))
  }

  /** The staging table after `load_data` of a loadable file. */
  function Staged(rows: seq<seq<Value>>, timestamp: string): Table
    requires InputRows(rows) && Loadable(rows)
  {
    AsTable(StagedRecords(rows, timestamp))
  }

  /** The staging table holds exactly the file's serial numbers. */
  lemma StagedKeys(rows: seq<seq<Value>>, timestamp: string)
    requires InputRows(rows) && Loadable(rows)
    ensures Staged(rows, timestamp).Keys == FileSerials(rows)
  {
    var recs := StagedRecords(rows, timestamp);
    assert SerialsOf(recs) == FileSerials(rows);
  }

  /** Each record of the file is staged under its serial number with its transformed cells. */
  lemma StagedAt(rows: seq<seq<Value>>, timestamp: string, i: int)
    requires InputRows(rows) && Loadable(rows) && 0 <= i < |rows|
    ensures rows[i][SerialAt].i in Staged(rows, timestamp)
    ensures Staged(rows, timestamp)[rows[i][SerialAt].i] == Incoming(rows[i], timestamp)
  {
    AsTableLookup(StagedRecords(rows, timestamp), i);
  }

  // ---------------------------------------------------------------------------
  // A run of the DAG
  // ---------------------------------------------------------------------------

  /**
   * A run on `employees` with the downloaded file's text, the records read
   * from it and the run's formatted timestamp: validate, transform the frame
   * whose header is the file's unstripped first line, `COPY` into the staging
   * table (empty, because it is dropped and recreated at the start of every
   * run) and merge. Each step that raises ends the run with its error.
   */
  function RunPipeline(employees: Table, fileText: string, rows: seq<seq<Value>>, timestamp: string)
    : (r: Result<Table, RunError>)
    requires InputRows(rows)
    ensures r.Success? <==>
      ValidateData(fileText).Pass? && !EndsInSpace(FirstLine(fileText)) && Transformable(rows) && Loadable(rows)
    ensures ValidateData(fileText).Fail? ==> r == Failure(SchemaMismatch(ValidateData(fileText).error))
    ensures ValidateData(fileText).Pass? && EndsInSpace(FirstLine(fileText)) ==> r.Failure? && r.error.TransformFailed?
    ensures ValidateData(fileText).Pass? && EndsInSpace(FirstLine(fileText)) && TextInputs(rows) ==>
      r == Failure(TransformFailed(KeyError(Leave)))
    ensures ValidateData(fileText).Pass? && !EndsInSpace(FirstLine(fileText)) && !Transformable(rows) ==>
      r.Failure? && r.error.TransformFailed?
    ensures ValidateData(fileText).Pass? && !EndsInSpace(FirstLine(fileText)) && Transformable(rows) && !Loadable(rows) ==>
      r.Failure? && r.error.LoadFailed?
    ensures r.Success? ==> r.value == Upsert(employees, Staged(rows, timestamp))
  {
    match ValidateData(fileText)
    case Fail(e) => Failure(SchemaMismatch(e))
    case Pass =>
      ValidatedLayout(fileText);
      TransformLoadMerge(employees, HeaderNames(fileText), rows, timestamp)
  }

  /**
   * The steps after validation, on the frame whose header names are `names`:
   * `transform_data`, `load_data` into the empty staging table, `merge_data`.
   */
  function TransformLoadMerge(employees: Table, names: seq<string>, rows: seq<seq<Value>>, timestamp: string)
    : (r: Result<Table, RunError>)
    requires |names| == |ExpectedHeader| && Distinct(names) && InputRows(rows)
    requires names[CompanyAt] == CompanyName && names[DescriptionAt] == Description
    requires HeaderLayout(names) || Leave !in names
    ensures r.Success? <==> HeaderLayout(names) && Transformable(rows) && Loadable(rows)
    ensures !(HeaderLayout(names) && Transformable(rows)) ==> r.Failure? && r.error.TransformFailed?
    ensures Leave !in names && TextInputs(rows) ==> r == Failure(TransformFailed(KeyError(Leave)))
    ensures HeaderLayout(names) && Transformable(rows) && !Loadable(rows) ==> r.Failure? && r.error.LoadFailed?
    ensures r.Success? ==> r.value == Upsert(employees, Staged(rows, timestamp))
  {
    LoadedStaging(names, rows, timestamp);
    match Transform.Transform(names, rows, timestamp)
    case Failure(e) => Failure(TransformFailed(e))
    case Success(out) => LoadMerge(employees, out.rows)
  }

  /**
   * `load_data` of the transformed records into the empty staging table, then
   * `merge_data`: it goes through exactly when every record can be stored and
   * no serial number repeats, and otherwise reports a record with the defect.
   */
  function LoadMerge(employees: Table, out: seq<seq<Value>>): (r: Result<Table, RunError>)
    ensures r.Success? <==> WellFormed(out) && UniqueSerials(ToRecords(out))
    ensures r.Success? ==> r.value == Upsert(employees, AsTable(ToRecords(out)))
    ensures r.Failure? ==> r.error.LoadFailed? && r.error.load.row < |out| && Faulty(out[r.error.load.row], r.error.load)
  {
    match Copy([], out)
    case Failure(e) => Failure(LoadFailed(e))
    case Success(staging) =>
      assert [] + ToRecords(out) == ToRecords(out);
      Success(Upsert(employees, AsTable(staging)))
  }

  /**
   * Once the five names are distinct and `Company Name` and `Description` are
   * in place, the transform and the copy into the empty staging table succeed
   * exactly when the layout is the expected one and the records are
   * transformable and loadable; `Leave` missing is the `KeyError` when the two
   * text columns are fine.
   */
  lemma LoadedStaging(names: seq<string>, rows: seq<seq<Value>>, timestamp: string)
    requires |names| == |ExpectedHeader| && Distinct(names) && InputRows(rows)
    requires names[CompanyAt] == CompanyName && names[DescriptionAt] == Description
    requires HeaderLayout(names) || Leave !in names
    ensures Rectangular(names, rows)
    ensures Transform.Transform(names, rows, timestamp).Success? <==> HeaderLayout(names) && Transformable(rows)
    ensures Leave !in names && TextInputs(rows) ==>
      Transform.Transform(names, rows, timestamp) == Failure(KeyError(Leave))
    ensures Transform.Transform(names, rows, timestamp).Success? ==>
      var out := Transform.Transform(names, rows, timestamp).value.rows;
      && (Copy([], out).Success? <==> Loadable(rows))
      && (Copy([], out).Success? ==> Copy([], out).value == StagedRecords(rows, timestamp))
  {
    assert Rectangular(names, rows);
    if HeaderLayout(names) {
      TransformPositional(names, rows, timestamp);
      if Transformable(rows) {
        CopyTransformed(rows, timestamp);
      }
    } else if TextInputs(rows) {
      MissingLeave(names, rows, timestamp);
    }
  }

  /** The transformed records copy into the empty staging table exactly when they are loadable, as the staged records. */
  lemma CopyTransformed(rows: seq<seq<Value>>, timestamp: string)
    requires InputRows(rows)
    ensures Copy([], Transformed(rows, timestamp)).Success? <==> Loadable(rows)
    ensures Copy([], Transformed(rows, timestamp)).Success? ==>
      Copy([], Transformed(rows, timestamp)).value == StagedRecords(rows, timestamp)
  {
    TransformedLoadable(rows, timestamp);
    var out := Transformed(rows, timestamp);
    if Loadable(rows) {
      assert WellFormed(out);
    }
    if WellFormed(out) {
      assert [] + ToRecords(out) == ToRecords(out);
    }
  }

  /**
   * A header line with whitespace after `Leave` passes `validate_data`, which
   * strips it, but the frame's last column is then `Leave` followed by that
   * whitespace, and `transform_data` fails to find `Leave`.
   */
  lemma TrailingSpaceRefused(lead: string, trail: string, t: char, rest: string,
                             employees: Table, rows: seq<seq<Value>>, timestamp: string)
    requires AllSpace(lead) && AllSpace(trail) && trail != []
    requires NoLineEnd(lead) && NoLineEnd(trail) && IsLineEnd(t)
    requires InputRows(rows) && TextInputs(rows)
    ensures ValidateData(lead + ExpectedLine + trail + [t] + rest).Pass?
    ensures RunPipeline(employees, lead + ExpectedLine + trail + [t] + rest, rows, timestamp) ==
      Failure(TransformFailed(KeyError(Leave)))
  {
    var line := lead + ExpectedLine + trail;
    PaddedHeaderAccepted(lead, trail, t, rest);
    ExpectedLineShape();
    NoLineEndJoin(lead, ExpectedLine);
    NoLineEndJoin(lead + ExpectedLine, trail);
    ReadLineFirst(line, t, rest);
    TrailingSpace(lead, trail);
  }

  /**
   * After a successful run `employees` holds its old serial numbers and the
   * file's; rows the file does not mention are untouched, no row is deleted,
   * and a record of the file is inserted as transformed, or, when its serial
   * number was present, overwrites every column except `Company Name`.
   */
  lemma RunEffect(employees: Table, fileText: string, rows: seq<seq<Value>>, timestamp: string)
    requires InputRows(rows)
    requires RunPipeline(employees, fileText, rows, timestamp).Success?
    ensures var after := RunPipeline(employees, fileText, rows, timestamp).value;
      && after.Keys == employees.Keys + FileSerials(rows)
      && (forall k :: k in employees && k !in FileSerials(rows) ==> after[k] == employees[k])
      && (forall i :: 0 <= i < |rows| && rows[i][SerialAt].i !in employees ==>
            after[rows[i][SerialAt].i] == Incoming(rows[i], timestamp))
      && (forall i :: 0 <= i < |rows| && rows[i][SerialAt].i in employees ==>
            after[rows[i][SerialAt].i] == Incoming(rows[i], timestamp).(company := employees[rows[i][SerialAt].i].company))
  {
    var staged := Staged(rows, timestamp);
    StagedKeys(rows, timestamp);
    forall i | 0 <= i < |rows|
      ensures rows[i][SerialAt].i in staged && staged[rows[i][SerialAt].i] == Incoming(rows[i], timestamp)
    {
      StagedAt(rows, timestamp, i);
    }
  }

  /** Two runs of the same file stage the same serial numbers with the same company names. */
  lemma StagedAlike(rows: seq<seq<Value>>, t1: string, t2: string)
    requires InputRows(rows) && Loadable(rows)
    ensures Staged(rows, t1).Keys == Staged(rows, t2).Keys
    ensures forall k :: k in Staged(rows, t1) ==> Staged(rows, t1)[k].company == Staged(rows, t2)[k].company
  {
    var first := Staged(rows, t1);
    var second := Staged(rows, t2);
    StagedKeys(rows, t1);
    StagedKeys(rows, t2);
    forall k | k in first ensures first[k].company == second[k].company {
      var i :| 0 <= i < |rows| && rows[i][SerialAt].Int? && rows[i][SerialAt].i == k;
      StagedAt(rows, t1, i);
      StagedAt(rows, t2, i);
    }
  }

  /**
   * Running the DAG again on the same file, later, changes nothing but the
   * `Processed Timestamp` of the file's records: the result is what a single
   * run at the later time gives.
   */
  lemma RunAgain(employees: Table, fileText: string, rows: seq<seq<Value>>, t1: string, t2: string)
    requires InputRows(rows)
    requires RunPipeline(employees, fileText, rows, t1).Success?
    ensures RunPipeline(RunPipeline(employees, fileText, rows, t1).value, fileText, rows, t2) ==
      RunPipeline(employees, fileText, rows, t2)
  {
    StagedAlike(rows, t1, t2);
    UpsertRefresh(employees, Staged(rows, t1), Staged(rows, t2));
  }

  /**
   * An employee already on file whose leave rises from 1 to 5, in any file
   * whose header passes validation with nothing after `Leave`: the row keeps
   * its company name, takes the new values and the run's timestamp, and moves
   * from "Medium" to "High".
   */
  lemma LeaveRaisedScenario(fileText: string, serial: int, timestamp: string)
    ensures var employees := map[serial := Fields(Str("Old Co"), Str("a"), Str("Sick"), Int(1), Str("earlier"), Str("Medium"))];
      ValidateData(fileText).Pass? && !EndsInSpace(FirstLine(fileText)) ==>
        RunPipeline(employees, fileText, [[Int(serial), Str("new co"), Str("m"), Str("sick"), Int(5)]], timestamp) ==
        Success(map[serial := Fields(Str("Old Co"), Str("m"), Str("Sick"), Int(5), Str(timestamp), Str("High"))])
  {
    var staged := StagedScenario(serial, timestamp);
    MergedScenario(serial, TitleCell(Str("new co")), timestamp);
  }

  /** The merge of `LeaveRaisedScenario`'s staging table, whatever company name it stages. */
  lemma MergedScenario(serial: int, company: Value, timestamp: string)
    ensures Upsert(map[serial := Fields(Str("Old Co"), Str("a"), Str("Sick"), Int(1), Str("earlier"), Str("Medium"))],
                   map[serial := Fields(company, Str("m"), Str("Sick"), Int(5), Str(timestamp), Str("High"))]) ==
            map[serial := Fields(Str("Old Co"), Str("m"), Str("Sick"), Int(5), Str(timestamp), Str("High"))]
  {
    var merged := Upsert(map[serial := Fields(Str("Old Co"), Str("a"), Str("Sick"), Int(1), Str("earlier"), Str("Medium"))],
                         map[serial := Fields(company, Str("m"), Str("Sick"), Int(5), Str(timestamp), Str("High"))]);
    assert merged.Keys == {serial};
  }

  /** The staging table of the one-record file of `LeaveRaisedScenario`. */
  lemma StagedScenario(serial: int, timestamp: string) returns (staged: Table)
    ensures InputRows([[Int(serial), Str("new co"), Str("m"), Str("sick"), Int(5)]])
    ensures Transformable([[Int(serial), Str("new co"), Str("m"), Str("sick"), Int(5)]])
    ensures Loadable([[Int(serial), Str("new co"), Str("m"), Str("sick"), Int(5)]])
    ensures staged == Staged([[Int(serial), Str("new co"), Str("m"), Str("sick"), Int(5)]], timestamp)
    ensures staged == map[serial := Fields(TitleCell(Str("new co")), Str("m"), Str("Sick"), Int(5), Str(timestamp), Str("High"))]
  {
    var rows := [[Int(serial), Str("new co"), Str("m"), Str("sick"), Int(5)]];
    ScenarioRowsFit(serial);
    ScenarioIncoming(serial, timestamp);
    StagedKeys(rows, timestamp);
    StagedAt(rows, timestamp, 0);
    staged := Staged(rows, timestamp);
  }

  /** The one record of `LeaveRaisedScenario` can be transformed and loaded, under its own serial number. */
  lemma ScenarioRowsFit(serial: int)
    ensures var rows := [[Int(serial), Str("new co"), Str("m"), Str("sick"), Int(5)]];
      InputRows(rows) && Transformable(rows) && Loadable(rows) && FileSerials(rows) == {serial}
  {
    var rows := [[Int(serial), Str("new co"), Str("m"), Str("sick"), Int(5)]];
    assert rows[0][SerialAt] == Int(serial);
    assert Frame.ColumnOf(rows, CompanyAt)[0].Str? && Frame.ColumnOf(rows, DescriptionAt)[0].Str?;
    assert FileSerials(rows) == {serial} by {
      assert forall k :: k in FileSerials(rows) ==> k == serial;
    }
  }

  /** What the merge writes for the one record of `LeaveRaisedScenario`. */
  lemma ScenarioIncoming(serial: int, timestamp: string)
    ensures Incoming([Int(serial), Str("new co"), Str("m"), Str("sick"), Int(5)], timestamp) ==
      Fields(TitleCell(Str("new co")), Str("m"), Str("Sick"), Int(5), Str(timestamp), Str("High"))
  {
    LeaveCategoryBoundaries(5);
    assert CategoryCell(Int(5)) == Str("High");
    assert Capitalize("sick") == "Sick";
  }

  /**
   * The DAG steps in order on the database: recreate `employees_temp`,
   * validate the downloaded file, transform its records, `COPY` them into
   * staging and merge. A failing step stops the run; `employees` is then as it
   * was and the staging table empty. Otherwise `employees` is the table
   * `RunPipeline` computes and the staging table holds the transformed records.
   */
  method Run(db: Database, fileText: string, rows: seq<seq<Value>>, timestamp: string) returns (r: Outcome<RunError>)
    requires InputRows(rows)
    modifies db
    ensures db.Valid()
    ensures RunPipeline(old(db.employees), fileText, rows, timestamp).Success? ==>
      && r == Pass && db.employees == RunPipeline(old(db.employees), fileText, rows, timestamp).value
      && db.employeesTemp == StagedRecords(rows, timestamp)
    ensures RunPipeline(old(db.employees), fileText, rows, timestamp).Failure? ==>
      && r == Fail(RunPipeline(old(db.employees), fileText, rows, timestamp).error)
      && db.employees == old(db.employees) && db.employeesTemp == []
  {
    db.CreateEmployeesTempTable();
    var checked := ValidateData(fileText);
    if checked.Fail? {
      return Fail(SchemaMismatch(checked.error));
    }
    ValidatedLayout(fileText);
    LoadedStaging(HeaderNames(fileText), rows, timestamp);
    var transformed := TransformData(HeaderNames(fileText), rows, timestamp);
    if transformed.Failure? {
      return Fail(TransformFailed(transformed.error));
    }
    var loaded := db.LoadData(transformed.value.rows);
    if loaded.Fail? {
      return Fail(LoadFailed(loaded.error));
    }
    var status := db.MergeData();
    r := Pass;
  }
}
