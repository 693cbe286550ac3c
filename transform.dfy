/**
 * `transform_data`: one shared processing timestamp on every row,
 * `Company Name` title-cased, `Description` capitalized, and a
 * `Leave Category` derived from `Leave`. The columns are looked up by the
 * names the file's header line gives them, so a name that is spelled
 * differently (a trailing space, say) is a missing column. The timestamp
 * arrives already formatted; reading the clock and formatting it are outside
 * this model.
 */
module Transform {
  import opened Wrappers
  import opened Cells
  import opened Schema
  import Frame

  /** Why `transform_data` raises. */
  datatype TransformError =
    | KeyError(column: string)       // `df[name]` of a column the file does not have
    | AttributeError(column: string) // `.str` on a column that was not read as text
    | TypeError(column: string)      // `pd.cut` on a column holding text

  /** What `to_csv` writes: the header line's names and the rows. */
  datatype Output = Output(header: seq<string>, rows: seq<seq<Value>>)

  /** Every record has one cell per header name. */
  predicate Rectangular(columns: seq<string>, rows: seq<seq<Value>>) {
    forall r :: 0 <= r < |rows| ==> |rows[r]| == |columns|
  }

  /** The three columns `transform_data` reads are present. */
  predicate HasInputs(columns: seq<string>) {
    CompanyName in columns && Description in columns && Leave in columns
  }

  /** The header after the two assignments of new columns: the timestamp, then the category. */
  function OutColumns(columns: seq<string>): (out: seq<string>)
    ensures forall n :: n in out <==> n in columns || n == ProcessedTimestamp || n == LeaveCategory
  {
    Frame.Assigned(Frame.Assigned(columns, ProcessedTimestamp), LeaveCategory)
  }

  /**
   * The cell of column `name` in the transformed version of `row`, by column
   * name: the timestamp, the category of the row's `Leave`, the re-cased
   * company name or description, or else the row's own cell of that column.
   */
  function CellOf(columns: seq<string>, row: seq<Value>, name: string, timestamp: string): Value
    requires |row| == |columns| && HasInputs(columns)
    requires name in columns || name == ProcessedTimestamp || name == LeaveCategory
  {
    if name == ProcessedTimestamp then Str(timestamp)
    else if name == LeaveCategory then CategoryCell(row[Frame.IndexOf(columns, Leave)])
    else if name == CompanyName then TitleCell(row[Frame.IndexOf(columns, CompanyName)])
    else if name == Description then CapitalizeCell(row[Frame.IndexOf(columns, Description)])
    else row[Frame.IndexOf(columns, name)]
  }

  /** A transformed row: the cell of every output column, in header order. */
  function TransformRowBy(columns: seq<string>, row: seq<Value>, timestamp: string): (out: seq<Value>)
    requires |row| == |columns| && HasInputs(columns)
    ensures |out| == |OutColumns(columns)|
  {
    var names := OutColumns(columns);
    seq(|names|, j requires 0 <= j < |names| => CellOf(columns, row, names[j], timestamp))
  }

  /** Every row transformed by column name, in the original order. */
  function TransformedBy(columns: seq<string>, rows: seq<seq<Value>>, timestamp: string): (out: seq<seq<Value>>)
    requires Rectangular(columns, rows) && HasInputs(columns)
    ensures |out| == |rows|
  {
    seq(|rows|, r requires 0 <= r < |rows| => TransformRowBy(columns, rows[r], timestamp))
  }

  /**
   * What `transform_data` does with a file whose header names are `columns`:
   * it raises at the first column it cannot use, in the order it uses them
   * (`Company Name`, `Description`, `Leave`), and otherwise writes the header
   * with the two new columns and every row transformed.
   */
  function Transform(columns: seq<string>, rows: seq<seq<Value>>, timestamp: string): (r: Result<Output, TransformError>)
    requires Rectangular(columns, rows)
  {
    if CompanyName !in columns then Failure(KeyError(CompanyName))
    else if !TextColumn(Frame.ColumnOf(rows, Frame.IndexOf(columns, CompanyName))) then
      Failure(AttributeError(CompanyName))
    else if Description !in columns then Failure(KeyError(Description))
    else if !TextColumn(Frame.ColumnOf(rows, Frame.IndexOf(columns, Description))) then
      Failure(AttributeError(Description))
    else if Leave !in columns then Failure(KeyError(Leave))
    else if !NumericColumn(Frame.ColumnOf(rows, Frame.IndexOf(columns, Leave))) then Failure(TypeError(Leave))
    else Success(Output(OutColumns(columns), TransformedBy(columns, rows, timestamp)))
  }

  // ---------------------------------------------------------------------------
  // The frame, assignment by assignment
  // ---------------------------------------------------------------------------

  /** The column names after the first `step` of the four assignments. */
  ghost function StageColumns(columns: seq<string>, step: nat): seq<string> {
    if step == 0 then columns
    else if step < 4 then Frame.Assigned(columns, ProcessedTimestamp)
    else OutColumns(columns)
  }

  /** The columns read by the first `step` assignments are present. */
  ghost predicate StageReady(columns: seq<string>, step: nat) {
    && (step >= 2 ==> CompanyName in columns)
    && (step >= 3 ==> Description in columns)
    && (step >= 4 ==> Leave in columns)
  }

  /** The cell of column `name` after the first `step` assignments. */
  ghost function StageCell(columns: seq<string>, row: seq<Value>, name: string, timestamp: string, step: nat): Value
    requires |row| == |columns| && StageReady(columns, step)
    requires name in StageColumns(columns, step)
  {
    if step >= 1 && name == ProcessedTimestamp then Str(timestamp)
    else if step >= 4 && name == LeaveCategory then CategoryCell(row[Frame.IndexOf(columns, Leave)])
    else if step >= 2 && name == CompanyName then TitleCell(row[Frame.IndexOf(columns, CompanyName)])
    else if step >= 3 && name == Description then CapitalizeCell(row[Frame.IndexOf(columns, Description)])
    else row[Frame.IndexOf(columns, name)]
  }

  /** A frame's columns and cells as they stand after the first `step` assignments. */
  ghost predicate Reached(names: seq<string>, cols: seq<seq<Value>>, columns: seq<string>, rows: seq<seq<Value>>,
                          timestamp: string, step: nat)
  {
    && Rectangular(columns, rows) && StageReady(columns, step)
    && names == StageColumns(columns, step)
    && |cols| == |names|
    && (forall j :: 0 <= j < |cols| ==> |cols[j]| == |rows|)
    && forall j, r :: 0 <= j < |names| && 0 <= r < |rows| ==>
         cols[j][r] == StageCell(columns, rows[r], names[j], timestamp, step)
  }

  /** The name assigned by assignment `step` (counting from 0). */
  function StepName(step: nat): string {
    if step == 0 then ProcessedTimestamp
    else if step == 1 then CompanyName
    else if step == 2 then Description
    else LeaveCategory
  }

  /** Assignment `step` gives the column names of the next stage. */
  lemma AdvanceColumns(columns: seq<string>, step: nat)
    requires step < 4 && StageReady(columns, step + 1)
    ensures StageColumns(columns, step + 1) == Frame.Assigned(StageColumns(columns, step), StepName(step))
  {
    if step == 1 || step == 2 {
      assert StepName(step) in columns;
    }
  }

  /** A column that assignment `step` does not assign keeps its cells. */
  lemma StageCellKept(columns: seq<string>, row: seq<Value>, name: string, timestamp: string, step: nat)
    requires step < 4 && |row| == |columns| && StageReady(columns, step + 1)
    requires name in StageColumns(columns, step) && name != StepName(step)
    ensures name in StageColumns(columns, step + 1)
    ensures StageCell(columns, row, name, timestamp, step + 1) == StageCell(columns, row, name, timestamp, step)
  {
    AdvanceColumns(columns, step);
  }

  /** One more assignment, with the values the next stage expects, reaches the next stage. */
  lemma Advance(names: seq<string>, cols: seq<seq<Value>>, names': seq<string>, cols': seq<seq<Value>>,
                values: seq<Value>, columns: seq<string>, rows: seq<seq<Value>>, timestamp: string, step: nat)
    requires step < 4 && Reached(names, cols, columns, rows, timestamp, step) && StageReady(columns, step + 1)
    requires names' == Frame.Assigned(names, StepName(step)) && |cols'| == |names'| && |values| == |rows|
    requires forall j :: 0 <= j < |names'| && names'[j] == StepName(step) ==> cols'[j] == values
    requires forall j :: 0 <= j < |names'| && names'[j] != StepName(step) ==> j < |cols| && cols'[j] == cols[j]
    requires forall r :: 0 <= r < |rows| ==>
      values[r] == StageCell(columns, rows[r], StepName(step), timestamp, step + 1)
    ensures Reached(names', cols', columns, rows, timestamp, step + 1)
  {
    AdvanceColumns(columns, step);
    forall j, r | 0 <= j < |names'| && 0 <= r < |rows|
      ensures cols'[j][r] == StageCell(columns, rows[r], names'[j], timestamp, step + 1)
    {
      if names'[j] != StepName(step) {
        assert names'[j] == names[j];
        StageCellKept(columns, rows[r], names[j], timestamp, step);
      }
    }
  }

  /** Before any assignment, every cell is found under its own column's name. */
  lemma Start(columns: seq<string>, rows: seq<seq<Value>>, cols: seq<seq<Value>>, timestamp: string)
    requires Distinct(columns) && Rectangular(columns, rows)
    requires |cols| == |columns| && forall j :: 0 <= j < |cols| ==> |cols[j]| == |rows|
    requires forall j, r :: 0 <= j < |columns| && 0 <= r < |rows| ==> cols[j][r] == rows[r][j]
    ensures Reached(columns, cols, columns, rows, timestamp, 0)
  {
    forall j, r | 0 <= j < |columns| && 0 <= r < |rows|
      ensures cols[j][r] == StageCell(columns, rows[r], columns[j], timestamp, 0)
    {
      Frame.IndexOfDistinct(columns, j);
    }
  }

  /** After the four assignments the frame, row by row, is the transformed file. */
  lemma Finish(names: seq<string>, cols: seq<seq<Value>>, columns: seq<string>, rows: seq<seq<Value>>, timestamp: string)
    requires Reached(names, cols, columns, rows, timestamp, 4)
    ensures HasInputs(columns) && names == OutColumns(columns)
    ensures Frame.RowsOf(cols, |rows|) == TransformedBy(columns, rows, timestamp)
  {
    var out := Frame.RowsOf(cols, |rows|);
    forall r | 0 <= r < |rows| ensures out[r] == TransformedBy(columns, rows, timestamp)[r] {
      forall j | 0 <= j < |names| ensures out[r][j] == TransformRowBy(columns, rows[r], timestamp)[j] {
        assert cols[j][r] == StageCell(columns, rows[r], names[j], timestamp, 4);
      }
    }
  }

  /** The column `transform_data` reads before assignment `step`, if any. */
  function SourceName(step: nat): string {
    if step == 1 then CompanyName else if step == 2 then Description else Leave
  }

  /**
   * `df[name]` of a column that no assignment has touched yet gives the
   * column's cells as read from the file.
   */
  lemma ColumnRead(names: seq<string>, cols: seq<seq<Value>>, columns: seq<string>, rows: seq<seq<Value>>,
                   timestamp: string, step: nat)
    requires 1 <= step < 4 && Reached(names, cols, columns, rows, timestamp, step)
    requires SourceName(step) in columns
    ensures SourceName(step) in names
    ensures cols[Frame.IndexOf(names, SourceName(step))] == Frame.ColumnOf(rows, Frame.IndexOf(columns, SourceName(step)))
  {
    var k := Frame.IndexOf(names, SourceName(step));
    assert forall r :: 0 <= r < |rows| ==> cols[k][r] == StageCell(columns, rows[r], names[k], timestamp, step);
  }

  /** The rule assignment `step` applies to the column it reads. */
  function Rule(step: nat): Value -> Value {
    if step == 1 then TitleCell else if step == 2 then CapitalizeCell else CategoryCell
  }

  /** The rule applied to the column read gives the cells the next stage expects. */
  lemma RuleValues(column: seq<Value>, columns: seq<string>, rows: seq<seq<Value>>, timestamp: string, step: nat)
    requires 1 <= step < 4 && Rectangular(columns, rows) && StageReady(columns, step + 1)
    requires SourceName(step) in columns
    requires column == Frame.ColumnOf(rows, Frame.IndexOf(columns, SourceName(step)))
    ensures StepName(step) in StageColumns(columns, step + 1)
    ensures forall r :: 0 <= r < |rows| ==>
      MapColumn(Rule(step), column)[r] == StageCell(columns, rows[r], StepName(step), timestamp, step + 1)
  {
  }

  /** Assignment `step` of `transform_data`: `df[StepName(step)] = values`. */
  method Assign(df: Frame.DataFrame, values: seq<Value>, ghost columns: seq<string>, ghost rows: seq<seq<Value>>,
                ghost timestamp: string, step: nat)
    requires df.Valid() && df.height == |rows| && |values| == |rows|
    requires step < 4 && Reached(df.columns, df.cols, columns, rows, timestamp, step) && StageReady(columns, step + 1)
    requires StepName(step) in StageColumns(columns, step + 1)
    requires forall r :: 0 <= r < |rows| ==>
      values[r] == StageCell(columns, rows[r], StepName(step), timestamp, step + 1)
    modifies df
    ensures df.Valid() && df.height == |rows|
    ensures Reached(df.columns, df.cols, columns, rows, timestamp, step + 1)
  {
    ghost var names, cols := df.columns, df.cols;
    df.SetColumn(StepName(step), values);
    Advance(names, cols, df.columns, df.cols, values, columns, rows, timestamp, step);
  }

  /**
   * `df[name] = df[name].str.title()` (step 1) or `.str.capitalize()` (step 2):
   * `KeyError` when the column is missing, `AttributeError` when it was not
   * read as text, and otherwise the column re-cased in place.
   */
  method Recase(df: Frame.DataFrame, step: nat, ghost columns: seq<string>, ghost rows: seq<seq<Value>>,
                ghost timestamp: string)
    returns (e: Option<TransformError>)
    requires step == 1 || step == 2
    requires df.Valid() && df.height == |rows| && Reached(df.columns, df.cols, columns, rows, timestamp, step)
    modifies df
    ensures SourceName(step) !in columns ==> e == Some(KeyError(SourceName(step)))
    ensures SourceName(step) in columns ==>
      var column := Frame.ColumnOf(rows, Frame.IndexOf(columns, SourceName(step)));
      && (!TextColumn(column) ==> e == Some(AttributeError(SourceName(step))))
      && (TextColumn(column) ==> e == None)
    ensures e == None ==> df.Valid() && df.height == |rows| && Reached(df.columns, df.cols, columns, rows, timestamp, step + 1)
    ensures e.Some? ==> unchanged(df)
  {
    var name := SourceName(step);
    if name !in df.columns {
      return Some(KeyError(name));
    }
    ColumnRead(df.columns, df.cols, columns, rows, timestamp, step);
    var column := df.Column(name);
    if !TextColumn(column) {
      return Some(AttributeError(name));
    }
    RuleValues(column, columns, rows, timestamp, step);
    Assign(df, MapColumn(Rule(step), column), columns, rows, timestamp, step);
    e := None;
  }

  /**
   * `df["Leave Category"] = pd.cut(df["Leave"], ...)`: `KeyError` when `Leave`
   * is missing, `TypeError` when it holds text, and otherwise the category
   * column assigned.
   */
  method Categorize(df: Frame.DataFrame, ghost columns: seq<string>, ghost rows: seq<seq<Value>>,
                    ghost timestamp: string)
    returns (e: Option<TransformError>)
    requires df.Valid() && df.height == |rows| && Reached(df.columns, df.cols, columns, rows, timestamp, 3)
    modifies df
    ensures Leave !in columns ==> e == Some(KeyError(Leave))
    ensures Leave in columns ==>
      var column := Frame.ColumnOf(rows, Frame.IndexOf(columns, Leave));
      && (!NumericColumn(column) ==> e == Some(TypeError(Leave)))
      && (NumericColumn(column) ==> e == None)
    ensures e == None ==> df.Valid() && df.height == |rows| && Reached(df.columns, df.cols, columns, rows, timestamp, 4)
    ensures e.Some? ==> unchanged(df)
  {
    if Leave !in df.columns {
      return Some(KeyError(Leave));
    }
    ColumnRead(df.columns, df.cols, columns, rows, timestamp, 3);
    var column := df.Column(Leave);
    if !NumericColumn(column) {
      return Some(TypeError(Leave));
    }
    RuleValues(column, columns, rows, timestamp, 3);
    Assign(df, MapColumn(CategoryCell, column), columns, rows, timestamp, 3);
    e := None;
  }

  /**
   * `transform_data` on the frame `pd.read_csv` builds from a file with header
   * names `columns`: assigns the timestamp column, re-cases the two text
   * columns, assigns the category column, and returns what `to_csv` writes;
   * a column it cannot use raises. The result is `Transform`'s.
   */
  method TransformData(columns: seq<string>, rows: seq<seq<Value>>, timestamp: string)
    returns (r: Result<Output, TransformError>)
    requires Distinct(columns) && Rectangular(columns, rows)
    ensures r == Transform(columns, rows, timestamp)
  {
    var df := new Frame.DataFrame(columns, rows);
    Start(columns, rows, df.cols, timestamp);
    Assign(df, Broadcast(df.height, Str(timestamp)), columns, rows, timestamp, 0);
    var e := Recase(df, 1, columns, rows, timestamp);
    if e.Some? {
      return Failure(e.value);
    }
    e := Recase(df, 2, columns, rows, timestamp);
    if e.Some? {
      return Failure(e.value);
    }
    e := Categorize(df, columns, rows, timestamp);
    if e.Some? {
      return Failure(e.value);
    }
    Finish(df.columns, df.cols, columns, rows, timestamp);
    r := Success(Output(df.columns, df.Rows()));
  }

  // ---------------------------------------------------------------------------
  // The validated header layout, by position
  // ---------------------------------------------------------------------------

  /** A row of the downloaded file: one cell per header column. */
  predicate IsInputRow(row: seq<Value>) {
    |row| == |ExpectedHeader|
  }

  /** Every row of the downloaded file has one cell per header column. */
  predicate InputRows(rows: seq<seq<Value>>) {
    forall i :: 0 <= i < |rows| ==> |rows[i]| == |ExpectedHeader|
  }

  /**
   * The transformed row: the five original cells in their places, with only
   * the two text cells re-cased, then the timestamp, then the leave category.
   */
  function TransformRow(row: seq<Value>, timestamp: string): (out: seq<Value>)
    requires IsInputRow(row)
    ensures |out| == |EmployeesTempColumns|
    ensures out[..|ExpectedHeader|] ==
      row[CompanyAt := TitleCell(row[CompanyAt])][DescriptionAt := CapitalizeCell(row[DescriptionAt])]
    ensures out[TimestampAt] == Str(timestamp) && out[CategoryAt] == CategoryCell(row[LeaveAt])
  {
    [ row[SerialAt], TitleCell(row[CompanyAt]), row[MarkmeAt], CapitalizeCell(row[DescriptionAt]), row[LeaveAt],
      Str(timestamp), CategoryCell(row[LeaveAt]) ]
  }

  /** Every row transformed, in the original order. */
  function Transformed(rows: seq<seq<Value>>, timestamp: string): (out: seq<seq<Value>>)
    requires InputRows(rows)
    ensures |out| == |rows|
  {
    seq(|rows|, i requires 0 <= i < |rows| => TransformRow(rows[i], timestamp))
  }

  /**
   * The records can be transformed once the columns are found: the two text
   * columns were read as text and `Leave` holds no text.
   */
  predicate Transformable(rows: seq<seq<Value>>)
    requires InputRows(rows)
  {
    TextInputs(rows) && NumericColumn(Frame.ColumnOf(rows, LeaveAt))
  }

  /** `Company Name` and `Description`, by position, were read as text. */
  predicate TextInputs(rows: seq<seq<Value>>)
    requires InputRows(rows)
  {
    TextColumn(Frame.ColumnOf(rows, CompanyAt)) && TextColumn(Frame.ColumnOf(rows, DescriptionAt))
  }

  /**
   * Header names laid out as the validated header: five distinct names with
   * `Company Name`, `Description` and `Leave` in their places, and neither new
   * column among them. The other two names may be spelled in any way.
   */
  predicate HeaderLayout(names: seq<string>) {
    && |names| == |ExpectedHeader| && Distinct(names)
    && names[CompanyAt] == CompanyName && names[DescriptionAt] == Description && names[LeaveAt] == Leave
    && ProcessedTimestamp !in names && LeaveCategory !in names
  }

  /** For such a header, the output header is the input header and the two new columns. */
  lemma LayoutColumns(names: seq<string>)
    requires HeaderLayout(names)
    ensures HasInputs(names)
    ensures OutColumns(names) == names + [ProcessedTimestamp, LeaveCategory]
  {
    assert names[CompanyAt] in names && names[DescriptionAt] in names && names[LeaveAt] in names;
    assert LeaveCategory !in names + [ProcessedTimestamp];
  }

  /** A column the transform does not assign is found at its own position. */
  lemma CellByPosition(names: seq<string>, row: seq<Value>, timestamp: string, j: nat)
    requires HeaderLayout(names) && IsInputRow(row) && j < |names|
    requires names[j] != CompanyName && names[j] != Description
    ensures HasInputs(names)
    ensures CellOf(names, row, names[j], timestamp) == row[j]
  {
    LayoutColumns(names);
    Frame.IndexOfDistinct(names, j);
  }

  /** For such a header, looking cells up by name is looking them up by position. */
  lemma RowByName(names: seq<string>, row: seq<Value>, timestamp: string)
    requires HeaderLayout(names) && IsInputRow(row)
    ensures HasInputs(names)
    ensures TransformRowBy(names, row, timestamp) == TransformRow(row, timestamp)
  {
    LayoutColumns(names);
    var out := TransformRowBy(names, row, timestamp);
    var expected := TransformRow(row, timestamp);
    var header := names + [ProcessedTimestamp, LeaveCategory];
    assert |out| == |expected|;
    CellByPosition(names, row, timestamp, SerialAt);
    CellByPosition(names, row, timestamp, MarkmeAt);
    CellByPosition(names, row, timestamp, LeaveAt);
    Frame.IndexOfDistinct(names, CompanyAt);
    Frame.IndexOfDistinct(names, DescriptionAt);
    Frame.IndexOfDistinct(names, LeaveAt);
    assert out[SerialAt] == expected[SerialAt] && out[MarkmeAt] == expected[MarkmeAt];
    assert out[LeaveAt] == expected[LeaveAt];
    assert out[CompanyAt] == expected[CompanyAt] && out[DescriptionAt] == expected[DescriptionAt];
    assert header[TimestampAt] == ProcessedTimestamp && header[CategoryAt] == LeaveCategory;
    assert out[TimestampAt] == expected[TimestampAt] && out[CategoryAt] == expected[CategoryAt];
  }

  /**
   * With the validated header layout, `transform_data` succeeds exactly when
   * the records are transformable, and then writes the header with the two
   * new columns and the records transformed position by position.
   */
  lemma TransformPositional(names: seq<string>, rows: seq<seq<Value>>, timestamp: string)
    requires HeaderLayout(names) && InputRows(rows)
    ensures Rectangular(names, rows)
    ensures Transform(names, rows, timestamp).Success? <==> Transformable(rows)
    ensures Transformable(rows) ==>
      Transform(names, rows, timestamp) == Success(Output(names + [ProcessedTimestamp, LeaveCategory], Transformed(rows, timestamp)))
  {
    assert names[CompanyAt] in names && names[DescriptionAt] in names && names[LeaveAt] in names;
    Frame.IndexOfDistinct(names, CompanyAt);
    Frame.IndexOfDistinct(names, DescriptionAt);
    Frame.IndexOfDistinct(names, LeaveAt);
    if Transformable(rows) {
      assert LeaveCategory !in names + [ProcessedTimestamp];
      assert OutColumns(names) == names + [ProcessedTimestamp, LeaveCategory];
      forall r | 0 <= r < |rows|
        ensures TransformedBy(names, rows, timestamp)[r] == Transformed(rows, timestamp)[r]
      {
        RowByName(names, rows[r], timestamp);
      }
      assert TransformedBy(names, rows, timestamp) == Transformed(rows, timestamp);
    }
  }

  /**
   * A header whose `Leave` name is spelled differently makes `transform_data`
   * raise `KeyError` once the two text columns have been re-cased.
   */
  lemma MissingLeave(names: seq<string>, rows: seq<seq<Value>>, timestamp: string)
    requires |names| == |ExpectedHeader| && InputRows(rows)
    requires names[CompanyAt] == CompanyName && names[DescriptionAt] == Description && Leave !in names
    requires Distinct(names)
    requires TextInputs(rows)
    ensures Rectangular(names, rows)
    ensures Transform(names, rows, timestamp) == Failure(KeyError(Leave))
  {
    assert names[CompanyAt] in names && names[DescriptionAt] in names;
    Frame.IndexOfDistinct(names, CompanyAt);
    Frame.IndexOfDistinct(names, DescriptionAt);
  }

  /** All rows of one run carry the very same timestamp. */
  lemma SharedTimestamp(rows: seq<seq<Value>>, timestamp: string, i: int, j: int)
    requires InputRows(rows)
    requires 0 <= i < |rows| && 0 <= j < |rows|
    ensures Transformed(rows, timestamp)[i][TimestampAt] == Transformed(rows, timestamp)[j][TimestampAt] == Str(timestamp)
  {
  }

  /**
   * Transforming a transformed file again (its first five columns, with a new
   * timestamp) changes nothing but the timestamp: the re-casing is idempotent
   * and the category is recomputed from the same `Leave`.
   */
  lemma TransformIdempotent(row: seq<Value>, t1: string, t2: string)
    requires IsInputRow(row)
    ensures TransformRow(TransformRow(row, t1)[..|ExpectedHeader|], t2) == TransformRow(row, t2)
  {
    CellRulesIdempotent(row[CompanyAt]);
    CellRulesIdempotent(row[DescriptionAt]);
  }
}
