/**
 * The pandas DataFrame that `transform_data` works on: an ordered list of
 * column names, one vector of cells per column, and a common row count.
 * Assigning a column (`df[name] = values`) replaces it in place when the name
 * exists and appends it at the end otherwise, which is what decides the
 * column order of the transformed file.
 */
module Frame {
  import opened Cells
  import opened Schema

  /** Position of `name` in `names`. */
  function IndexOf(names: seq<string>, name: string): (k: nat)
    requires name in names
    ensures k < |names| && names[k] == name
    ensures name !in names[..k]
  {
    if names[0] == name then 0
    else
      var k := IndexOf(names[1..], name);
      assert names[..k + 1] == [names[0]] + names[1..][..k];
      k + 1
  }

  /** The column names after `df[name] = ...`: an existing name stays where it is, a new one goes last. */
  function Assigned(names: seq<string>, name: string): (r: seq<string>)
    ensures name in r
    ensures forall n :: n in r <==> n in names || n == name
  {
    if name in names then names else names + [name]
  }

  /** With distinct names, a name is found at the one position that holds it. */
  lemma IndexOfDistinct(names: seq<string>, j: int)
    requires Distinct(names) && 0 <= j < |names|
    ensures IndexOf(names, names[j]) == j
  {
  }

  /** Column `k` of a table given row by row. */
  function ColumnOf(rows: seq<seq<Value>>, k: nat): (c: seq<Value>)
    requires forall r :: 0 <= r < |rows| ==> k < |rows[r]|
    ensures |c| == |rows|
    ensures forall r :: 0 <= r < |rows| ==> c[r] == rows[r][k]
  {
    seq(|rows|, r requires 0 <= r < |rows| => rows[r][k])
  }

  /** Rows of a frame given column by column: row r lists cell r of every column, in column order. */
  function RowsOf(cols: seq<seq<Value>>, height: nat): (rows: seq<seq<Value>>)
    requires forall j :: 0 <= j < |cols| ==> |cols[j]| == height
    ensures |rows| == height
    ensures forall r :: 0 <= r < height ==> |rows[r]| == |cols|
    ensures forall r, j :: 0 <= r < height && 0 <= j < |cols| ==> rows[r][j] == cols[j][r]
  {
    seq(height, r requires 0 <= r < height => seq(|cols|, j requires 0 <= j < |cols| => cols[j][r]))
  }

  class DataFrame {
    var columns: seq<string>
    var cols: seq<seq<Value>>
    var height: nat

    ghost predicate Valid()
      reads this
    {
      && Distinct(columns)
      && |cols| == |columns|
      && forall j :: 0 <= j < |cols| ==> |cols[j]| == height
    }

    /**
     * The frame `pd.read_csv` yields for a file with this header and these
     * rows of cells (the parsing itself is not part of this model).
     */
    constructor (header: seq<string>, rows: seq<seq<Value>>)
      requires Distinct(header)
      requires forall r :: 0 <= r < |rows| ==> |rows[r]| == |header|
      ensures Valid() && columns == header && height == |rows|
      ensures forall j, r :: 0 <= j < |header| && 0 <= r < |rows| ==> cols[j][r] == rows[r][j]
      ensures Rows() == rows
    {
      columns := header;
      height := |rows|;
      cols := seq(|header|, j requires 0 <= j < |header| => seq(|rows|, r requires 0 <= r < |rows| => rows[r][j]));
      new;
      assert forall r :: 0 <= r < |rows| ==> Rows()[r] == rows[r];
    }

    /** The frame row by row, as `to_csv` writes it (after the header line). */
    function Rows(): (rows: seq<seq<Value>>)
      reads this
      requires Valid()
      ensures |rows| == height
      ensures forall r :: 0 <= r < height ==> |rows[r]| == |columns|
    {
      RowsOf(cols, height)
    }

    /** `df[name]`: the column's cells, which are that column's cell in every row. */
    function Column(name: string): (c: seq<Value>)
      reads this
      requires Valid() && name in columns
      ensures |c| == height
      ensures c == ColumnOf(Rows(), IndexOf(columns, name))
    {
      cols[IndexOf(columns, name)]
    }

    /**
     * `df[name] = values`: an existing column is replaced where it stands, a
     * new one is appended after the last column; no other column changes.
     */
    method SetColumn(name: string, values: seq<Value>)
      requires Valid() && |values| == height
      modifies this
      ensures Valid() && height == old(height)
      ensures columns == Assigned(old(columns), name)
      ensures forall j :: 0 <= j < |columns| && columns[j] == name ==> cols[j] == values
      ensures forall j :: 0 <= j < |columns| && columns[j] != name ==> j < |old(cols)| && cols[j] == old(cols)[j]
    {
      if name in columns {
        var k := IndexOf(columns, name);
        IndexOfDistinct(columns, k);
        cols := cols[k := values];
      } else {
        columns := columns + [name];
        cols := cols + [values];
      }
    }
  }
}
