/**
 * Cell values of the employee data frame and the per-cell rules of
 * `transform_data`: `.str.title()`, `.str.capitalize()` and the leave
 * categorisation of `pd.cut`. A missing cell (pandas NaN, SQL NULL) is `Null`.
 */
module Cells {
  import opened Wrappers
  import PyStr
  import Binning

  datatype Value = Null | Int(i: int) | Str(s: string)

  /** `.str.title()` on one cell: text is title-cased, anything else becomes NaN. */
  function TitleCell(v: Value): (r: Value)
    ensures v.Str? ==> r == Str(PyStr.Title(v.s))
    ensures !v.Str? ==> r == Null
  {
    match v
    case Str(s) => Str(PyStr.Title(s))
    case _ => Null
  }

  /** `.str.capitalize()` on one cell: text is capitalized, anything else becomes NaN. */
  function CapitalizeCell(v: Value): (r: Value)
    ensures v.Str? ==> r == Str(PyStr.Capitalize(v.s))
    ensures !v.Str? ==> r == Null
  {
    match v
    case Str(s) => Str(PyStr.Capitalize(s))
    case _ => Null
  }

  /** `pd.cut` of one `Leave` cell into its category label; NaN when it fits no bin or is missing. */
  function CategoryCell(v: Value): (r: Value)
    ensures r == Null || r == Str("Low") || r == Str("Medium") || r == Str("High")
    ensures r != Null ==> v.Int?
  {
    match v
    case Int(x) => (match Binning.LeaveCategory(x) case Some(c) => Str(c) case None => Null)
    case _ => Null
  }

  /** The cell rules are idempotent: applying one to its own output changes nothing. */
  lemma CellRulesIdempotent(v: Value)
    ensures TitleCell(TitleCell(v)) == TitleCell(v)
    ensures CapitalizeCell(CapitalizeCell(v)) == CapitalizeCell(v)
  {
    if v.Str? {
      PyStr.TitleIdempotent(v.s);
      PyStr.CapitalizeIdempotent(v.s);
    }
  }

  /**
   * The category cell for a `Leave` cell: missing or -1 and below give none,
   * 0 gives Low, 1 and 2 give Medium, 3 and above give High.
   */
  lemma CategoryCellBoundaries(v: Value)
    ensures !v.Int? ==> CategoryCell(v) == Null
    ensures v.Int? && v.i <= -1 ==> CategoryCell(v) == Null
    ensures v.Int? && v.i == 0 ==> CategoryCell(v) == Str("Low")
    ensures v.Int? && 1 <= v.i <= 2 ==> CategoryCell(v) == Str("Medium")
    ensures v.Int? && 3 <= v.i ==> CategoryCell(v) == Str("High")
  {
    if v.Int? {
      Binning.LeaveCategoryBoundaries(v.i);
    }
  }

  /**
   * Whether pandas lets `.str` be used on a column read from a CSV file: the
   * column was read as text, which it is when some cell holds text or when
   * there are no rows at all. A column of numbers or of missing cells only is
   * read with a numeric type, and `.str` raises `AttributeError` on it.
   */
  predicate TextColumn(column: seq<Value>) {
    |column| == 0 || exists k :: 0 <= k < |column| && column[k].Str?
  }

  /** Whether `pd.cut` can compare every cell with the bin edges: it raises `TypeError` on text. */
  predicate NumericColumn(column: seq<Value>) {
    forall k :: 0 <= k < |column| ==> !column[k].Str?
  }

  /** A whole column with a per-cell rule applied, as pandas' vectorised operations do. */
  function MapColumn(f: Value -> Value, column: seq<Value>): (r: seq<Value>)
    ensures |r| == |column|
    ensures forall k :: 0 <= k < |column| ==> r[k] == f(column[k])
  {
    seq(|column|, k requires 0 <= k < |column| => f(column[k]))
  }

  /** A scalar broadcast to a column of `n` rows, as `df[name] = scalar` does. */
  function Broadcast(n: nat, v: Value): (r: seq<Value>)
    ensures |r| == n
    ensures forall k :: 0 <= k < n ==> r[k] == v
  {
    seq(n, _ => v)
  }
}
