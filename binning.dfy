/**
 * `pd.cut(values, bins, labels)` with its default right-closed bins, and the
 * leave categorisation built from it: bins (-1, 0], (0, 2], (2, +inf)
 * labelled Low, Medium, High. `Leave` is an integer column, so the infinite
 * top edge is an unbounded bin rather than a float.
 */
module Binning {
  import opened Wrappers

  /** A bin edge: a finite integer or positive infinity. */
  datatype Edge = Finite(n: int) | PosInf

  /** `x` lies strictly above the edge (every bin is open on the left). */
  predicate Above(x: int, e: Edge) {
    e.Finite? && e.n < x
  }

  /** `x` lies at or below the edge (every bin is closed on the right). */
  predicate AtMost(x: int, e: Edge) {
    e.PosInf? || x <= e.n
  }

  /** `x` falls in bin `i`, the interval (edges[i], edges[i + 1]]. */
  predicate InBin(x: int, edges: seq<Edge>, i: int) {
    0 <= i && i + 1 < |edges| && Above(x, edges[i]) && AtMost(x, edges[i + 1])
  }

  /**
   * The index of the bin `x` falls in, or None when it falls in none (below the
   * first edge, on the first edge, or above the last finite edge).
   */
  function BinIndex(x: int, edges: seq<Edge>): (r: Option<nat>)
    ensures r.Some? ==> InBin(x, edges, r.value)
    ensures r.Some? ==> forall j :: 0 <= j < r.value ==> !InBin(x, edges, j)
    ensures r.None? ==> forall j :: !InBin(x, edges, j)
    decreases |edges|
  {
    if |edges| < 2 then None
    else if Above(x, edges[0]) && AtMost(x, edges[1]) then Some(0)
    else
      assert forall j :: 0 <= j ==> (InBin(x, edges[1..], j) <==> InBin(x, edges, j + 1));
      assert forall j :: 1 <= j ==> (InBin(x, edges, j) <==> InBin(x, edges[1..], j - 1));
      match BinIndex(x, edges[1..])
      case Some(i) => Some(i + 1)
      case None => None
  }

  /** The edges are strictly increasing, as `pd.cut` demands of explicit bins. */
  predicate Increasing(edges: seq<Edge>) {
    forall i :: 0 <= i < |edges| - 1 ==> edges[i].Finite? && (edges[i + 1].Finite? ==> edges[i].n < edges[i + 1].n)
  }

  /** With increasing edges the bins are disjoint: a value lies in at most one of them. */
  lemma {:induction false} BinsDisjoint(x: int, edges: seq<Edge>, i: int, j: int)
    requires Increasing(edges)
    requires InBin(x, edges, i) && InBin(x, edges, j)
    ensures i == j
  {
    if i != j {
      var lo, hi := if i < j then i else j, if i < j then j else i;
      EdgesOrdered(edges, lo + 1, hi);
    }
  }

  lemma {:induction false} EdgesOrdered(edges: seq<Edge>, a: int, b: int)
    requires Increasing(edges)
    requires 0 <= a <= b < |edges| - 1
    ensures edges[a].Finite? && edges[b].Finite? && edges[a].n <= edges[b].n
    decreases b - a
  {
    if a < b {
      EdgesOrdered(edges, a + 1, b);
    }
  }

  const LeaveBins: seq<Edge> := [Finite(-1), Finite(0), Finite(2), PosInf]
  const LeaveLabels: seq<string> := ["Low", "Medium", "High"]

  /** The leave bins satisfy `pd.cut`'s demand, so they never overlap. */
  lemma LeaveBinsIncreasing()
    ensures Increasing(LeaveBins)
  {
  }

  /** The leave category of one `Leave` value, None where `pd.cut` gives NaN. */
  function LeaveCategory(leave: int): (c: Option<string>)
    ensures c.Some? ==> c.value in LeaveLabels
  {
    match BinIndex(leave, LeaveBins)
    case Some(i) => Some(LeaveLabels[i])
    case None => None
  }

  /**
   * The bin boundaries: -1 and below get no category, 0 is Low, 1 and 2 are
   * Medium, 3 and above are High.
   */
  lemma LeaveCategoryBoundaries(leave: int)
    ensures leave <= -1 ==> LeaveCategory(leave) == None
    ensures leave == 0 ==> LeaveCategory(leave) == Some("Low")
    ensures 1 <= leave <= 2 ==> LeaveCategory(leave) == Some("Medium")
    ensures 3 <= leave ==> LeaveCategory(leave) == Some("High")
  {
    var r := BinIndex(leave, LeaveBins);
    if leave <= -1 {
      assert !InBin(leave, LeaveBins, 0);
    } else if leave == 0 {
      assert InBin(leave, LeaveBins, 0);
    } else if leave <= 2 {
      assert InBin(leave, LeaveBins, 1) && !InBin(leave, LeaveBins, 0);
    } else {
      assert InBin(leave, LeaveBins, 2) && !InBin(leave, LeaveBins, 0) && !InBin(leave, LeaveBins, 1);
    }
  }

  /** Position of a category in Low < Medium < High. */
  function Rank(category: string): nat {
    if category == "Low" then 0 else if category == "Medium" then 1 else 2
  }

  /** The categorisation is monotone: more leave never gives a lower category. */
  lemma LeaveCategoryMonotone(a: int, b: int)
    requires a <= b
    requires LeaveCategory(a).Some?
    ensures LeaveCategory(b).Some?
    ensures Rank(LeaveCategory(a).value) <= Rank(LeaveCategory(b).value)
  {
    LeaveCategoryBoundaries(a);
    LeaveCategoryBoundaries(b);
  }
}
