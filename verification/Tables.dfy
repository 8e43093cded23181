/** What every report shares (nns/table.go): one row per item, in any order, and drift when some row is not OK. */
module Tables {
  import Sequences

  ghost predicate Drifts<R(!new)>(rows: seq<R>, ok: R -> bool) {
    exists r :: r in rows && !ok(r)
  }

  method HasDrift<R(!new)>(rows: seq<R>, ok: R -> bool) returns (drift: bool)
    ensures drift <==> Drifts(rows, ok)
  {
    for i := 0 to |rows|
      invariant forall j :: 0 <= j < i ==> ok(rows[j])
    {
      if !ok(rows[i]) {
        return true;
      }
    }
    return false;
  }

  /** One row per item, in step. */
  ghost predicate InStep<R, N>(rows: seq<R>, items: seq<N>, isRow: (R, N) -> bool) {
    |rows| == |items| && forall i :: 0 <= i < |rows| ==> isRow(rows[i], items[i])
  }

  /** The rows of these items, reordered. */
  ghost predicate IsReport<R(!new), N>(rows: seq<R>, items: seq<N>, isRow: (R, N) -> bool) {
    exists unsorted :: multiset(rows) == multiset(unsorted) && InStep(unsorted, items, isRow)
  }

  /** The item a row is about. */
  lemma ItemOfRow<R(!new), N>(rows: seq<R>, items: seq<N>, isRow: (R, N) -> bool, r: R) returns (n: N)
    requires IsReport(rows, items, isRow) && r in rows
    ensures n in items && isRow(r, n)
  {
    var unsorted :| multiset(rows) == multiset(unsorted) && InStep(unsorted, items, isRow);
    Sequences.PermutationSameElements(rows, unsorted);
    var i :| 0 <= i < |unsorted| && unsorted[i] == r;
    n := items[i];
  }

  /** The row about an item. */
  lemma RowOfItem<R(!new), N>(rows: seq<R>, items: seq<N>, isRow: (R, N) -> bool, n: N) returns (r: R)
    requires IsReport(rows, items, isRow) && n in items
    ensures r in rows && isRow(r, n)
  {
    var unsorted :| multiset(rows) == multiset(unsorted) && InStep(unsorted, items, isRow);
    Sequences.PermutationSameElements(rows, unsorted);
    var i :| 0 <= i < |items| && items[i] == n;
    r := unsorted[i];
    assert r in unsorted;
  }
}
