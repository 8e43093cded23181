/**
 Sorting by an order on keys. sort.Slice promises a sorted permutation and nothing about equal
 keys, so callers of SortBy learn only that.
 */
module Sorting {
  import Sequences

  ghost predicate SortedBy<T(!new)>(xs: seq<T>, key: T -> int) {
    forall i, j :: 0 <= i < j < |xs| ==> key(xs[i]) <= key(xs[j])
  }

  ghost predicate DistinctBy<T(!new)>(xs: seq<T>, key: T -> int) {
    forall i, j :: 0 <= i < j < |xs| ==> key(xs[i]) != key(xs[j])
  }

  ghost predicate TotalOrder<T(!new)>(leq: (T, T) -> bool) {
    && (forall x, y :: leq(x, y) || leq(y, x))
    && (forall x, y, z :: leq(x, y) && leq(y, z) ==> leq(x, z))
  }

  ghost predicate Sorted<T(!new)>(xs: seq<T>, leq: (T, T) -> bool) {
    forall i, j :: 0 <= i < j < |xs| ==> leq(xs[i], xs[j])
  }

  method Sort<T(!new)>(xs: seq<T>, leq: (T, T) -> bool) returns (ys: seq<T>)
    requires TotalOrder(leq)
    ensures multiset(ys) == multiset(xs)
    ensures Sorted(ys, leq)
  {
    hide Sorted, TotalOrder;
    ys := [];
    NothingSorted(leq);
    for i := 0 to |xs|
      invariant multiset(ys) == multiset(xs[..i])
      invariant Sorted(ys, leq)
    {
      var j := |ys|;
      while j > 0 && !leq(ys[j - 1], xs[i])
        invariant 0 <= j <= |ys|
        invariant forall k :: j <= k < |ys| ==> !leq(ys[k], xs[i])
      {
        j := j - 1;
      }
      InsertKeepsOrder(ys, j, xs[i], leq);
      InsertAddsOne(ys, j, xs[i]);
      assert xs[..i + 1] == xs[..i] + [xs[i]];
      ys := ys[..j] + [xs[i]] + ys[j..];
    }
    assert xs[..|xs|] == xs;
  }

  lemma NothingSorted<T(!new)>(leq: (T, T) -> bool)
    ensures Sorted([], leq)
  {
  }

  lemma InsertAddsOne<T>(ys: seq<T>, j: nat, x: T)
    requires j <= |ys|
    ensures multiset(ys[..j] + [x] + ys[j..]) == multiset(ys) + multiset{x}
  {
    assert ys == ys[..j] + ys[j..];
  }

  lemma InsertKeepsOrder<T(!new)>(ys: seq<T>, j: nat, x: T, leq: (T, T) -> bool)
    requires TotalOrder(leq) && j <= |ys| && Sorted(ys, leq)
    requires forall k :: j <= k < |ys| ==> !leq(ys[k], x)
    requires j > 0 ==> leq(ys[j - 1], x)
    ensures Sorted(ys[..j] + [x] + ys[j..], leq)
  {
  }

  method SortBy<T(!new)>(xs: seq<T>, key: T -> int) returns (ys: seq<T>)
    ensures multiset(ys) == multiset(xs)
    ensures SortedBy(ys, key)
  {
    ys := Sort(xs, (x, y) => key(x) <= key(y));
  }

  // Text is ordered code point by code point, as Go orders the bytes of its UTF-8.

  predicate TextLeq(a: string, b: string) {
    a == "" || (b != "" && (a[0] < b[0] || (a[0] == b[0] && TextLeq(a[1..], b[1..]))))
  }

  /** The order of a dictionary: a prefix comes first, and otherwise the first difference decides. */
  lemma {:induction false} TextLeqMeans(a: string, b: string) returns (k: nat)
    ensures k <= |a| && k <= |b| && a[..k] == b[..k]
    ensures k < |a| && k < |b| ==> a[k] != b[k]
    ensures TextLeq(a, b) <==> k == |a| || (k < |b| && a[k] < b[k])
  {
    k := 0;
    if a != "" && b != "" && a[0] == b[0] {
      var rest := TextLeqMeans(a[1..], b[1..]);
      k := rest + 1;
      assert a[..k] == [a[0]] + a[1..][..rest] && b[..k] == [b[0]] + b[1..][..rest];
    }
  }

  lemma {:induction false} TextTotal(a: string, b: string)
    ensures TextLeq(a, b) || TextLeq(b, a)
  {
    if a != "" && b != "" {
      TextTotal(a[1..], b[1..]);
    }
  }

  lemma {:induction false} TextTransitive(a: string, b: string, c: string)
    requires TextLeq(a, b) && TextLeq(b, c)
    ensures TextLeq(a, c)
  {
    if a != "" && a[0] == b[0] == c[0] {
      TextTransitive(a[1..], b[1..], c[1..]);
    }
  }

  ghost predicate SortedByText<T(!new)>(xs: seq<T>, key: T -> string) {
    forall i, j :: 0 <= i < j < |xs| ==> TextLeq(key(xs[i]), key(xs[j]))
  }

  method SortByText<T(!new)>(xs: seq<T>, key: T -> string) returns (ys: seq<T>)
    ensures multiset(ys) == multiset(xs)
    ensures SortedByText(ys, key)
  {
    var leq := (x, y) => TextLeq(key(x), key(y));
    forall x: T, y: T ensures leq(x, y) || leq(y, x) {
      TextTotal(key(x), key(y));
    }
    forall x: T, y: T, z: T | leq(x, y) && leq(y, z) ensures leq(x, z) {
      TextTransitive(key(x), key(y), key(z));
    }
    ys := Sort(xs, leq);
  }

  /** The last entries of two sorted permutations agree when keys are distinct. */
  lemma SameLast<T(!new)>(xs: seq<T>, ys: seq<T>, key: T -> int)
    requires multiset(xs) == multiset(ys) && |xs| == |ys| > 0
    requires SortedBy(xs, key) && SortedBy(ys, key) && DistinctBy(xs, key)
    ensures xs[|xs| - 1] == ys[|ys| - 1]
  {
    Sequences.PermutationSameElements(xs, ys);
    var n := |xs| - 1;
    assert xs[n] in ys && ys[n] in xs;
    var i :| 0 <= i <= n && ys[i] == xs[n];
    var j :| 0 <= j <= n && xs[j] == ys[n];
  }

  /** Distinct keys leave a sort no choice. */
  lemma {:induction false} SortUnique<T(!new)>(xs: seq<T>, ys: seq<T>, key: T -> int)
    requires multiset(xs) == multiset(ys)
    requires SortedBy(xs, key) && SortedBy(ys, key) && DistinctBy(xs, key)
    ensures xs == ys
  {
    hide SortedBy, DistinctBy;
    assert |xs| == |multiset(xs)| == |multiset(ys)| == |ys|;
    if xs != [] {
      var n := |xs| - 1;
      SameLast(xs, ys, key);
      FrontMultiset(xs);
      FrontMultiset(ys);
      FrontSorted(xs, key);
      FrontSorted(ys, key);
      SortUnique(xs[..n], ys[..n], key);
      assert xs == xs[..n] + [xs[n]];
      assert ys == ys[..n] + [ys[n]];
    }
  }

  lemma FrontMultiset<T>(xs: seq<T>)
    requires xs != []
    ensures multiset(xs[..|xs| - 1]) == multiset(xs) - multiset{xs[|xs| - 1]}
  {
    assert xs == xs[..|xs| - 1] + [xs[|xs| - 1]];
  }

  lemma FrontSorted<T(!new)>(xs: seq<T>, key: T -> int)
    requires xs != []
    ensures SortedBy(xs, key) ==> SortedBy(xs[..|xs| - 1], key)
    ensures DistinctBy(xs, key) ==> DistinctBy(xs[..|xs| - 1], key)
  {
  }

  /** Distinctness by key survives reordering. */
  lemma DistinctByPermutes<T(!new)>(xs: seq<T>, ys: seq<T>, key: T -> int)
    requires multiset(xs) == multiset(ys) && DistinctBy(xs, key)
    ensures DistinctBy(ys, key)
  {
    Sequences.PermutationSameElements(xs, ys);
    forall i, j | 0 <= i < j < |xs| ensures xs[i] != xs[j] {
      assert key(xs[i]) != key(xs[j]);
    }
    Sequences.PermutationKeepsDistinct(xs, ys);
    forall i, j | 0 <= i < j < |ys| ensures key(ys[i]) != key(ys[j]) {
      assert ys[i] in xs && ys[j] in xs && ys[i] != ys[j];
      var a :| 0 <= a < |xs| && xs[a] == ys[i];
      var b :| 0 <= b < |xs| && xs[b] == ys[j];
      assert a != b;
      if a < b {
        assert key(xs[a]) != key(xs[b]);
      } else {
        assert key(xs[b]) != key(xs[a]);
      }
    }
  }
}
