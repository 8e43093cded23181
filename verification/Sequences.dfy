/** Vocabulary for lists used as sets: distinctness, filtering, and what survives a permutation. */
module Sequences {

  ghost predicate Distinct<T>(xs: seq<T>) {
    forall i, j :: 0 <= i < j < |xs| ==> xs[i] != xs[j]
  }

  function ToSet<T>(xs: seq<T>): set<T> {
    set x | x in xs
  }

  function Filter<T(!new)>(xs: seq<T>, keep: T -> bool): (r: seq<T>)
    ensures forall x :: x in r <==> x in xs && keep(x)
  {
    if xs == [] then []
    else
      var x := xs[|xs| - 1];
      assert xs == xs[..|xs| - 1] + [x];
      Filter(xs[..|xs| - 1], keep) + if keep(x) then [x] else []
  }

  /** One more element, in the order a loop meets it. */
  lemma FilterStep<T(!new)>(xs: seq<T>, i: nat, keep: T -> bool)
    requires i < |xs|
    ensures Filter(xs[..i + 1], keep) == Filter(xs[..i], keep) + if keep(xs[i]) then [xs[i]] else []
  {
    assert xs[..i + 1][..i] == xs[..i];
  }

  lemma FilterConcat<T(!new)>(xs: seq<T>, ys: seq<T>, keep: T -> bool)
    ensures Filter(xs + ys, keep) == Filter(xs, keep) + Filter(ys, keep)
  {
    if ys == [] {
      assert xs + ys == xs;
    } else {
      assert (xs + ys)[..|xs + ys| - 1] == xs + ys[..|ys| - 1];
      FilterConcat(xs, ys[..|ys| - 1], keep);
    }
  }

  /** A test that fails throughout keeps nothing, one that holds throughout keeps everything. */
  lemma {:induction false} FilterUniform<T(!new)>(xs: seq<T>, keep: T -> bool)
    ensures (forall i :: 0 <= i < |xs| ==> !keep(xs[i])) ==> Filter(xs, keep) == []
    ensures (forall i :: 0 <= i < |xs| ==> keep(xs[i])) ==> Filter(xs, keep) == xs
  {
    if xs != [] {
      FilterUniform(xs[..|xs| - 1], keep);
      assert xs == xs[..|xs| - 1] + [xs[|xs| - 1]];
    }
  }

  /** Filtering commutes with reordering: it keeps every copy of what it keeps. */
  lemma {:induction false} FilterMultiplicity<T(!new)>(xs: seq<T>, keep: T -> bool, x: T)
    ensures multiset(Filter(xs, keep))[x] == if keep(x) then multiset(xs)[x] else 0
  {
    if xs != [] {
      FilterMultiplicity(xs[..|xs| - 1], keep, x);
      assert xs == xs[..|xs| - 1] + [xs[|xs| - 1]];
    }
  }

  lemma FilterPermutes<T(!new)>(xs: seq<T>, ys: seq<T>, keep: T -> bool)
    requires multiset(xs) == multiset(ys)
    ensures multiset(Filter(xs, keep)) == multiset(Filter(ys, keep))
    ensures |Filter(xs, keep)| == |Filter(ys, keep)|
  {
    forall x: T ensures multiset(Filter(xs, keep))[x] == multiset(Filter(ys, keep))[x] {
      FilterMultiplicity(xs, keep, x);
      FilterMultiplicity(ys, keep, x);
    }
    assert |Filter(xs, keep)| == |multiset(Filter(xs, keep))|;
    assert |Filter(ys, keep)| == |multiset(Filter(ys, keep))|;
  }

  lemma FilterEmpty<T(!new)>(keep: T -> bool)
    ensures Filter([], keep) == []
  {
  }

  lemma FilterOne<T(!new)>(x: T, keep: T -> bool)
    ensures Filter([x], keep) == if keep(x) then [x] else []
  {
  }

  /** Splitting a list in two by a test and putting the parts together again only reorders it. */
  lemma FilterPartition<T(!new)>(xs: seq<T>, keep: T -> bool, drop: T -> bool)
    requires forall x: T :: keep(x) != drop(x)
    ensures multiset(Filter(xs, keep) + Filter(xs, drop)) == multiset(xs)
    ensures multiset(Filter(xs, drop) + Filter(xs, keep)) == multiset(xs)
  {
    var yes, no := Filter(xs, keep), Filter(xs, drop);
    forall x: T ensures multiset(yes)[x] + multiset(no)[x] == multiset(xs)[x] {
      FilterMultiplicity(xs, keep, x);
      FilterMultiplicity(xs, drop, x);
    }
    assert multiset(yes + no) == multiset(yes) + multiset(no);
    assert multiset(no + yes) == multiset(yes) + multiset(no);
  }

  /** Every two entries are apart. */
  ghost predicate Pairwise<T(!new)>(xs: seq<T>, apart: (T, T) -> bool) {
    forall i, j :: 0 <= i < j < |xs| ==> apart(xs[i], xs[j])
  }

  lemma PairwisePermutes<T(!new)>(xs: seq<T>, ys: seq<T>, apart: (T, T) -> bool)
    requires multiset(xs) == multiset(ys) && Pairwise(xs, apart)
    requires forall x: T, y: T :: apart(x, y) ==> apart(y, x) && x != y
    ensures Pairwise(ys, apart)
  {
    PermutationSameElements(xs, ys);
    assert Distinct(xs);
    PermutationKeepsDistinct(xs, ys);
    forall i, j | 0 <= i < j < |ys| ensures apart(ys[i], ys[j]) {
      assert ys[i] in xs && ys[j] in xs && ys[i] != ys[j];
      var a :| 0 <= a < |xs| && xs[a] == ys[i];
      var b :| 0 <= b < |xs| && xs[b] == ys[j];
      if a < b {
        assert apart(xs[a], xs[b]);
      } else {
        assert apart(xs[b], xs[a]);
      }
    }
  }

  lemma FilterPairwise<T(!new)>(xs: seq<T>, keep: T -> bool, apart: (T, T) -> bool)
    requires Pairwise(xs, apart)
    ensures Pairwise(Filter(xs, keep), apart)
  {
    if xs != [] {
      var front, last := xs[..|xs| - 1], xs[|xs| - 1];
      assert xs == front + [last];
      FilterPairwise(front, keep, apart);
      var kept := Filter(front, keep);
      forall i | 0 <= i < |kept| ensures apart(kept[i], last) {
        assert kept[i] in front;
        var j :| 0 <= j < |front| && front[j] == kept[i];
        assert apart(xs[j], xs[|xs| - 1]);
      }
    }
  }

  /** A permutation moves elements around and nothing else. */
  lemma PermutationSameElements<T(!new)>(xs: seq<T>, ys: seq<T>)
    requires multiset(xs) == multiset(ys)
    ensures |xs| == |ys|
    ensures forall x :: x in xs <==> x in ys
  {
    assert |xs| == |multiset(xs)| == |multiset(ys)| == |ys|;
    forall x ensures x in xs <==> x in ys {
      assert x in xs <==> x in multiset(xs);
      assert x in ys <==> x in multiset(ys);
    }
  }

  /** Distinctness as multiplicities: what makes it survive reordering. */
  lemma DistinctIffMultiplicities<T(!new)>(xs: seq<T>)
    ensures Distinct(xs) <==> forall x :: multiset(xs)[x] <= 1
  {
    if xs != [] {
      var front, last := xs[..|xs| - 1], xs[|xs| - 1];
      assert xs == front + [last];
      DistinctIffMultiplicities(front);
      assert last in front <==> last in multiset(front);
      if Distinct(front) && last !in front {
        forall x ensures multiset(xs)[x] <= 1 {
          assert multiset(xs)[x] == multiset(front)[x] + multiset([last])[x];
        }
      } else if last in front {
        assert multiset(xs)[last] == multiset(front)[last] + 1;
        var i :| 0 <= i < |front| && front[i] == last;
        assert xs[i] == xs[|xs| - 1];
      } else {
        var x :| multiset(front)[x] > 1;
        assert multiset(xs)[x] >= multiset(front)[x];
      }
    }
  }

  lemma PermutationKeepsDistinct<T(!new)>(xs: seq<T>, ys: seq<T>)
    requires multiset(xs) == multiset(ys)
    ensures Distinct(xs) <==> Distinct(ys)
  {
    DistinctIffMultiplicities(xs);
    DistinctIffMultiplicities(ys);
  }

  /** A duplicate-free list has as many entries as members. */
  lemma {:induction false} DistinctLength<T>(xs: seq<T>)
    ensures |ToSet(xs)| <= |xs|
    ensures |ToSet(xs)| == |xs| <==> Distinct(xs)
  {
    if xs != [] {
      var front, last := xs[..|xs| - 1], xs[|xs| - 1];
      assert xs == front + [last];
      DistinctLength(front);
      assert ToSet(xs) == ToSet(front) + {last};
      if last in front {
        assert ToSet(xs) == ToSet(front);
        var i :| 0 <= i < |front| && front[i] == last;
        assert xs[i] == xs[|xs| - 1];
      } else {
        assert last !in ToSet(front);
        assert Distinct(xs) <==> Distinct(front) by {
          if Distinct(xs) {
            forall i, j | 0 <= i < j < |front| ensures front[i] != front[j] {
              assert xs[i] != xs[j];
            }
          }
        }
      }
    }
  }

  lemma DistinctEmpty<T>()
    ensures Distinct<T>([])
  {
  }

  lemma DistinctAppend<T>(xs: seq<T>, x: T)
    requires Distinct(xs) && x !in xs
    ensures Distinct(xs + [x])
  {
  }

  /** Two duplicate-free lists of the same elements are permutations of each other. */
  lemma DistinctSameElements<T(!new)>(xs: seq<T>, ys: seq<T>)
    requires Distinct(xs) && Distinct(ys) && forall x :: x in xs <==> x in ys
    ensures multiset(xs) == multiset(ys)
  {
    DistinctIffMultiplicities(xs);
    DistinctIffMultiplicities(ys);
    forall x ensures multiset(xs)[x] == multiset(ys)[x] {
      assert x in multiset(xs) <==> x in xs;
      assert x in multiset(ys) <==> x in ys;
    }
  }
}
