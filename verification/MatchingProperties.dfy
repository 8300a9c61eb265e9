/** For an equivalence relation the greedy search is exact: it succeeds precisely when the elements of the
    two lists can be paired off. */
module MatchingProperties {
  import opened Basics
  import opened Matching

  ghost predicate Equivalence<T(!new)>(eq: (T, T) -> bool) {
    && (forall x :: eq(x, x))
    && (forall x, y :: eq(x, y) ==> eq(y, x))
    && (forall x, y, z :: eq(x, y) && eq(y, z) ==> eq(x, z))
  }

  /** How many elements of `s` the element `x` equals. */
  function Count<T>(x: T, s: seq<T>, eq: (T, T) -> bool): nat {
    if s == [] then 0 else (if eq(x, s[0]) then 1 else 0) + Count(x, s[1..], eq)
  }

  ghost predicate SameCounts<T(!new)>(a: seq<T>, b: seq<T>, eq: (T, T) -> bool) {
    forall x :: Count(x, a, eq) == Count(x, b, eq)
  }

  /** `p` sends every position of `a` to its own position of `b`, where an equal element stands. */
  ghost predicate Pairs<T>(a: seq<T>, b: seq<T>, p: seq<nat>, eq: (T, T) -> bool) {
    && |p| == |a| == |b|
    && (forall i | 0 <= i < |p| :: p[i] < |b| && eq(a[i], b[p[i]]))
    && NoDup(p)
  }

  ghost predicate CanPair<T>(a: seq<T>, b: seq<T>, eq: (T, T) -> bool) {
    exists p: seq<nat> :: Pairs(a, b, p, eq)
  }

  lemma {:induction false} DropCount<T>(x: T, s: seq<T>, k: nat, eq: (T, T) -> bool)
    requires k < |s|
    ensures Count(x, s, eq) == Count(x, Drop(s, k), eq) + if eq(x, s[k]) then 1 else 0
  {
    if k == 0 {
      assert Drop(s, 0) == s[1..];
    } else {
      DropCount(x, s[1..], k - 1, eq);
      assert Drop(s, k)[1..] == Drop(s[1..], k - 1);
    }
  }

  lemma {:induction false} RemoveFirstDrops<T>(x: T, s: seq<T>, eq: (T, T) -> bool) returns (k: nat)
    requires RemoveFirst(x, s, eq).Some?
    ensures k < |s| && eq(x, s[k]) && RemoveFirst(x, s, eq).value == Drop(s, k)
  {
    if eq(x, s[0]) {
      k := 0;
    } else {
      var k' := RemoveFirstDrops(x, s[1..], eq);
      k := k' + 1;
      assert [s[0]] + Drop(s[1..], k') == Drop(s, k);
    }
  }

  lemma {:induction false} RemoveFirstFails<T>(x: T, s: seq<T>, eq: (T, T) -> bool)
    ensures RemoveFirst(x, s, eq) == None <==> Count(x, s, eq) == 0
  {
    if s != [] {
      RemoveFirstFails(x, s[1..], eq);
    }
  }

  // ----- greedy success, equal counts and pairings are the same thing -----

  lemma HeadRemoved<T(!new)>(a: seq<T>, b: seq<T>, k: nat, eq: (T, T) -> bool)
    requires Equivalence(eq) && a != [] && k < |b| && eq(a[0], b[k])
    ensures SameCounts(a, b, eq) <==> SameCounts(a[1..], Drop(b, k), eq)
  {
    forall x
      ensures Count(x, a, eq) == Count(x, b, eq) <==> Count(x, a[1..], eq) == Count(x, Drop(b, k), eq)
    {
      DropCount(x, b, k, eq);
      assert eq(x, a[0]) <==> eq(x, b[k]);
    }
    if SameCounts(a, b, eq) {
      assert forall x :: Count(x, a, eq) == Count(x, b, eq);
    } else {
      var x :| Count(x, a, eq) != Count(x, b, eq);
      assert Count(x, a[1..], eq) != Count(x, Drop(b, k), eq);
    }
  }

  lemma {:induction false} GreedyIffCounts<T(!new)>(a: seq<T>, b: seq<T>, eq: (T, T) -> bool)
    requires Equivalence(eq) && |a| == |b|
    ensures Greedy(a, b, eq) <==> SameCounts(a, b, eq)
  {
    if a != [] {
      RemoveFirstFails(a[0], b, eq);
      if RemoveFirst(a[0], b, eq).Some? {
        var k := RemoveFirstDrops(a[0], b, eq);
        HeadRemoved(a, b, k, eq);
        GreedyIffCounts(a[1..], Drop(b, k), eq);
      } else {
        assert Count(a[0], a, eq) > 0;
      }
    }
  }

  lemma {:induction false} PairsGiveCounts<T(!new)>(a: seq<T>, b: seq<T>, p: seq<nat>, eq: (T, T) -> bool)
    requires Equivalence(eq) && Pairs(a, b, p, eq)
    ensures SameCounts(a, b, eq)
  {
    if a != [] {
      var k := p[0];
      var q := seq(|p| - 1, i requires 0 <= i < |p| - 1 => if p[i + 1] < k then p[i + 1] else p[i + 1] - 1);
      assert Pairs(a[1..], Drop(b, k), q, eq);
      PairsGiveCounts(a[1..], Drop(b, k), q, eq);
      HeadRemoved(a, b, k, eq);
    }
  }

  lemma {:induction false} GreedyPairs<T>(a: seq<T>, b: seq<T>, eq: (T, T) -> bool) returns (p: seq<nat>)
    requires |a| == |b| && Greedy(a, b, eq)
    ensures Pairs(a, b, p, eq)
  {
    if a == [] {
      p := [];
    } else {
      var k := RemoveFirstDrops(a[0], b, eq);
      var q := GreedyPairs(a[1..], Drop(b, k), eq);
      p := [k] + Shift(q, k);
      PairsOfRest(a, b, k, q, eq);
    }
  }

  /** Positions of a list without its element at `k`, as positions of the whole list. */
  function Shift(q: seq<nat>, k: nat): (r: seq<nat>)
    ensures |r| == |q| && forall i | 0 <= i < |q| :: r[i] == if q[i] < k then q[i] else q[i] + 1
  {
    seq(|q|, i requires 0 <= i < |q| => if q[i] < k then q[i] else q[i] + 1)
  }

  lemma PairsOfRest<T>(a: seq<T>, b: seq<T>, k: nat, q: seq<nat>, eq: (T, T) -> bool)
    requires a != [] && k < |b| && eq(a[0], b[k]) && Pairs(a[1..], Drop(b, k), q, eq)
    ensures Pairs(a, b, [k] + Shift(q, k), eq)
  {
    var p := [k] + Shift(q, k);
    forall i | 0 <= i < |q| ensures Shift(q, k)[i] < |b| && eq(a[i + 1], b[Shift(q, k)[i]]) {
      DropAt(b, k, q[i]);
    }
    ShiftDistinct(q, k);
  }

  lemma DropAt<T>(s: seq<T>, k: nat, j: nat)
    requires k < |s| && j < |s| - 1
    ensures |Drop(s, k)| == |s| - 1 && Drop(s, k)[j] == s[if j < k then j else j + 1]
  {
  }

  lemma ShiftDistinct(q: seq<nat>, k: nat)
    requires NoDup(q)
    ensures NoDup([k] + Shift(q, k))
  {
  }

  /** The comparison answers true exactly when the elements can be paired off, which is exactly when every
      class of equal elements has as many members in one list as in the other. */
  lemma CompareExact<T(!new)>(a: seq<T>, b: seq<T>, eq: (T, T) -> bool)
    requires Equivalence(eq)
    ensures Matches(Items(a), Items(b), eq) <==> CanPair(a, b, eq)
    ensures Matches(Items(a), Items(b), eq) <==> |a| == |b| && SameCounts(a, b, eq)
  {
    if |a| == |b| {
      GreedyIffCounts(a, b, eq);
      if Greedy(a, b, eq) {
        var p := GreedyPairs(a, b, eq);
      }
      if p: seq<nat> :| Pairs(a, b, p, eq) {
        PairsGiveCounts(a, b, p, eq);
      }
    }
  }

  // ----- consequences -----

  lemma MatchesReflexive<T(!new)>(a: Slice<T>, eq: (T, T) -> bool)
    requires Equivalence(eq) && !a.NotIterable?
    ensures Matches(a, a, eq)
  {
    if a.Items? {
      CompareExact(a.elems, a.elems, eq);
    }
  }

  lemma MatchesSymmetric<T(!new)>(a: Slice<T>, b: Slice<T>, eq: (T, T) -> bool)
    requires Equivalence(eq) && Matches(a, b, eq)
    ensures Matches(b, a, eq)
  {
    if a.Items? {
      CompareExact(a.elems, b.elems, eq);
      CompareExact(b.elems, a.elems, eq);
      assert SameCounts(b.elems, a.elems, eq);
    }
  }

  lemma MatchesTransitive<T(!new)>(a: Slice<T>, b: Slice<T>, c: Slice<T>, eq: (T, T) -> bool)
    requires Equivalence(eq) && Matches(a, b, eq) && Matches(b, c, eq)
    ensures Matches(a, c, eq)
  {
    if a.Items? {
      CompareExact(a.elems, b.elems, eq);
      CompareExact(b.elems, c.elems, eq);
      CompareExact(a.elems, c.elems, eq);
      forall x ensures Count(x, a.elems, eq) == Count(x, c.elems, eq) {
        assert Count(x, a.elems, eq) == Count(x, b.elems, eq) == Count(x, c.elems, eq);
      }
    }
  }

  /** Comparing is an equivalence on slices, in which nil equals only nil. */
  lemma MatchesIsEquivalence<T(!new)>(eq: (T, T) -> bool, a: Slice<T>, b: Slice<T>, c: Slice<T>)
    requires Equivalence(eq) && !a.NotIterable?
    ensures Matches(a, a, eq)
    ensures Matches(a, b, eq) ==> Matches(b, a, eq)
    ensures Matches(a, b, eq) && Matches(b, c, eq) ==> Matches(a, c, eq)
    ensures a == Nil ==> (Matches(a, b, eq) <==> b == Nil)
  {
    MatchesReflexive(a, eq);
    if Matches(a, b, eq) {
      MatchesSymmetric(a, b, eq);
      if Matches(b, c, eq) {
        MatchesTransitive(a, b, c, eq);
      }
    }
  }

  lemma {:induction false} PermutationKeepsCounts<T(!new)>(a: seq<T>, a': seq<T>, eq: (T, T) -> bool)
    requires multiset(a) == multiset(a')
    ensures SameCounts(a, a', eq) && |a| == |a'|
  {
    if a == [] {
      assert |multiset(a')| == |a'| == 0;
    } else {
      assert a[0] in multiset(a');
      var k :| 0 <= k < |a'| && a'[k] == a[0];
      DropMultiset(a', k);
      DropMultiset(a, 0);
      assert Drop(a, 0) == a[1..];
      PermutationKeepsCounts(a[1..], Drop(a', k), eq);
      forall x ensures Count(x, a, eq) == Count(x, a', eq) {
        DropCount(x, a', k, eq);
        assert Count(x, a[1..], eq) == Count(x, Drop(a', k), eq);
      }
    }
  }

  /** The order of neither list matters. */
  lemma MatchesIgnoresOrder<T(!new)>(a: seq<T>, a': seq<T>, b: Slice<T>, eq: (T, T) -> bool)
    requires Equivalence(eq) && multiset(a) == multiset(a') && !b.NotIterable?
    ensures Matches(Items(a), Items(a'), eq)
    ensures Matches(Items(a), b, eq) <==> Matches(Items(a'), b, eq)
    ensures Matches(b, Items(a), eq) <==> Matches(b, Items(a'), eq)
  {
    PermutationKeepsCounts(a, a', eq);
    CompareExact(a, a', eq);
    MatchesIsEquivalence(eq, Items(a), Items(a'), b);
    MatchesIsEquivalence(eq, Items(a'), Items(a), b);
    MatchesIsEquivalence(eq, b, Items(a), Items(a'));
    MatchesIsEquivalence(eq, b, Items(a'), Items(a));
  }

  /** A pairing for a finer relation is a pairing of the images for a coarser one. */
  lemma MatchesCoarser<T(!new), U(!new)>(a: seq<T>, b: seq<T>, fine: (T, T) -> bool,
                                         f: T -> U, coarse: (U, U) -> bool)
    requires Equivalence(coarse) && Matches(Items(a), Items(b), fine)
    requires forall x, y :: fine(x, y) ==> coarse(f(x), f(y))
    ensures Matches(Items(Map(f, a)), Items(Map(f, b)), coarse)
  {
    var p := GreedyPairs(a, b, fine);
    assert Pairs(Map(f, a), Map(f, b), p, coarse);
    CompareExact(Map(f, a), Map(f, b), coarse);
  }

  /** Without an equivalence relation the greedy search can miss a pairing that exists. */
  lemma GreedyNeedsEquivalence()
    ensures var close := (x: int, y: int) => -1 <= x - y <= 1;
            CanPair([1, 0], [0, 2], close) && !Matches(Items([1, 0]), Items([0, 2]), close)
  {
    var close := (x: int, y: int) => -1 <= x - y <= 1;
    assert Pairs([1, 0], [0, 2], [1, 0], close);
    assert RemoveFirst(1, [0, 2], close) == Some([2]);
    assert RemoveFirst(0, [2], close) == None;
  }
}
