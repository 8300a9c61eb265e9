/** Stable sorting, by its contract: the result is sorted, and elements that the order does not tell apart keep
    their sequence. */
module Sorting {
  function Filter<T>(s: seq<T>, p: T -> bool): (r: seq<T>)
    ensures forall x | x in r :: p(x) && x in s
  {
    if s == [] then [] else (if p(s[0]) then [s[0]] else []) + Filter(s[1..], p)
  }

  /** A strict order that falls into ranks: elements not told apart form classes. */
  ghost predicate Ranks<T(!new)>(less: (T, T) -> bool) {
    && (forall x :: !less(x, x))
    && (forall x, y, z :: less(x, y) && less(y, z) ==> less(x, z))
    && (forall x, y, z :: Same(less, x, y) && Same(less, y, z) ==> Same(less, x, z))
  }

  predicate Same<T>(less: (T, T) -> bool, x: T, y: T) {
    !less(x, y) && !less(y, x)
  }

  function Class<T>(s: seq<T>, x: T, less: (T, T) -> bool): seq<T> {
    Filter(s, y => Same(less, x, y))
  }

  ghost predicate SortedBy<T>(t: seq<T>, less: (T, T) -> bool) {
    forall i, j | 0 <= i < j < |t| :: !less(t[j], t[i])
  }

  /** The contract of a stable sort of `s`. */
  ghost predicate IsStableSort<T(!new)>(s: seq<T>, t: seq<T>, less: (T, T) -> bool) {
    SortedBy(t, less) && forall x :: Class(t, x, less) == Class(s, x, less)
  }

  // ----- A sort that meets the contract -----

  function Insert<T>(x: T, t: seq<T>, less: (T, T) -> bool): seq<T> {
    if t == [] || !less(t[0], x) then [x] + t else [t[0]] + Insert(x, t[1..], less)
  }

  function StableSort<T>(s: seq<T>, less: (T, T) -> bool): seq<T> {
    if s == [] then [] else Insert(s[0], StableSort(s[1..], less), less)
  }

  lemma FilterCons<T>(x: T, s: seq<T>, p: T -> bool)
    ensures Filter([x] + s, p) == if p(x) then [x] + Filter(s, p) else Filter(s, p)
  {
    assert ([x] + s)[1..] == s;
  }

  lemma {:induction false} InsertMember<T>(x: T, t: seq<T>, less: (T, T) -> bool)
    ensures multiset(Insert(x, t, less)) == multiset(t) + multiset{x}
    ensures Insert(x, t, less) != []
    ensures forall y :: y in Insert(x, t, less) <==> y == x || y in t
  {
    if t == [] || !less(t[0], x) {
    } else {
      InsertMember(x, t[1..], less);
      assert t == [t[0]] + t[1..];
    }
  }

  lemma SwapApart<T>(h: T, x: T, rest: seq<T>, p: T -> bool)
    requires !(p(h) && p(x))
    ensures Filter([h] + ([x] + rest), p) == Filter([x] + ([h] + rest), p)
  {
    FilterCons(h, [x] + rest, p);
    FilterCons(x, rest, p);
    FilterCons(x, [h] + rest, p);
    FilterCons(h, rest, p);
  }

  lemma {:induction false} InsertClass<T(!new)>(x: T, t: seq<T>, less: (T, T) -> bool, z: T)
    requires Ranks(less)
    ensures Class(Insert(x, t, less), z, less) == Class([x] + t, z, less)
  {
    if !(t == [] || !less(t[0], x)) {
      var p := y => Same(less, z, y);
      var h, rest := t[0], t[1..];
      InsertClass(x, rest, less, z);
      FilterCons(h, Insert(x, rest, less), p);
      FilterCons(h, [x] + rest, p);
      RankSteps(less, x, z, h);
      SwapApart(h, x, rest, p);
      assert t == [h] + rest;
    }
  }

  lemma {:induction false} InsertSorted<T(!new)>(x: T, t: seq<T>, less: (T, T) -> bool)
    requires Ranks(less) && SortedBy(t, less)
    ensures SortedBy(Insert(x, t, less), less)
  {
    if t == [] || !less(t[0], x) {
      var r := [x] + t;
      forall j | 0 < j < |r| ensures !less(r[j], x) {
        HeadIsLeast(x, t, less, j - 1);
      }
    } else {
      var rest := Insert(x, t[1..], less);
      InsertSorted(x, t[1..], less);
      InsertMember(x, t[1..], less);
      forall y | y in rest ensures !less(y, t[0]) {
        if y == x {
          assert less(x, t[0]) ==> less(x, x);
        }
      }
    }
  }

  lemma NotBelow<T(!new)>(less: (T, T) -> bool, x: T, y: T, z: T)
    requires Ranks(less)
    ensures !less(x, y) && !less(y, z) ==> !less(x, z)
  {
    RankSteps(less, y, x, z);
    assert less(y, x) && less(x, z) ==> less(y, z);
  }

  /** What is not above the head of a sorted list is above nothing in it. */
  lemma HeadIsLeast<T(!new)>(x: T, t: seq<T>, less: (T, T) -> bool, j: nat)
    requires Ranks(less) && SortedBy(t, less) && j < |t| && !less(t[0], x)
    ensures !less(t[j], x)
  {
    NotBelow(less, t[j], t[0], x);
  }

  lemma {:induction false} StableSortMembers<T>(s: seq<T>, less: (T, T) -> bool)
    ensures multiset(StableSort(s, less)) == multiset(s)
  {
    if s != [] {
      StableSortMembers(s[1..], less);
      InsertMember(s[0], StableSort(s[1..], less), less);
      assert s == [s[0]] + s[1..];
    }
  }

  lemma {:induction false} StableSortMeets<T(!new)>(s: seq<T>, less: (T, T) -> bool)
    requires Ranks(less)
    ensures IsStableSort(s, StableSort(s, less), less)
  {
    if s != [] {
      var t := StableSort(s[1..], less);
      StableSortMeets(s[1..], less);
      InsertSorted(s[0], t, less);
      forall x ensures Class(StableSort(s, less), x, less) == Class(s, x, less) {
        InsertClass(s[0], t, less, x);
        FilterCons(s[0], t, y => Same(less, x, y));
        assert Class(t, x, less) == Class(s[1..], x, less);
        assert s == [s[0]] + s[1..];
        FilterCons(s[0], s[1..], y => Same(less, x, y));
      }
    }
  }

  // ----- The contract has one result -----

  lemma FirstOfClass<T(!new)>(t: seq<T>, less: (T, T) -> bool, x: T)
    requires Ranks(less) && t != [] && Same(less, x, t[0])
    ensures Class(t, x, less) != [] && Class(t, x, less)[0] == t[0]
  {
  }

  lemma OwnClass<T(!new)>(t: seq<T>, less: (T, T) -> bool)
    requires Ranks(less)
    ensures t != [] ==> Class(t, t[0], less) != []
  {
    if t != [] {
      FirstOfClass(t, less, t[0]);
    }
  }

  lemma {:induction false} InFilter<T>(t: seq<T>, p: T -> bool, x: T)
    requires x in t && p(x)
    ensures x in Filter(t, p)
  {
    if t[0] != x {
      InFilter(t[1..], p, x);
    }
  }

  lemma {:induction false} StableSortUnique<T(!new)>(t: seq<T>, u: seq<T>, less: (T, T) -> bool)
    requires Ranks(less) && SortedBy(t, less) && SortedBy(u, less)
    requires forall x :: Class(t, x, less) == Class(u, x, less)
    ensures t == u
  {
    if t == [] {
      OwnClass(u, less);
    } else {
      FirstOfClass(t, less, t[0]);
      var first := Class(u, t[0], less)[0];
      assert first == t[0] && first in u;
      FirstOfClass(u, less, u[0]);
      assert Class(t, u[0], less)[0] == u[0];
      assert u[0] in t;
      HeadsSame(t, u, less);
      FirstOfClass(u, less, t[0]);
      assert t[0] == u[0];
      forall x ensures Class(t[1..], x, less) == Class(u[1..], x, less) {
        var p := y => Same(less, x, y);
        assert t == [t[0]] + t[1..] && u == [u[0]] + u[1..];
        FilterCons(t[0], t[1..], p);
        FilterCons(u[0], u[1..], p);
        assert Class(t, x, less) == Class(u, x, less);
        assert Filter(t[1..], p) == if p(t[0]) then Class(t, x, less)[1..] else Class(t, x, less);
        assert Filter(u[1..], p) == if p(t[0]) then Class(u, x, less)[1..] else Class(u, x, less);
      }
      StableSortUnique(t[1..], u[1..], less);
      assert t == [t[0]] + t[1..] && u == [u[0]] + u[1..];
    }
  }

  lemma HeadsSame<T(!new)>(t: seq<T>, u: seq<T>, less: (T, T) -> bool)
    requires Ranks(less) && SortedBy(t, less) && SortedBy(u, less)
    requires t != [] && u != [] && t[0] in u && u[0] in t
    ensures Same(less, t[0], u[0])
  {
    var i :| 0 <= i < |u| && u[i] == t[0];
    var j :| 0 <= j < |t| && t[j] == u[0];
  }

  /** Every result that meets the contract is the result of the sort above. */
  lemma OnlyStableSort<T(!new)>(s: seq<T>, t: seq<T>, less: (T, T) -> bool)
    requires Ranks(less) && IsStableSort(s, t, less)
    ensures t == StableSort(s, less)
  {
    StableSortMeets(s, less);
    forall x ensures Class(t, x, less) == Class(StableSort(s, less), x, less) {
      assert Class(t, x, less) == Class(s, x, less);
    }
    StableSortUnique(t, StableSort(s, less), less);
  }

  // ----- Sorting by a second criterion and then by the first -----

  function Then<T>(first: (T, T) -> bool, second: (T, T) -> bool): (T, T) -> bool {
    (x, y) => first(x, y) || (Same(first, x, y) && second(x, y))
  }

  lemma ThenRanks<T(!new)>(first: (T, T) -> bool, second: (T, T) -> bool)
    requires Ranks(first) && Ranks(second)
    ensures Ranks(Then(first, second))
  {
    var both := Then(first, second);
    forall x, y, z | both(x, y) && both(y, z) ensures both(x, z) {
      RankSteps(first, x, y, z);
    }
    forall x, y ensures Same(both, x, y) <==> Same(first, x, y) && Same(second, x, y) {
    }
  }

  lemma RankSteps<T(!new)>(less: (T, T) -> bool, x: T, y: T, z: T)
    requires Ranks(less)
    ensures less(x, y) && Same(less, y, z) ==> less(x, z)
    ensures Same(less, x, y) && less(y, z) ==> less(x, z)
    ensures Same(less, x, y) && Same(less, y, z) ==> Same(less, x, z)
  {
    if less(x, y) && Same(less, y, z) {
      if Same(less, x, z) {
        assert Same(less, z, y);
      }
    }
    if Same(less, x, y) && less(y, z) {
      if Same(less, x, z) {
        assert Same(less, y, x);
      }
    }
  }

  lemma {:induction false} FilterTwice<T>(s: seq<T>, p: T -> bool, q: T -> bool, both: T -> bool)
    requires forall x :: both(x) <==> p(x) && q(x)
    ensures Filter(Filter(s, p), q) == Filter(s, both)
  {
    if s != [] {
      var x, rest := s[0], s[1..];
      assert s == [x] + rest;
      FilterTwice(rest, p, q, both);
      FilterCons(x, rest, p);
      FilterCons(x, rest, both);
      FilterCons(x, Filter(rest, p), q);
    }
  }

  lemma {:induction false} FilterKeepsSorted<T>(s: seq<T>, p: T -> bool, less: (T, T) -> bool)
    requires SortedBy(s, less)
    ensures SortedBy(Filter(s, p), less)
  {
    if s != [] {
      FilterKeepsSorted(s[1..], p, less);
      forall y | y in Filter(s[1..], p) ensures !less(y, s[0]) {
        assert y in s[1..];
      }
    }
  }

  /** Two kept elements keep their sequence. */
  lemma {:induction false} FilterKeepsOrder<T>(s: seq<T>, p: T -> bool, i: nat, j: nat) returns (a: nat, b: nat)
    requires i < j < |s| && p(s[i]) && p(s[j])
    ensures a < b < |Filter(s, p)| && Filter(s, p)[a] == s[i] && Filter(s, p)[b] == s[j]
  {
    var off := if p(s[0]) then 1 else 0;
    if i > 0 {
      a, b := FilterKeepsOrder(s[1..], p, i - 1, j - 1);
      a, b := a + off, b + off;
    } else {
      InFilter(s[1..], p, s[j]);
      var k :| 0 <= k < |Filter(s[1..], p)| && Filter(s[1..], p)[k] == s[j];
      a, b := 0, k + 1;
    }
  }

  /** A stable sort by the second criterion followed by one by the first is one stable sort by both. */
  lemma TwoPasses<T(!new)>(s: seq<T>, first: (T, T) -> bool, second: (T, T) -> bool)
    requires Ranks(first) && Ranks(second)
    ensures StableSort(StableSort(s, second), first) == StableSort(s, Then(first, second))
  {
    var u := StableSort(s, second);
    var t := StableSort(u, first);
    var both := Then(first, second);
    StableSortMeets(s, second);
    StableSortMeets(u, first);
    ThenRanks(first, second);
    forall x ensures Class(t, x, both) == Class(s, x, both) {
      TwoPassClass(s, u, t, first, second, x);
    }
    forall i, j | 0 <= i < j < |t| ensures !both(t[j], t[i]) {
      TwoPassOrder(u, t, first, second, i, j);
    }
    OnlyStableSort(s, t, both);
  }

  lemma TwoPassClass<T(!new)>(s: seq<T>, u: seq<T>, t: seq<T>, first: (T, T) -> bool, second: (T, T) -> bool, x: T)
    requires IsStableSort(s, u, second) && IsStableSort(u, t, first)
    ensures Class(t, x, Then(first, second)) == Class(s, x, Then(first, second))
  {
    var p, q := y => Same(first, x, y), y => Same(second, x, y);
    var both := y => Same(Then(first, second), x, y);
    assert forall y :: both(y) <==> p(y) && q(y);
    FilterTwice(t, p, q, both);
    FilterTwice(u, p, q, both);
    FilterTwice(u, q, p, both);
    FilterTwice(s, q, p, both);
    assert Class(t, x, first) == Class(u, x, first);
    assert Class(u, x, second) == Class(s, x, second);
  }

  lemma TwoPassOrder<T(!new)>(u: seq<T>, t: seq<T>, first: (T, T) -> bool, second: (T, T) -> bool, i: nat, j: nat)
    requires Ranks(first) && SortedBy(u, second) && IsStableSort(u, t, first) && i < j < |t|
    ensures !Then(first, second)(t[j], t[i])
  {
    assert !first(t[j], t[i]);
    if Same(first, t[j], t[i]) {
      var p := y => Same(first, t[i], y);
      var a, b := FilterKeepsOrder(t, p, i, j);
      assert Class(t, t[i], first) == Class(u, t[i], first);
      FilterKeepsSorted(u, p, second);
    }
  }
}
