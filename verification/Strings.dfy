/** Strings in the order of their bytes, and sets of strings as sorted lists. */
module Strings {
  import opened Basics
  import opened Sorting

  predicate StringLess(a: string, b: string) {
    if b == "" then false
    else if a == "" then true
    else a[0] < b[0] || (a[0] == b[0] && StringLess(a[1..], b[1..]))
  }

  lemma {:induction false} StringLessTotal(a: string, b: string)
    ensures StringLess(a, b) || StringLess(b, a) || a == b
    ensures !(StringLess(a, b) && StringLess(b, a)) && !StringLess(a, a)
  {
    if a != "" {
      StringLessTotal(a[1..], a[1..]);
    }
    if a != "" && b != "" {
      StringLessTotal(a[1..], b[1..]);
      if a[0] == b[0] && a[1..] == b[1..] {
        assert a == [a[0]] + a[1..] && b == [b[0]] + b[1..];
      }
    }
  }

  lemma PrefixHeads(a: string, b: string)
    ensures forall k: nat | 0 < k <= |a| && k <= |b| && a[..k] == b[..k] :: a[0] == b[0]
  {
    forall k: nat | 0 < k <= |a| && k <= |b| && a[..k] == b[..k] ensures a[0] == b[0] {
      assert a[0] == a[..k][0] && b[0] == b[..k][0];
    }
  }

  /** The order of the bytes: at the first difference the smaller byte, or the end of the string, comes first. */
  lemma {:induction false} StringLessIff(a: string, b: string)
    ensures StringLess(a, b) <==>
            exists k: nat :: k <= |a| && k < |b| && a[..k] == b[..k] && (k < |a| ==> a[k] < b[k])
  {
    if a != "" && b != "" && a[0] == b[0] {
      StringLessIff(a[1..], b[1..]);
      if k: nat :| k <= |a[1..]| && k < |b[1..]| && a[1..][..k] == b[1..][..k]
                   && (k < |a[1..]| ==> a[1..][k] < b[1..][k]) {
        assert a[..k + 1] == [a[0]] + a[1..][..k] && b[..k + 1] == [b[0]] + b[1..][..k];
      }
      if k: nat :| k <= |a| && k < |b| && a[..k] == b[..k] && (k < |a| ==> a[k] < b[k]) {
        assert k > 0;
        assert a[1..][..k - 1] == a[..k][1..] && b[1..][..k - 1] == b[..k][1..];
      }
    } else if a != "" && b != "" {
      PrefixHeads(a, b);
      assert a[..0] == b[..0];
    } else if b != "" {
      assert a[..0] == b[..0];
    }
  }

  lemma {:induction false} StringLessTransitive(a: string, b: string, c: string)
    requires StringLess(a, b) && StringLess(b, c)
    ensures StringLess(a, c)
  {
    if a != "" {
      if a[0] == b[0] && b[0] == c[0] {
        StringLessTransitive(a[1..], b[1..], c[1..]);
      }
    }
  }

  ghost predicate Total<T(!new)>(less: (T, T) -> bool) {
    forall x, y :: Same(less, x, y) ==> x == y
  }

  lemma TotalRanks<T(!new)>(less: (T, T) -> bool)
    requires Total(less) && forall x :: !less(x, x)
    requires forall x, y, z :: less(x, y) && less(y, z) ==> less(x, z)
    ensures Ranks(less)
  {
  }

  lemma StringLessRanks()
    ensures Ranks(StringLess) && Total(StringLess)
  {
    forall x ensures !StringLess(x, x) {
      StringLessTotal(x, x);
    }
    forall x, y ensures Same(StringLess, x, y) ==> x == y {
      StringLessTotal(x, y);
    }
    forall x, y, z | StringLess(x, y) && StringLess(y, z) ensures StringLess(x, z) {
      StringLessTransitive(x, y, z);
    }
    TotalRanks(StringLess);
  }

  ghost predicate AscendingStrings(l: seq<string>) {
    forall i, j | 0 <= i < j < |l| :: StringLess(l[i], l[j])
  }

  lemma SortedStrings(l: seq<string>)
    requires NoDup(l)
    ensures AscendingStrings(StableSort(l, StringLess))
    ensures forall x :: x in StableSort(l, StringLess) <==> x in l
  {
    StringLessRanks();
    StableSortMeets(l, StringLess);
    StableSortMembers(l, StringLess);
    var t := StableSort(l, StringLess);
    SameElements(t, l);
    PermutationNoDup(l, t);
    forall i, j | 0 <= i < j < |t| ensures StringLess(t[i], t[j]) {
      StringLessTotal(t[i], t[j]);
      assert !StringLess(t[j], t[i]);
    }
  }

  lemma AscendingIsNoDup(l: seq<string>)
    requires AscendingStrings(l)
    ensures NoDup(l)
  {
    forall i, j | 0 <= i < j < |l| ensures l[i] != l[j] {
      StringLessTotal(l[i], l[j]);
    }
  }

  /** The elements of a set as a sorted list, whatever the order in which the set is walked. */
  method ListOf(s: set<string>) returns (l: seq<string>)
    ensures AscendingStrings(l)
    ensures forall x :: x in l <==> x in s
  {
    l := [];
    var left := s;
    while left != {}
      invariant left <= s && NoDup(l)
      invariant forall x :: x in l <==> x in s && x !in left
      decreases left
    {
      var x :| x in left;
      left := left - {x};
      l := l + [x];
    }
    SortedStrings(l);
    l := StableSort(l, StringLess);
  }
}
