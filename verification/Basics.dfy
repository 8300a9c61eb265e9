/** What several components share: optional values, lists without repetition, and parts of lists. */
module Basics {
  datatype Option<+T> = None | Some(value: T)

  ghost predicate NoDup<T>(s: seq<T>) {
    forall i, j | 0 <= i < j < |s| :: s[i] != s[j]
  }

  lemma WholePrefix<T>(s: seq<T>)
    ensures s[..|s|] == s
  {
  }

  lemma PrefixDropsLast<T>(s: seq<T>, i: nat)
    requires i < |s|
    ensures s[..i + 1][..i] == s[..i] && s[..i + 1][i] == s[i]
  {
  }

  lemma PrefixStep<T>(s: seq<T>, i: nat)
    requires i < |s|
    ensures s[..i + 1] == s[..i] + [s[i]]
  {
  }

  /** The list without its element at position `k`. */
  function Drop<T>(s: seq<T>, k: nat): seq<T>
    requires k < |s|
  {
    s[..k] + s[k + 1..]
  }

  lemma DropMultiset<T>(s: seq<T>, k: nat)
    requires k < |s|
    ensures multiset(Drop(s, k)) == multiset(s) - multiset{s[k]}
  {
    assert s == s[..k] + [s[k]] + s[k + 1..];
  }

  function ToSet<T>(s: seq<T>): set<T> {
    set x | x in s
  }

  lemma {:induction false} DistinctCount<T>(s: seq<T>)
    ensures |ToSet(s)| <= |s|
    ensures |ToSet(s)| == |s| <==> NoDup(s)
  {
    if s != [] {
      var init, x := s[..|s| - 1], s[|s| - 1];
      DistinctCount(init);
      assert ToSet(s) == ToSet(init) + {x};
      if x in init {
        var i :| 0 <= i < |init| && init[i] == x;
        assert s[i] == s[|s| - 1];
        assert ToSet(s) == ToSet(init);
      } else if NoDup(init) {
        assert NoDup(s);
      } else {
        var i, j :| 0 <= i < j < |init| && init[i] == init[j];
        assert s[i] == s[j];
      }
    }
  }

  lemma SubsetOfSameSize<T>(a: set<T>, b: set<T>)
    requires a <= b && |a| == |b|
    ensures a == b
  {
    assert |b - a| == |b| - |a|;
  }

  /** Pigeonhole: a list without duplicates that is included in one as long has exactly its elements. */
  lemma Pigeonhole<T>(a: seq<T>, b: seq<T>)
    requires NoDup(a) && |a| == |b| && forall x | x in a :: x in b
    ensures ToSet(a) == ToSet(b) && NoDup(b)
  {
    DistinctCount(a);
    DistinctCount(b);
    assert ToSet(a) <= ToSet(b);
    assert |ToSet(b) - ToSet(a)| == |ToSet(b)| - |ToSet(a)|;
    SubsetOfSameSize(ToSet(a), ToSet(b));
  }

  lemma SameElements<T>(s: seq<T>, t: seq<T>)
    requires multiset(s) == multiset(t)
    ensures forall x :: x in s <==> x in t
  {
    forall x ensures x in s <==> x in t {
      assert x in s <==> x in multiset(s);
      assert x in t <==> x in multiset(t);
    }
  }

  lemma PermutationNoDup<T>(s: seq<T>, t: seq<T>)
    requires NoDup(s) && multiset(s) == multiset(t)
    ensures NoDup(t) && ToSet(s) == ToSet(t)
  {
    SameElements(s, t);
    assert |s| == |multiset(s)| && |t| == |multiset(t)|;
    assert ToSet(s) == ToSet(t);
    DistinctCount(s);
    DistinctCount(t);
  }

  function Map<T, U>(f: T -> U, s: seq<T>): (r: seq<U>)
    ensures |r| == |s|
    ensures forall i | 0 <= i < |s| :: r[i] == f(s[i])
  {
    seq(|s|, i requires 0 <= i < |s| => f(s[i]))
  }

  lemma MapDropped<T, U>(f: T -> U, s: seq<T>, k: nat)
    requires k < |s|
    ensures multiset(Map(f, s)) == multiset(Map(f, Drop(s, k))) + multiset{f(s[k])}
  {
    var t := Map(f, s);
    assert t == t[..k] + [t[k]] + t[k + 1..];
    assert Map(f, Drop(s, k)) == t[..k] + t[k + 1..];
  }

  /** The images of a permutation are a permutation of the images. */
  lemma {:induction false} MapPermuted<T, U>(f: T -> U, s: seq<T>, t: seq<T>)
    requires multiset(s) == multiset(t)
    ensures multiset(Map(f, s)) == multiset(Map(f, t))
  {
    if s == [] {
      assert |multiset(t)| == |t| == 0;
    } else {
      assert s[0] in multiset(t);
      var k :| 0 <= k < |t| && t[k] == s[0];
      DropMultiset(s, 0);
      DropMultiset(t, k);
      MapPermuted(f, Drop(s, 0), Drop(t, k));
      MapDropped(f, s, 0);
      MapDropped(f, t, k);
    }
  }

  lemma Assoc<T>(a: seq<T>, b: seq<T>, c: seq<T>)
    ensures (a + b) + c == a + (b + c)
  {
  }
}

/** The paths of rules and locations.  The store replaces a missing or implementation-specific path type by
    Prefix, so two types remain. */
module Paths {
  const ROOT := "/"

  datatype PathType = Exact | Prefix
}

/** The 64-bit signed integers that the program computes with. */
module Words {
  const MAX_INT: int := 0x7FFF_FFFF_FFFF_FFFF
  const TWO_64: int := 0x1_0000_0000_0000_0000

  /** A result out of range keeps its low 64 bits. */
  function Wrap(x: int): (r: int)
    ensures -MAX_INT - 1 <= r <= MAX_INT
    ensures -MAX_INT - 1 <= x <= MAX_INT ==> r == x
  {
    var m := x % TWO_64;
    if m <= MAX_INT then m else m - TWO_64
  }
}
