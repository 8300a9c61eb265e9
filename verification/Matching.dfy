/** The order-insensitive list comparison: a greedy matching of the first list into the second. */
module Matching {
  import opened Basics

  /** A Go value handed to Compare: something that is no slice, the nil slice, or a slice with elements. */
  datatype Slice<+T> = NotIterable | Nil | Items(elems: seq<T>)

  // ----- The specification of the greedy search -----

  /** `s` without its first element that `x` equals; None if there is none. */
  function RemoveFirst<T>(x: T, s: seq<T>, eq: (T, T) -> bool): (r: Option<seq<T>>)
    ensures r.Some? ==> |r.value| + 1 == |s|
  {
    if s == [] then None
    else if eq(x, s[0]) then Some(s[1..])
    else
      match RemoveFirst(x, s[1..], eq)
      case None => None
      case Some(rest) => Some([s[0]] + rest)
  }

  /** Every element of `a` in turn finds an element of `b` that no earlier one took. */
  predicate Greedy<T>(a: seq<T>, b: seq<T>, eq: (T, T) -> bool) {
    if a == [] then true
    else
      match RemoveFirst(a[0], b, eq)
      case None => false
      case Some(rest) => Greedy(a[1..], rest, eq)
  }

  predicate Matches<T>(a: Slice<T>, b: Slice<T>, eq: (T, T) -> bool) {
    match (a, b)
    case (Nil, Nil) => true
    case (Items(x), Items(y)) => |x| == |y| && Greedy(x, y, eq)
    case _ => false
  }

  // ----- The program -----

  /** The elements of `b` that are not yet visited. */
  ghost function Unvisited<T>(b: seq<T>, visited: seq<bool>): seq<T>
    requires |b| == |visited|
  {
    if b == [] then []
    else (if visited[0] then [] else [b[0]]) + Unvisited(b[1..], visited[1..])
  }

  lemma {:induction false} UnvisitedAll<T>(b: seq<T>, visited: seq<bool>)
    requires |b| == |visited| && forall j | 0 <= j < |b| :: !visited[j]
    ensures Unvisited(b, visited) == b
  {
    if b != [] {
      UnvisitedAll(b[1..], visited[1..]);
    }
  }

  lemma UnvisitedCons<T>(b: seq<T>, visited: seq<bool>)
    requires |b| == |visited| && b != []
    ensures visited[0] ==> Unvisited(b, visited) == Unvisited(b[1..], visited[1..])
    ensures !visited[0] ==>
              Unvisited(b, visited)[0] == b[0] && Unvisited(b, visited)[1..] == Unvisited(b[1..], visited[1..])
  {
  }

  /** Visiting the first free match removes exactly it. */
  lemma {:induction false} VisitFirst<T>(x: T, b: seq<T>, visited: seq<bool>, j: nat, eq: (T, T) -> bool)
    requires |b| == |visited| && j < |b| && !visited[j] && eq(x, b[j])
    requires forall k | 0 <= k < j :: visited[k] || !eq(x, b[k])
    ensures RemoveFirst(x, Unvisited(b, visited), eq) == Some(Unvisited(b, visited[j := true]))
  {
    UnvisitedCons(b, visited);
    UnvisitedCons(b, visited[j := true]);
    if j == 0 {
      assert visited[0 := true][1..] == visited[1..];
    } else {
      VisitFirst(x, b[1..], visited[1..], j - 1, eq);
      assert visited[j := true][1..] == visited[1..][j - 1 := true];
    }
  }

  lemma {:induction false} NoneFree<T>(x: T, b: seq<T>, visited: seq<bool>, eq: (T, T) -> bool)
    requires |b| == |visited| && forall k | 0 <= k < |b| :: visited[k] || !eq(x, b[k])
    ensures RemoveFirst(x, Unvisited(b, visited), eq) == None
  {
    if b != [] {
      UnvisitedCons(b, visited);
      NoneFree(x, b[1..], visited[1..], eq);
    }
  }

  /** One step of the greedy search, for the element at position `i`. */
  lemma GreedyStep<T>(a: seq<T>, i: nat, s: seq<T>, eq: (T, T) -> bool)
    requires i < |a|
    ensures Greedy(a[i..], s, eq) <==>
            var rest := RemoveFirst(a[i], s, eq); rest.Some? && Greedy(a[i + 1..], rest.value, eq)
  {
    assert a[i..][0] == a[i] && a[i..][1..] == a[i + 1..];
  }

  method Compare<T>(listA: Slice<T>, listB: Slice<T>, eq: (T, T) -> bool) returns (r: bool)
    ensures r == Matches(listA, listB, eq)
  {
    if listA.NotIterable? || listB.NotIterable? {
      return false;
    }
    if listA.Nil? && listB.Nil? {
      return true;
    }
    if listA.Nil? != listB.Nil? {
      return false;
    }
    var a, b := listA.elems, listB.elems;
    if |a| != |b| {
      return false;
    }

    var visited := new bool[|b|](_ => false);
    UnvisitedAll(b, visited[..]);
    assert a[0..] == a;
    for i := 0 to |a|
      invariant Greedy(a, b, eq) == Greedy(a[i..], Unvisited(b, visited[..]), eq)
    {
      var found := false;
      ghost var before := visited[..];
      GreedyStep(a, i, Unvisited(b, before), eq);
      for j := 0 to |b|
        invariant !found && visited[..] == before
        invariant forall k | 0 <= k < j :: before[k] || !eq(a[i], b[k])
      {
        if visited[j] {
          continue;
        }
        if eq(a[i], b[j]) {
          VisitFirst(a[i], b, before, j, eq);
          visited[j] := true;
          found := true;
          assert visited[..] == before[j := true];
          break;
        }
      }
      if !found {
        NoneFree(a[i], b, before, eq);
        return false;
      }
    }
    return true;
  }

  /** Two slices of strings, compared without regard to order. */
  method StringElementsMatch(a: Slice<string>, b: Slice<string>) returns (r: bool)
    ensures r == Matches(a, b, (s1, s2) => s1 == s2)
  {
    r := Compare(a, b, (s1, s2) => s1 == s2);
  }
}
