/** The comparisons are equivalence relations where they should be, and the reload decision is exactly
    the part of the comparison that a running nginx cannot be told about. */
module ConfigEqualityProperties {
  import opened Basics
  import opened Matching
  import opened MatchingProperties
  import opened ConfigEquality

  // ----- The element relations are equivalences -----

  lemma StringEqualIsEquivalence()
    ensures Equivalence(StringEqual) && Equivalence(IntEqual) && Equivalence(EndpointEqual)
  {
  }

  /** Matching on a kind of list is an equivalence. */
  ghost predicate ListEquivalence<T(!new)>(eq: (T, T) -> bool) {
    && (forall a: List<T> :: Matches(a, a, eq))
    && (forall a: List<T>, b: List<T> :: Matches(a, b, eq) ==> Matches(b, a, eq))
    && (forall a: List<T>, b: List<T>, c: List<T> :: Matches(a, b, eq) && Matches(b, c, eq) ==> Matches(a, c, eq))
  }

  lemma ListsOfEquivalent<T(!new)>(eq: (T, T) -> bool)
    requires Equivalence(eq)
    ensures ListEquivalence(eq)
  {
    forall a: List<T> ensures Matches(a, a, eq) {
      MatchesReflexive(a, eq);
    }
    forall a: List<T>, b: List<T> | Matches(a, b, eq) ensures Matches(b, a, eq) {
      MatchesSymmetric(a, b, eq);
    }
    forall a: List<T>, b: List<T>, c: List<T> | Matches(a, b, eq) && Matches(b, c, eq) ensures Matches(a, c, eq) {
      MatchesTransitive(a, b, c, eq);
    }
  }

  lemma BackendEqualIsEquivalence()
    ensures Equivalence(BackendEqual)
  {
    ListsOfEquivalent(EndpointEqual);
    ListsOfEquivalent(StringEqual);
  }

  lemma L4EqualIsEquivalence()
    ensures Equivalence(L4Equal)
  {
    ListsOfEquivalent(EndpointEqual);
  }

  lemma LocationEqualIsEquivalence()
    ensures Equivalence(LocationEqual)
  {
    ListsOfEquivalent(IntEqual);
  }

  lemma CertEqualIsEquivalence()
    ensures Equivalence(CertEqual)
  {
    ListsOfEquivalent(StringEqual);
  }

  // ----- Order does not matter, at either level -----

  /** The same list of a Go slice up to the order of its elements. */
  ghost predicate Reordered<T>(a: List<T>, b: List<T>) {
    match (a, b)
    case (Nil, Nil) => true
    case (Items(x), Items(y)) => multiset(x) == multiset(y)
    case _ => false
  }

  lemma ReorderedMatches<T(!new)>(a: List<T>, b: List<T>, eq: (T, T) -> bool)
    requires Equivalence(eq) && Reordered(a, b)
    ensures Matches(a, b, eq)
  {
    if a.Items? {
      MatchesIgnoresOrder(a.elems, b.elems, Nil, eq);
    }
  }

  /** The same backend up to the order of its endpoints and of its alternative backends. */
  ghost predicate Shuffled(a: Backend, b: Backend) {
    && b == a.(endpoints := b.endpoints, alternatives := b.alternatives)
    && Reordered(a.endpoints, b.endpoints) && Reordered(a.alternatives, b.alternatives)
  }

  /** Lists whose elements are pairwise equal, the second then reordered, compare alike with any other list. */
  lemma OrderIrrelevant<T(!new)>(a: seq<T>, a': seq<T>, a'': seq<T>, b: List<T>, eq: (T, T) -> bool)
    requires Equivalence(eq) && |a| == |a'| && forall i | 0 <= i < |a| :: eq(a[i], a'[i])
    requires multiset(a') == multiset(a'')
    ensures Matches(Items(a), b, eq) <==> Matches(Items(a''), b, eq)
    ensures Matches(b, Items(a), eq) <==> Matches(b, Items(a''), eq)
  {
    var p := seq(|a|, i requires 0 <= i < |a| => i);
    assert Pairs(a, a', p, eq);
    CompareExact(a, a', eq);
    ListsOfEquivalent(eq);
    MatchesIgnoresOrder(a', a'', b, eq);
  }

  /** Reordering the backends, and inside each the endpoints and alternatives, changes no comparison, on either
      side. */
  lemma BackendOrderIrrelevant(a: seq<Backend>, a': seq<Backend>, a'': seq<Backend>, b: List<Backend>)
    requires |a| == |a'| && forall i | 0 <= i < |a| :: Shuffled(a[i], a'[i])
    requires multiset(a') == multiset(a'')
    ensures Matches(Items(a), b, BackendEqual) <==> Matches(Items(a''), b, BackendEqual)
    ensures Matches(b, Items(a), BackendEqual) <==> Matches(b, Items(a''), BackendEqual)
  {
    BackendEqualIsEquivalence();
    forall i | 0 <= i < |a| ensures BackendEqual(a[i], a'[i]) {
      ReorderedMatches(a[i].endpoints, a'[i].endpoints, EndpointEqual);
      ReorderedMatches(a[i].alternatives, a'[i].alternatives, StringEqual);
    }
    OrderIrrelevant(a, a', a'', b, BackendEqual);
  }

  /** The same stream service up to the order of its endpoints. */
  ghost predicate ShuffledL4(a: L4Service, b: L4Service) {
    b == a.(endpoints := b.endpoints) && Reordered(a.endpoints, b.endpoints)
  }

  /** Reordering the stream services, and inside each the endpoints, changes no comparison, on either side. */
  lemma L4OrderIrrelevant(a: seq<L4Service>, a': seq<L4Service>, a'': seq<L4Service>, b: List<L4Service>)
    requires |a| == |a'| && forall i | 0 <= i < |a| :: ShuffledL4(a[i], a'[i])
    requires multiset(a') == multiset(a'')
    ensures Matches(Items(a), b, L4Equal) <==> Matches(Items(a''), b, L4Equal)
    ensures Matches(b, Items(a), L4Equal) <==> Matches(b, Items(a''), L4Equal)
  {
    L4EqualIsEquivalence();
    forall i | 0 <= i < |a| ensures L4Equal(a[i], a'[i]) {
      ReorderedMatches(a[i].endpoints, a'[i].endpoints, EndpointEqual);
    }
    OrderIrrelevant(a, a', a'', b, L4Equal);
  }

  // ----- One-way inclusion -----

  function Longest(s: seq<string>): nat {
    if s == [] then 0
    else if |s[0]| > Longest(s[1..]) then |s[0]| else Longest(s[1..])
  }

  lemma {:induction false} LongerIsNew(s: seq<string>, x: string)
    requires |x| > Longest(s)
    ensures x !in s
  {
    if s != [] {
      LongerIsNew(s[1..], x);
    }
  }

  /** The one-way alias test means equality of sets for every second list exactly when the first list
      has no duplicates. */
  lemma AliasTestExact(a: seq<string>)
    ensures NoDup(a) <==>
            forall b: seq<string> :: |a| == |b| && Included(a, b) ==> ToSet(a) == ToSet(b)
  {
    if NoDup(a) {
      forall b: seq<string> | |a| == |b| && Included(a, b) ensures ToSet(a) == ToSet(b) {
        Pigeonhole(a, b);
      }
    } else {
      var i, j :| 0 <= i < j < |a| && a[i] == a[j];
      var x := seq(Longest(a) + 1, _ => 'x');
      var b := a[j := x];
      LongerIsNew(a, x);
      forall y | y in a ensures y in b {
        var k :| 0 <= k < |a| && a[k] == y;
        assert b[if k == j then i else k] == y;
      }
      assert b[j] == x && x in ToSet(b);
      assert |a| == |b| && Included(a, b) && ToSet(a) != ToSet(b);
    }
  }

  function Hostnames(ps: seq<Passthrough>): (r: seq<string>)
    ensures |r| == |ps| && forall i | 0 <= i < |ps| :: r[i] == ps[i].hostname
  {
    seq(|ps|, i requires 0 <= i < |ps| => ps[i].hostname)
  }

  /** With at most one entry per hostname the one-way passthrough test is symmetric. */
  lemma PassthroughSymmetric(a: seq<Passthrough>, b: seq<Passthrough>)
    requires PassthroughsEqual(a, b) && NoDup(Hostnames(a))
    ensures PassthroughsEqual(b, a) && NoDup(Hostnames(b))
  {
    forall h | h in Hostnames(a) ensures h in Hostnames(b) {
      var i :| 0 <= i < |a| && a[i].hostname == h;
      assert HasEqual(a[i], b);
      var y :| y in b && PassthroughEqual(a[i], y);
      var j :| 0 <= j < |b| && b[j] == y;
      assert Hostnames(b)[j] == h;
    }
    Pigeonhole(Hostnames(a), Hostnames(b));
    forall y | y in b ensures HasEqual(y, a) {
      var j :| 0 <= j < |b| && b[j] == y;
      assert Hostnames(b)[j] in ToSet(Hostnames(a));
      var i :| 0 <= i < |a| && Hostnames(a)[i] == y.hostname;
      assert HasEqual(a[i], b);
      var z :| z in b && PassthroughEqual(a[i], z);
      var k :| 0 <= k < |b| && b[k] == z;
      assert Hostnames(b)[j] == Hostnames(b)[k];
      assert PassthroughEqual(y, a[i]);
    }
  }

  // ----- Servers and whole configurations -----

  lemma ServerEqualReflexive(s: Server)
    ensures ServerEqual(s, s)
  {
    LocationEqualIsEquivalence();
    CertEqualIsEquivalence();
  }

  lemma ServerEqualTransitive(a: Server, b: Server, c: Server)
    requires ServerEqual(a, b) && ServerEqual(b, c)
    ensures ServerEqual(a, c)
  {
    LocationEqualIsEquivalence();
    CertEqualIsEquivalence();
    forall i | 0 <= i < |a.locations| ensures LocationEqual(a.locations[i], c.locations[i]) {
      assert LocationEqual(a.locations[i], b.locations[i]) && LocationEqual(b.locations[i], c.locations[i]);
    }
  }

  lemma ServerEqualSymmetric(a: Server, b: Server)
    requires ServerEqual(a, b) && NoDup(a.aliases)
    ensures ServerEqual(b, a) && NoDup(b.aliases) && ToSet(a.aliases) == ToSet(b.aliases)
  {
    LocationEqualIsEquivalence();
    CertEqualIsEquivalence();
    Pigeonhole(a.aliases, b.aliases);
    forall x | x in b.aliases ensures x in a.aliases {
      assert x in ToSet(b.aliases);
    }
  }

  /** What the server builder produces: aliases without duplicates, one passthrough entry per hostname. */
  ghost predicate WellFormed(c: Configuration) {
    && (forall s | s in c.servers :: NoDup(s.aliases))
    && NoDup(Hostnames(c.passthrough))
  }

  lemma ConfigEqualReflexive(c: Configuration)
    ensures ConfigEqual(c, c)
  {
    BackendEqualIsEquivalence();
    L4EqualIsEquivalence();
    CertEqualIsEquivalence();
    MatchesReflexive(c.backends, BackendEqual);
    MatchesReflexive(c.tcp, L4Equal);
    MatchesReflexive(c.udp, L4Equal);
    forall s | s in c.servers ensures ServerEqual(s, s) {
      ServerEqualReflexive(s);
    }
    forall p | p in c.passthrough ensures HasEqual(p, c.passthrough) {
      assert PassthroughEqual(p, p);
    }
  }

  lemma ServersEqualTransitive(a: seq<Server>, b: seq<Server>, c: seq<Server>)
    requires ServersEqual(a, b) && ServersEqual(b, c)
    ensures ServersEqual(a, c)
  {
    forall i | 0 <= i < |a| ensures ServerEqual(a[i], c[i]) {
      ServerEqualTransitive(a[i], b[i], c[i]);
    }
  }

  lemma PassthroughsTransitive(a: seq<Passthrough>, b: seq<Passthrough>, c: seq<Passthrough>)
    requires PassthroughsEqual(a, b) && PassthroughsEqual(b, c)
    ensures PassthroughsEqual(a, c)
  {
    forall x | x in a ensures HasEqual(x, c) {
      assert HasEqual(x, b);
      var y :| y in b && PassthroughEqual(x, y);
      assert HasEqual(y, c);
      var z :| z in c && PassthroughEqual(y, z);
      assert PassthroughEqual(x, z);
    }
  }

  lemma ConfigEqualTransitive(a: Configuration, b: Configuration, c: Configuration)
    requires ConfigEqual(a, b) && ConfigEqual(b, c)
    ensures ConfigEqual(a, c)
  {
    BackendEqualIsEquivalence();
    L4EqualIsEquivalence();
    CertEqualIsEquivalence();
    MatchesTransitive(a.backends, b.backends, c.backends, BackendEqual);
    MatchesTransitive(a.tcp, b.tcp, c.tcp, L4Equal);
    MatchesTransitive(a.udp, b.udp, c.udp, L4Equal);
    ServersEqualTransitive(a.servers, b.servers, c.servers);
    PassthroughsTransitive(a.passthrough, b.passthrough, c.passthrough);
  }

  /** On what the server builder produces the comparison is symmetric. */
  lemma ConfigEqualSymmetric(a: Configuration, b: Configuration)
    requires ConfigEqual(a, b) && WellFormed(a)
    ensures ConfigEqual(b, a) && WellFormed(b)
  {
    BackendEqualIsEquivalence();
    L4EqualIsEquivalence();
    CertEqualIsEquivalence();
    MatchesSymmetric(a.backends, b.backends, BackendEqual);
    MatchesSymmetric(a.tcp, b.tcp, L4Equal);
    MatchesSymmetric(a.udp, b.udp, L4Equal);
    PassthroughSymmetric(a.passthrough, b.passthrough);
    forall i | 0 <= i < |a.servers| ensures ServerEqual(b.servers[i], a.servers[i]) && NoDup(b.servers[i].aliases) {
      assert a.servers[i] in a.servers;
      ServerEqualSymmetric(a.servers[i], b.servers[i]);
    }
  }

  // ----- The reload decision -----

  /** Two servers in what the certificates are posted for: names, redirect and certificate. */
  predicate PresentsEqual(a: Server, b: Server) {
    && a.hostname == b.hostname && a.redirectFromToWWW == b.redirectFromToWWW
    && |a.aliases| == |b.aliases| && Included(a.aliases, b.aliases)
    && CertEqual(a.sslCert, b.sslCert)
  }

  /** The certificates of two server lists, host by host. */
  predicate CertsEqual(a: seq<Server>, b: seq<Server>) {
    |a| == |b| && forall i | 0 <= i < |a| :: PresentsEqual(a[i], b[i])
  }

  lemma ClearingL4Coarsens(a: List<L4Service>, b: List<L4Service>)
    requires Matches(a, b, L4Equal)
    ensures Matches(ClearL4(a), ClearL4(b), L4Equal)
  {
    if a.Items? && a.elems != [] {
      L4EqualIsEquivalence();
      MatchesCoarser(a.elems, b.elems, L4Equal, ClearL4One, L4Equal);
      assert Map(ClearL4One, a.elems) == ClearL4(a).elems && Map(ClearL4One, b.elems) == ClearL4(b).elems;
    }
  }

  lemma ServersDecompose(a: seq<Server>, b: seq<Server>)
    ensures ServersEqual(a, b) <==> ServersEqual(ClearServers(a), ClearServers(b)) && CertsEqual(a, b)
  {
    var ca, cb := ClearServers(a), ClearServers(b);
    if |a| == |b| {
      forall i | 0 <= i < |a|
        ensures ServerEqual(a[i], b[i]) <==> ServerEqual(ca[i], cb[i]) && PresentsEqual(a[i], b[i])
      {
        assert ca[i] == ClearServer(a[i]) && cb[i] == ClearServer(b[i]);
      }
    }
  }

  /** The whole comparison is the reload decision together with the comparison of the parts that the
      running nginx can be told: backends, stream services and certificates. */
  lemma EqualDecomposes(a: Configuration, b: Configuration)
    ensures ConfigEqual(a, b) <==>
            && DynamicEnough(a, b)
            && Matches(a.backends, b.backends, BackendEqual)
            && Matches(a.tcp, b.tcp, L4Equal) && Matches(a.udp, b.udp, L4Equal)
            && CertsEqual(a.servers, b.servers)
  {
    var noBackends: List<Backend> := Items([]);
    assert Matches(noBackends, noBackends, BackendEqual);
    if Matches(a.tcp, b.tcp, L4Equal) && Matches(a.udp, b.udp, L4Equal) {
      ClearingL4Coarsens(a.tcp, b.tcp);
      ClearingL4Coarsens(a.udp, b.udp);
    }
    ServersDecompose(a.servers, b.servers);
  }

  /** A configuration equal to the running one never asks for a reload. */
  lemma EqualNeverReloads(a: Configuration, b: Configuration)
    requires ConfigEqual(a, b)
    ensures DynamicEnough(a, b)
  {
    EqualDecomposes(a, b);
  }

  lemma DynamicEnoughTransitive(a: Configuration, b: Configuration, c: Configuration)
    requires DynamicEnough(a, b) && DynamicEnough(b, c)
    ensures DynamicEnough(a, c)
  {
    ConfigEqualTransitive(Erase(a), Erase(b), Erase(c));
  }
}
