/** Exactly what the comparison of configurations sees: a canonical form, from which everything it does not look at
    is erased, such that two configurations are equal precisely when their canonical forms are the same. */
module CanonicalForm {
  import opened Basics
  import opened Matching
  import opened MatchingProperties
  import opened ConfigEquality
  import opened ConfigEqualityProperties

  /** A Go slice up to order: nil, or so many of each element. */
  datatype Bag<T> = NilBag | Bag(elems: multiset<T>)

  ghost function BagOf<T, U>(l: List<T>, f: T -> U): Bag<U> {
    match l
    case Nil => NilBag
    case Items(s) => Bag(multiset(Map(f, s)))
  }

  // ----- Comparing lists is comparing bags -----

  /** The relation holds exactly between elements with the same image. */
  ghost predicate Kernel<T(!new), U>(eq: (T, T) -> bool, f: T -> U) {
    forall x, y :: eq(x, y) <==> f(x) == f(y)
  }

  lemma {:induction false} CountIsMultiplicity<T, U>(x: T, s: seq<T>, eq: (T, T) -> bool, f: T -> U)
    requires forall y | y in s :: eq(x, y) <==> f(x) == f(y)
    ensures Count(x, s, eq) == multiset(Map(f, s))[f(x)]
  {
    if s == [] {
      assert Map(f, s) == [];
    } else {
      CountIsMultiplicity(x, s[1..], eq, f);
      assert Map(f, s) == [f(s[0])] + Map(f, s[1..]);
    }
  }

  lemma SameCountsSameBag<T(!new), U>(a: seq<T>, b: seq<T>, eq: (T, T) -> bool, f: T -> U)
    requires Kernel(eq, f)
    ensures SameCounts(a, b, eq) <==> multiset(Map(f, a)) == multiset(Map(f, b))
  {
    var ma, mb := multiset(Map(f, a)), multiset(Map(f, b));
    forall x ensures Count(x, a, eq) == ma[f(x)] && Count(x, b, eq) == mb[f(x)] {
      CountIsMultiplicity(x, a, eq, f);
      CountIsMultiplicity(x, b, eq, f);
    }
    if SameCounts(a, b, eq) {
      forall u ensures ma[u] == mb[u] {
        ImageOrAbsent(a, f, u);
        ImageOrAbsent(b, f, u);
        if x :| f(x) == u {
          assert Count(x, a, eq) == Count(x, b, eq);
        }
      }
    }
  }

  lemma ImageOrAbsent<T(!new), U>(s: seq<T>, f: T -> U, u: U)
    ensures multiset(Map(f, s))[u] > 0 ==> exists x :: f(x) == u
  {
    if u in multiset(Map(f, s)) {
      assert u in Map(f, s);
      var k :| 0 <= k < |s| && Map(f, s)[k] == u;
      assert f(s[k]) == u;
    }
  }

  lemma MatchesIffBags<T(!new), U>(a: List<T>, b: List<T>, eq: (T, T) -> bool, f: T -> U)
    requires Kernel(eq, f)
    ensures Matches(a, b, eq) <==> BagOf(a, f) == BagOf(b, f)
  {
    if a.Items? && b.Items? {
      CompareExact(a.elems, b.elems, eq);
      SameCountsSameBag(a.elems, b.elems, eq, f);
      assert |multiset(Map(f, a.elems))| == |a.elems| && |multiset(Map(f, b.elems))| == |b.elems|;
    }
  }

  // ----- The canonical form -----

  function BlankService(s: Option<Service>): Option<Service> {
    match s
    case None => None
    case Some(x) => Some(x.(spec := ""))
  }

  /** A backend without the fields that its comparison does not look at. */
  function BlankBackend(b: Backend): Backend {
    b.(service := BlankService(b.service), policy := b.policy.(weightTotal := 0),
       affinity := b.affinity.(cookie := b.affinity.cookie.(locations := map[], changeOnFailure := false)))
  }

  function BlankLocation(l: Location): Location {
    l.(pathType := "", ingress := "", ingressPath := "", defaultBackend := "", service := BlankService(l.service))
  }

  function BlankL4(s: L4Service): L4Service {
    s.(service := None)
  }

  function BlankPassthrough(p: Passthrough): Passthrough {
    p.(service := BlankService(p.service))
  }

  function BlankCert(c: Cert): Cert {
    c.(ns := "", name := "", pemFileName := "")
  }

  function BlankCertOption(c: Option<Cert>): Option<Cert> {
    match c
    case None => None
    case Some(x) => Some(BlankCert(x))
  }

  datatype SeenBackend = SeenBackend(rest: Backend, endpoints: Bag<Endpoint>, alternatives: Bag<string>)
  datatype SeenL4 = SeenL4(rest: L4Service, endpoints: Bag<Endpoint>)
  datatype SeenLocation = SeenLocation(rest: Location, customErrors: Bag<int>)
  datatype SeenCert = SeenCert(rest: Cert, cn: Bag<string>)
  datatype SeenServer = SeenServer(rest: Server, cert: Option<SeenCert>, locations: seq<SeenLocation>,
                                   aliases: set<string>)
  datatype Seen = Seen(defaultCert: Option<SeenCert>, backends: Bag<SeenBackend>, servers: seq<SeenServer>,
                       tcp: Bag<SeenL4>, udp: Bag<SeenL4>, passthrough: set<Passthrough>,
                       backendConfigChecksum: string)

  function Same<T>(x: T): T { x }

  ghost function OfBackend(b: Backend): SeenBackend {
    SeenBackend(BlankBackend(b).(endpoints := Nil, alternatives := Nil), BagOf(b.endpoints, Same),
                BagOf(b.alternatives, Same))
  }

  ghost function OfL4(s: L4Service): SeenL4 {
    SeenL4(BlankL4(s).(endpoints := Nil), BagOf(s.endpoints, Same))
  }

  ghost function OfLocation(l: Location): SeenLocation {
    SeenLocation(BlankLocation(l).(customErrors := Nil), BagOf(l.customErrors, Same))
  }

  ghost function OfCert(c: Option<Cert>): Option<SeenCert> {
    match c
    case None => None
    case Some(x) => Some(SeenCert(BlankCert(x).(cn := Nil), BagOf(x.cn, Same)))
  }

  ghost function OfServer(s: Server): SeenServer {
    SeenServer(s.(sslCert := None, locations := [], aliases := []), OfCert(s.sslCert), Map(OfLocation, s.locations),
               ToSet(s.aliases))
  }

  ghost function Canon(c: Configuration): Seen {
    Seen(OfCert(c.defaultCert), BagOf(c.backends, OfBackend), Map(OfServer, c.servers), BagOf(c.tcp, OfL4),
         BagOf(c.udp, OfL4), ToSet(Map(BlankPassthrough, c.passthrough)), c.backendConfigChecksum)
  }

  // ----- The comparison of the parts sees their canonical forms -----

  lemma PlainKernel<T(!new)>(eq: (T, T) -> bool)
    requires forall x, y :: eq(x, y) <==> x == y
    ensures Kernel(eq, Same)
  {
  }

  lemma ListSeen<T(!new)>(a: List<T>, b: List<T>, eq: (T, T) -> bool)
    requires forall x, y :: eq(x, y) <==> x == y
    ensures Matches(a, b, eq) <==> BagOf(a, Same) == BagOf(b, Same)
  {
    PlainKernel(eq);
    MatchesIffBags(a, b, eq, Same);
  }

  lemma BackendSeen(a: Backend, b: Backend)
    ensures BackendEqual(a, b) <==> OfBackend(a) == OfBackend(b)
  {
    ListSeen(a.endpoints, b.endpoints, EndpointEqual);
    ListSeen(a.alternatives, b.alternatives, StringEqual);
  }

  lemma L4Seen(a: L4Service, b: L4Service)
    ensures L4Equal(a, b) <==> OfL4(a) == OfL4(b)
  {
    ListSeen(a.endpoints, b.endpoints, EndpointEqual);
  }

  lemma LocationSeen(a: Location, b: Location)
    ensures LocationEqual(a, b) <==> OfLocation(a) == OfLocation(b)
  {
    ListSeen(a.customErrors, b.customErrors, IntEqual);
  }

  lemma CertSeen(a: Option<Cert>, b: Option<Cert>)
    ensures CertEqual(a, b) <==> OfCert(a) == OfCert(b)
  {
    if a.Some? && b.Some? {
      ListSeen(a.value.cn, b.value.cn, StringEqual);
    }
  }

  lemma LocationsSeen(a: seq<Location>, b: seq<Location>)
    ensures LocationsEqual(a, b) <==> Map(OfLocation, a) == Map(OfLocation, b)
  {
    forall x, y ensures LocationEqual(x, y) <==> OfLocation(x) == OfLocation(y) {
      LocationSeen(x, y);
    }
    if Map(OfLocation, a) == Map(OfLocation, b) {
      forall i | 0 <= i < |a| ensures LocationEqual(a[i], b[i]) {
        assert Map(OfLocation, a)[i] == Map(OfLocation, b)[i];
      }
    }
  }

  lemma AliasesSeen(a: seq<string>, b: seq<string>)
    requires NoDup(a) && NoDup(b)
    ensures |a| == |b| && Included(a, b) <==> ToSet(a) == ToSet(b)
  {
    DistinctCount(a);
    DistinctCount(b);
    if |a| == |b| && Included(a, b) {
      Pigeonhole(a, b);
    }
    if ToSet(a) == ToSet(b) {
      forall x | x in a ensures x in b {
        assert x in ToSet(a);
      }
    }
  }

  lemma ServerSeen(a: Server, b: Server)
    requires NoDup(a.aliases) && NoDup(b.aliases)
    ensures ServerEqual(a, b) <==> OfServer(a) == OfServer(b)
  {
    CertSeen(a.sslCert, b.sslCert);
    LocationsSeen(a.locations, b.locations);
    AliasesSeen(a.aliases, b.aliases);
  }

  lemma ServersSeen(a: seq<Server>, b: seq<Server>)
    requires (forall s | s in a :: NoDup(s.aliases)) && (forall s | s in b :: NoDup(s.aliases))
    ensures ServersEqual(a, b) <==> Map(OfServer, a) == Map(OfServer, b)
  {
    if |a| == |b| {
      forall i | 0 <= i < |a| ensures ServerEqual(a[i], b[i]) <==> Map(OfServer, a)[i] == Map(OfServer, b)[i] {
        assert a[i] in a && b[i] in b;
        ServerSeen(a[i], b[i]);
      }
    }
  }

  lemma PassthroughsSeen(a: seq<Passthrough>, b: seq<Passthrough>)
    requires NoDup(Hostnames(a)) && NoDup(Hostnames(b))
    ensures PassthroughsEqual(a, b) <==> ToSet(Map(BlankPassthrough, a)) == ToSet(Map(BlankPassthrough, b))
  {
    var ca, cb := Map(BlankPassthrough, a), Map(BlankPassthrough, b);
    assert NoDup(ca) && NoDup(cb) by {
      assert forall i | 0 <= i < |a| :: ca[i].hostname == Hostnames(a)[i];
      assert forall i | 0 <= i < |b| :: cb[i].hostname == Hostnames(b)[i];
    }
    AllHaveEqual(a, b);
    DistinctCount(ca);
    DistinctCount(cb);
    if |a| == |b| && forall x | x in ca :: x in cb {
      Pigeonhole(ca, cb);
    }
    if ToSet(ca) == ToSet(cb) {
      forall x | x in ca ensures x in cb {
        assert x in ToSet(ca);
      }
    }
  }

  lemma AllHaveEqual(a: seq<Passthrough>, b: seq<Passthrough>)
    ensures (forall x | x in a :: HasEqual(x, b)) <==>
            forall x | x in Map(BlankPassthrough, a) :: x in Map(BlankPassthrough, b)
  {
    var ca, cb := Map(BlankPassthrough, a), Map(BlankPassthrough, b);
    forall i | 0 <= i < |a| ensures HasEqual(a[i], b) <==> ca[i] in cb {
      if HasEqual(a[i], b) {
        var y :| y in b && PassthroughEqual(a[i], y);
        var j :| 0 <= j < |b| && b[j] == y;
        assert cb[j] == ca[i];
      }
      if ca[i] in cb {
        var j :| 0 <= j < |b| && cb[j] == ca[i];
        assert b[j] in b && PassthroughEqual(a[i], b[j]);
      }
    }
    if forall x | x in a :: HasEqual(x, b) {
      forall x | x in ca ensures x in cb {
        var i :| 0 <= i < |a| && ca[i] == x;
        assert a[i] in a;
      }
    }
    if forall x | x in ca :: x in cb {
      forall x | x in a ensures HasEqual(x, b) {
        var i :| 0 <= i < |a| && a[i] == x;
        assert ca[i] in ca;
      }
    }
  }

  /** The comparison sees exactly the canonical form: on configurations as the builder makes them it answers true if
      and only if their canonical forms are the same. */
  lemma EqualIffSameCanon(a: Configuration, b: Configuration)
    requires WellFormed(a) && WellFormed(b)
    ensures ConfigEqual(a, b) <==> Canon(a) == Canon(b)
  {
    CertSeen(a.defaultCert, b.defaultCert);
    BackendsSeen(a.backends, b.backends);
    ServersSeen(a.servers, b.servers);
    StreamsSeen(a.tcp, b.tcp);
    StreamsSeen(a.udp, b.udp);
    PassthroughsSeen(a.passthrough, b.passthrough);
  }

  lemma BackendsSeen(a: List<Backend>, b: List<Backend>)
    ensures Matches(a, b, BackendEqual) <==> BagOf(a, OfBackend) == BagOf(b, OfBackend)
  {
    forall x, y ensures BackendEqual(x, y) <==> OfBackend(x) == OfBackend(y) {
      BackendSeen(x, y);
    }
    MatchesIffBags(a, b, BackendEqual, OfBackend);
  }

  lemma StreamsSeen(a: List<L4Service>, b: List<L4Service>)
    ensures Matches(a, b, L4Equal) <==> BagOf(a, OfL4) == BagOf(b, OfL4)
  {
    forall x, y ensures L4Equal(x, y) <==> OfL4(x) == OfL4(y) {
      L4Seen(x, y);
    }
    MatchesIffBags(a, b, L4Equal, OfL4);
  }

  // ----- What no comparison sees, whatever the configuration -----

  function MapList<T, U>(f: T -> U, l: List<T>): List<U> {
    match l
    case Nil => Nil
    case Items(s) => Items(Map(f, s))
  }

  function BlankServer(s: Server): Server {
    s.(locations := Map(BlankLocation, s.locations), sslCert := BlankCertOption(s.sslCert))
  }

  /** The configuration with everything blanked that its comparison does not look at: the spec of every Service, the
      paths and the behaviour on failure of session cookies, the total weight of canaries, the path type, the Ingress
      and the custom default backend of locations, the Secret and the file name of certificates, the stream snippets and
      the checksum of the configuration itself. */
  function Blank(c: Configuration): Configuration {
    c.(defaultCert := BlankCertOption(c.defaultCert),
       backends := MapList(BlankBackend, c.backends), servers := Map(BlankServer, c.servers),
       tcp := MapList(BlankL4, c.tcp), udp := MapList(BlankL4, c.udp),
       passthrough := Map(BlankPassthrough, c.passthrough), configurationChecksum := "", streamSnippets := [])
  }

  lemma MapMatches<T(!new)>(l: List<T>, f: T -> T, eq: (T, T) -> bool)
    requires Equivalence(eq) && forall x :: eq(x, f(x))
    ensures Matches(l, MapList(f, l), eq) && Matches(MapList(f, l), l, eq)
  {
    if l.Items? {
      var p := seq(|l.elems|, i requires 0 <= i < |l.elems| => i);
      assert Pairs(l.elems, Map(f, l.elems), p, eq);
      CompareExact(l.elems, Map(f, l.elems), eq);
      MatchesSymmetric(l, MapList(f, l), eq);
    }
  }

  lemma BlankCertEqual(c: Option<Cert>)
    ensures CertEqual(c, BlankCertOption(c)) && CertEqual(BlankCertOption(c), c)
  {
    ListsOfEquivalent(StringEqual);
  }

  lemma BlankServerEqual(s: Server)
    ensures ServerEqual(s, BlankServer(s)) && ServerEqual(BlankServer(s), s)
  {
    BlankCertEqual(s.sslCert);
    ListsOfEquivalent(IntEqual);
  }

  lemma BlankPassthroughsEqual(ps: seq<Passthrough>)
    ensures PassthroughsEqual(ps, Map(BlankPassthrough, ps)) && PassthroughsEqual(Map(BlankPassthrough, ps), ps)
  {
    var bs := Map(BlankPassthrough, ps);
    forall p | p in ps ensures HasEqual(p, bs) {
      var i :| 0 <= i < |ps| && ps[i] == p;
      assert bs[i] in bs && PassthroughEqual(p, bs[i]);
    }
    forall p | p in bs ensures HasEqual(p, ps) {
      var i :| 0 <= i < |bs| && bs[i] == p;
      assert ps[i] in ps && PassthroughEqual(p, ps[i]);
    }
  }

  lemma BlankIsEqual(c: Configuration)
    ensures ConfigEqual(c, Blank(c)) && ConfigEqual(Blank(c), c)
  {
    BlankCertEqual(c.defaultCert);
    BackendEqualIsEquivalence();
    L4EqualIsEquivalence();
    ListsOfEquivalent(EndpointEqual);
    ListsOfEquivalent(StringEqual);
    MapMatches(c.backends, BlankBackend, BackendEqual);
    MapMatches(c.tcp, BlankL4, L4Equal);
    MapMatches(c.udp, BlankL4, L4Equal);
    forall i | 0 <= i < |c.servers|
      ensures ServerEqual(c.servers[i], Blank(c).servers[i]) && ServerEqual(Blank(c).servers[i], c.servers[i])
    {
      BlankServerEqual(c.servers[i]);
    }
    BlankPassthroughsEqual(c.passthrough);
  }

  /** Configurations that differ only there are taken for equal, so such a change alone never reaches nginx. */
  lemma UnseenChanges(a: Configuration, b: Configuration)
    requires Blank(a) == Blank(b)
    ensures ConfigEqual(a, b)
  {
    BlankIsEqual(a);
    BlankIsEqual(b);
    ConfigEqualTransitive(a, Blank(a), b);
  }
}
