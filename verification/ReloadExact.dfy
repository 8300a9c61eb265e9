/** Exactly which changes reload nginx. */
module ReloadExact {
  import opened Basics
  import opened Matching
  import opened ConfigEquality
  import opened ConfigEqualityProperties
  import CanonicalForm
  import opened SyncLoop
  import opened SyncConvergence

  // ----- Streams without what they are sent to -----

  /** What nginx is configured with for a stream service: port and backend. */
  function Shape(s: L4Service): (int, string) { (s.port, s.backend) }

  function Shapes(l: List<L4Service>): seq<(int, string)> {
    match l
    case Nil => []
    case Items(s) => Map(Shape, s)
  }

  lemma MapTwice<T, U, V>(f: T -> U, g: U -> V, h: T -> V, s: seq<T>)
    requires forall x :: g(f(x)) == h(x)
    ensures Map(g, Map(f, s)) == Map(h, s)
  {
  }

  ghost function SeenShape(x: L4Service): CanonicalForm.SeenL4 {
    CanonicalForm.OfL4(ClearL4One(x))
  }

  lemma SeenAsShape(a: seq<L4Service>, b: seq<L4Service>)
    ensures multiset(Map(SeenShape, a)) == multiset(Map(SeenShape, b)) <==>
            multiset(Map(Shape, a)) == multiset(Map(Shape, b))
  {
    var down := (s: CanonicalForm.SeenL4) => (s.rest.port, s.rest.backend);
    var up := (p: (int, string)) => CanonicalForm.OfL4(L4Service(p.0, p.1, Items([]), None));
    MapTwice(SeenShape, down, Shape, a);
    MapTwice(SeenShape, down, Shape, b);
    MapTwice(Shape, up, SeenShape, a);
    MapTwice(Shape, up, SeenShape, b);
    if multiset(Map(SeenShape, a)) == multiset(Map(SeenShape, b)) {
      MapPermuted(down, Map(SeenShape, a), Map(SeenShape, b));
    }
    if multiset(Map(Shape, a)) == multiset(Map(Shape, b)) {
      MapPermuted(up, Map(Shape, a), Map(Shape, b));
    }
  }

  function Elems(l: List<L4Service>): seq<L4Service> {
    match l
    case Nil => []
    case Items(s) => s
  }

  lemma ClearedStreams(a: List<L4Service>, b: List<L4Service>)
    ensures Matches(ClearL4(a), ClearL4(b), L4Equal) <==> multiset(Shapes(a)) == multiset(Shapes(b))
  {
    var x, y := Elems(a), Elems(b);
    CanonicalForm.StreamsSeen(ClearL4(a), ClearL4(b));
    SeenAsShape(x, y);
    ClearedBag(a);
    ClearedBag(b);
    assert |multiset(Map(Shape, x))| == |x| && |multiset(Map(Shape, y))| == |y|;
  }

  lemma ClearedBag(l: List<L4Service>)
    ensures CanonicalForm.BagOf(ClearL4(l), CanonicalForm.OfL4) ==
            if Elems(l) == [] then CanonicalForm.NilBag else CanonicalForm.Bag(multiset(Map(SeenShape, Elems(l))))
  {
    if Elems(l) != [] {
      MapTwice(ClearL4One, CanonicalForm.OfL4, SeenShape, Elems(l));
      assert ClearL4(l).elems == Map(ClearL4One, Elems(l));
    }
  }

  // ----- The decision -----

  /** No reload is needed exactly if the default certificates, the servers up to their certificates, the ports and
      backends of the stream services, the passthrough entries and the checksum of the global settings compare equal.
      Backends, certificates of servers, and the endpoints and Services of streams play no part. */
  lemma NoReloadIff(a: Configuration, b: Configuration)
    ensures DynamicEnough(a, b) <==>
            && CertEqual(a.defaultCert, b.defaultCert)
            && |a.servers| == |b.servers|
            && (forall i | 0 <= i < |a.servers| :: ServerShapeEqual(a.servers[i], b.servers[i]))
            && multiset(Shapes(a.tcp)) == multiset(Shapes(b.tcp)) && multiset(Shapes(a.udp)) == multiset(Shapes(b.udp))
            && PassthroughsEqual(a.passthrough, b.passthrough)
            && a.backendConfigChecksum == b.backendConfigChecksum
  {
    ClearedStreams(a.tcp, b.tcp);
    ClearedStreams(a.udp, b.udp);
    ClearedServers(a.servers, b.servers);
  }

  lemma ClearedServers(a: seq<Server>, b: seq<Server>)
    ensures ServersEqual(ClearServers(a), ClearServers(b)) <==>
            |a| == |b| && forall i | 0 <= i < |a| :: ServerShapeEqual(a[i], b[i])
  {
    if |a| == |b| {
      forall i | 0 <= i < |a|
        ensures ServerEqual(ClearServers(a)[i], ClearServers(b)[i]) <==> ServerShapeEqual(a[i], b[i])
      {
      }
    }
  }

  /** The stream services are the same but for their endpoints and Services. */
  predicate SamePorts(a: List<L4Service>, b: List<L4Service>) {
    Shapes(a) == Shapes(b)
  }

  /** The target differs from the configuration in nothing but backends, certificates of servers, and endpoints and
      Services of streams. */
  predicate OnlyDynamic(c: Configuration, d: Configuration) {
    && d == c.(backends := d.backends, servers := d.servers, tcp := d.tcp, udp := d.udp)
    && |d.servers| == |c.servers|
    && (forall i | 0 <= i < |c.servers| :: d.servers[i] == c.servers[i].(sslCert := d.servers[i].sslCert))
    && SamePorts(c.tcp, d.tcp) && SamePorts(c.udp, d.udp)
  }

  lemma OnlyDynamicEnough(c: Configuration, d: Configuration)
    requires OnlyDynamic(c, d)
    ensures DynamicEnough(c, d)
  {
    NoReloadIff(c, d);
    FitsItself(c);
    ServerShapeReflexive(c.servers, d.servers);
    ConfigEqualReflexive(c);
  }

  lemma ServerShapeReflexive(a: seq<Server>, b: seq<Server>)
    requires |a| == |b| && forall i | 0 <= i < |a| :: b[i] == a[i].(sslCert := b[i].sslCert)
    ensures forall i | 0 <= i < |a| :: ServerShapeEqual(a[i], b[i])
  {
    forall i | 0 <= i < |a| ensures ServerShapeEqual(a[i], b[i]) {
      ServerEqualReflexive(a[i]);
    }
  }

  /** So scaling a Deployment, renewing a certificate or moving the endpoints of a stream service never reloads nginx,
      and leaves the loaded configuration alone however the posts end. */
  lemma DynamicChangeNeverReloads(running: Configuration, s: Serving, d: Configuration, a: Attempt)
    requires OnlyDynamic(running, d)
    ensures Sync(running, s, d, a).1.loaded == s.loaded
  {
    OnlyDynamicEnough(running, d);
    RetryParts(running, s, d, a.tries);
  }

  /** In general an attempt loads the target exactly if a reload is needed and takes effect. */
  lemma LoadsIff(running: Configuration, s: Serving, d: Configuration, a: Attempt)
    ensures Sync(running, s, d, a).1.loaded ==
            if !DynamicEnough(running, d) && a.reload != Lost then d.(configurationChecksum := a.hash) else s.loaded
  {
    if ConfigEqual(running, d) {
      EqualNeverReloads(running, d);
    }
    var d' := if DynamicEnough(running, d) then d else d.(configurationChecksum := a.hash);
    var s1 := if !DynamicEnough(running, d) && a.reload.Applied() then s.(loaded := d') else s;
    RetryParts(running, s1, d', a.tries);
  }

  /** A change of the backends alone is told to nginx and never reloads it. */
  lemma BackendsAreDynamic(c: Configuration, backends: List<Backend>)
    ensures DynamicEnough(c, c.(backends := backends))
  {
    OnlyDynamicEnough(c, c.(backends := backends));
  }
}
