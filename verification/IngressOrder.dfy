/** What the builder makes of the Ingresses, told by their positions in the input: Ingress by Ingress, rule by rule,
    path by path. */
module IngressOrder {
  import opened Basics
  import opened Paths
  import opened ServerBuilder
  import opened FirstClaim

  /** A path in the input: path `k` of rule `j` of Ingress `i`. */
  datatype Position = Position(i: nat, j: nat, k: nat)

  predicate Before(a: Position, b: Position) {
    a.i < b.i || (a.i == b.i && (a.j < b.j || (a.j == b.j && a.k < b.k)))
  }

  /** There is a path at the position, and it names a service. */
  predicate ServicePath(ings: seq<Ingress>, at: Position) {
    && at.i < |ings| && at.j < |ings[at.i].rules| && ings[at.i].rules[at.j].http.Some?
    && at.k < |ings[at.i].rules[at.j].http.value| && ings[at.i].rules[at.j].http.value[at.k].service.Some?
  }

  function PathAt(ings: seq<Ingress>, at: Position): PathRule
    requires ServicePath(ings, at)
  {
    ings[at.i].rules[at.j].http.value[at.k]
  }

  /** The reference of a service path: a rule without a host speaks for "_", a path that is not given is "/". */
  function RefAt(ings: seq<Ingress>, at: Position): Ref
    requires ServicePath(ings, at)
  {
    var ing, rule, p := ings[at.i], ings[at.i].rules[at.j], PathAt(ings, at);
    Ref(if rule.host == "" then "_" else rule.host, if p.path == "" then "/" else p.path, p.pathType,
        UpstreamName(ing.ns, p.service), ing.canary, at.i)
  }

  // ----- The references are the service paths, in the order of the input -----

  function PathPositions(i: nat, j: nat, paths: seq<PathRule>): seq<Position> {
    if paths == [] then []
    else
      var k := |paths| - 1;
      PathPositions(i, j, paths[..k]) + if paths[k].service.None? then [] else [Position(i, j, k)]
  }

  function RulePositions(i: nat, rules: seq<Rule>): seq<Position> {
    if rules == [] then []
    else
      var j := |rules| - 1;
      RulePositions(i, rules[..j]) + if rules[j].http.None? then [] else PathPositions(i, j, rules[j].http.value)
  }

  function Positions(ings: seq<Ingress>): seq<Position> {
    if ings == [] then []
    else
      var i := |ings| - 1;
      Positions(ings[..i]) + RulePositions(i, ings[i].rules)
  }

  ghost predicate InOrder(ps: seq<Position>) {
    forall m, n | 0 <= m < n < |ps| :: Before(ps[m], ps[n])
  }

  lemma InOrderConcat(a: seq<Position>, b: seq<Position>)
    requires InOrder(a) && InOrder(b) && forall p, q | p in a && q in b :: Before(p, q)
    ensures InOrder(a + b)
  {
    forall m, n | 0 <= m < n < |a + b| ensures Before((a + b)[m], (a + b)[n]) {
      if m < |a| && n >= |a| {
        assert a[m] in a && b[n - |a|] in b;
      }
    }
  }

  lemma {:induction false} PathPositionsExact(i: nat, j: nat, paths: seq<PathRule>)
    ensures InOrder(PathPositions(i, j, paths))
    ensures forall p :: p in PathPositions(i, j, paths) <==>
              p.i == i && p.j == j && p.k < |paths| && paths[p.k].service.Some?
  {
    if paths != [] {
      var k := |paths| - 1;
      PathPositionsExact(i, j, paths[..k]);
      InOrderConcat(PathPositions(i, j, paths[..k]), if paths[k].service.None? then [] else [Position(i, j, k)]);
    }
  }

  lemma {:induction false} RulePositionsExact(i: nat, rules: seq<Rule>)
    ensures InOrder(RulePositions(i, rules))
    ensures forall p :: p in RulePositions(i, rules) <==>
              && p.i == i && p.j < |rules| && rules[p.j].http.Some? && p.k < |rules[p.j].http.value|
              && rules[p.j].http.value[p.k].service.Some?
  {
    if rules != [] {
      var j := |rules| - 1;
      RulePositionsExact(i, rules[..j]);
      if rules[j].http.Some? {
        PathPositionsExact(i, j, rules[j].http.value);
        InOrderConcat(RulePositions(i, rules[..j]), PathPositions(i, j, rules[j].http.value));
      }
    }
  }

  lemma {:induction false} PositionsExact(ings: seq<Ingress>)
    ensures InOrder(Positions(ings))
    ensures forall p :: p in Positions(ings) <==> ServicePath(ings, p)
  {
    if ings != [] {
      var i := |ings| - 1;
      PositionsExact(ings[..i]);
      RulePositionsExact(i, ings[i].rules);
      InOrderConcat(Positions(ings[..i]), RulePositions(i, ings[i].rules));
      forall p ensures p in Positions(ings) <==> ServicePath(ings, p) {
        assert p.i < i ==> (ServicePath(ings, p) <==> ServicePath(ings[..i], p));
      }
    }
  }

  lemma {:induction false} PathRefsAt(ing: Ingress, i: nat, j: nat, paths: seq<PathRule>)
    requires j < |ing.rules|
    ensures var ps, refs := PathPositions(i, j, paths), PathRefs(ing, i, ing.rules[j], paths);
            && |refs| == |ps|
            && forall m | 0 <= m < |ps| ::
                 ps[m].k < |paths| && refs[m] == RefOf(ing, i, ing.rules[j], paths[ps[m].k])
  {
    if paths != [] {
      PathRefsAt(ing, i, j, paths[..|paths| - 1]);
    }
  }

  lemma {:induction false} RuleRefsAt(ing: Ingress, i: nat, rules: seq<Rule>)
    requires rules <= ing.rules
    ensures var ps, refs := RulePositions(i, rules), RuleRefs(ing, i, rules);
            && |refs| == |ps|
            && forall m | 0 <= m < |ps| ::
                 && ps[m].j < |rules| && rules[ps[m].j].http.Some? && ps[m].k < |rules[ps[m].j].http.value|
                 && refs[m] == RefOf(ing, i, rules[ps[m].j], rules[ps[m].j].http.value[ps[m].k])
  {
    if rules != [] {
      var j := |rules| - 1;
      RuleRefsAt(ing, i, rules[..j]);
      if rules[j].http.Some? {
        PathRefsAt(ing, i, j, rules[j].http.value);
        PathPositionsExact(i, j, rules[j].http.value);
        assert rules[j] == ing.rules[j];
        forall m | 0 <= m < |PathPositions(i, j, rules[j].http.value)|
          ensures PathPositions(i, j, rules[j].http.value)[m].j == j
        {
          assert PathPositions(i, j, rules[j].http.value)[m] in PathPositions(i, j, rules[j].http.value);
        }
      }
    }
  }

  /** The references are those of the paths at the positions. */
  ghost predicate Match(ings: seq<Ingress>, ps: seq<Position>, refs: seq<Ref>) {
    |refs| == |ps| && forall m | 0 <= m < |ps| :: ServicePath(ings, ps[m]) && refs[m] == RefAt(ings, ps[m])
  }

  lemma RuleMatch(ings: seq<Ingress>, i: nat)
    requires i < |ings|
    ensures Match(ings, RulePositions(i, ings[i].rules), RuleRefs(ings[i], i, ings[i].rules))
  {
    var ps := RulePositions(i, ings[i].rules);
    RuleRefsAt(ings[i], i, ings[i].rules);
    RulePositionsExact(i, ings[i].rules);
    forall m | 0 <= m < |ps| ensures ServicePath(ings, ps[m]) {
      assert ps[m] in ps;
    }
  }

  lemma MatchLonger(ings: seq<Ingress>, n: nat, ps: seq<Position>, refs: seq<Ref>)
    requires n <= |ings| && Match(ings[..n], ps, refs)
    ensures Match(ings, ps, refs)
  {
    forall m | 0 <= m < |ps| ensures ServicePath(ings, ps[m]) && refs[m] == RefAt(ings, ps[m]) {
      assert ServicePath(ings[..n], ps[m]) && ings[..n][ps[m].i] == ings[ps[m].i];
    }
  }

  /** The references that the builder works through are exactly the service paths, in the order of the input. */
  lemma {:induction false} RefsAt(ings: seq<Ingress>)
    ensures Match(ings, Positions(ings), Refs(ings))
  {
    if ings != [] {
      var i := |ings| - 1;
      RefsAt(ings[..i]);
      MatchLonger(ings, i, Positions(ings[..i]), Refs(ings[..i]));
      RuleMatch(ings, i);
    }
  }

  // ----- Who asks first -----

  /** The path at the position, of an Ingress that is no canary, asks for a location. */
  predicate Asks(ings: seq<Ingress>, at: Position, host: string, path: string, pathType: PathType) {
    && ServicePath(ings, at) && !ings[at.i].canary
    && RefAt(ings, at).host == host && RefAt(ings, at).path == path && PathAt(ings, at).pathType == pathType
  }

  /** Nobody before it asks for the same location. */
  ghost predicate AsksFirst(ings: seq<Ingress>, at: Position, host: string, path: string, pathType: PathType) {
    Asks(ings, at, host, path, pathType) && forall b | Before(b, at) :: !Asks(ings, b, host, path, pathType)
  }

  lemma {:induction false} FirstClaimantAt(s: Servers, ups: Upstreams, refs: seq<Ref>, host: string, path: string,
                                           pathType: PathType, m: nat)
    requires m <= |refs| && forall n | 0 <= n < m :: !Claims(s, ups, refs[n], host, path, pathType)
    requires m < |refs| ==> Claims(s, ups, refs[m], host, path, pathType)
    ensures FirstClaimant(s, ups, refs, host, path, pathType) == if m < |refs| then Some(refs[m]) else None
  {
    if refs != [] {
      var init := refs[..|refs| - 1];
      FirstClaimantAt(s, ups, init, host, path, pathType, if m < |init| then m else |init|);
    }
  }

  /** Under name-disjointness the claims are made exactly by the paths that are no canary's. */
  lemma ClaimsIffAsks(ings: seq<Ingress>, m: nat, host: string, path: string, pathType: PathType)
    requires Disjoint(ings) && m < |Refs(ings)| == |Positions(ings)|
    ensures Claims(InitialServers(ings), UpstreamsOf(Uses(ings)), Refs(ings)[m], host, path, pathType) <==>
            Asks(ings, Positions(ings)[m], host, path, pathType)
  {
    var r, at := Refs(ings)[m], Positions(ings)[m];
    RefsAt(ings);
    RefIsUse(ings, r);
    NoServerIffCanary(Uses(ings), Use(r.name, r.canary, false));
    if !ings[at.i].canary {
      HostHasServer(ings, at.i, at.j);
    }
  }

  /** The position of the first path that asks, if any does. */
  lemma FirstAsking(ings: seq<Ingress>, host: string, path: string, pathType: PathType) returns (m: nat)
    ensures m <= |Positions(ings)|
    ensures m < |Positions(ings)| ==> AsksFirst(ings, Positions(ings)[m], host, path, pathType)
    ensures m == |Positions(ings)| ==> forall at :: !Asks(ings, at, host, path, pathType)
    ensures forall n | 0 <= n < m :: !Asks(ings, Positions(ings)[n], host, path, pathType)
  {
    var ps := Positions(ings);
    m := 0;
    while m < |ps| && !Asks(ings, ps[m], host, path, pathType)
      invariant m <= |ps| && forall n | 0 <= n < m :: !Asks(ings, ps[n], host, path, pathType)
    {
      m := m + 1;
    }
    PositionsExact(ings);
    forall b | Asks(ings, b, host, path, pathType) ensures m < |ps| && !Before(b, ps[m]) {
      var n :| 0 <= n < |ps| && ps[n] == b;
      assert m <= n;
    }
  }

  /** The first claimant of a location is the first path in the input that asks for it. */
  lemma FirstClaimantAsksFirst(ings: seq<Ingress>, host: string, path: string, pathType: PathType)
    requires Disjoint(ings)
    ensures var first := FirstClaimant(InitialServers(ings), UpstreamsOf(Uses(ings)), Refs(ings), host, path, pathType);
            && (first.None? <==> forall at :: !Asks(ings, at, host, path, pathType))
            && forall at | AsksFirst(ings, at, host, path, pathType) :: first == Some(RefAt(ings, at))
  {
    var s, ups, refs, ps := InitialServers(ings), UpstreamsOf(Uses(ings)), Refs(ings), Positions(ings);
    var m := FirstAsking(ings, host, path, pathType);
    RefsAt(ings);
    forall n | 0 <= n < |refs|
      ensures Claims(s, ups, refs[n], host, path, pathType) <==> Asks(ings, ps[n], host, path, pathType)
    {
      ClaimsIffAsks(ings, n, host, path, pathType);
    }
    FirstClaimantAt(s, ups, refs, host, path, pathType, m);
    if m < |ps| {
      forall at | AsksFirst(ings, at, host, path, pathType) ensures at == ps[m] {
        OnlyFirst(ings, at, ps[m], host, path, pathType);
      }
    }
  }

  lemma OnlyFirst(ings: seq<Ingress>, a: Position, b: Position, host: string, path: string, pathType: PathType)
    requires AsksFirst(ings, a, host, path, pathType) && AsksFirst(ings, b, host, path, pathType)
    ensures a == b
  {
    assert !Before(a, b) && !Before(b, a);
  }

  // ----- Hosts and their roots -----

  /** Rule `j` of Ingress `i`, which is no canary, names the host. */
  predicate NamesHost(ings: seq<Ingress>, i: nat, host: string) {
    && i < |ings| && !ings[i].canary
    && exists j | 0 <= j < |ings[i].rules| ::
         (if ings[i].rules[j].host == "" then "_" else ings[i].rules[j].host) == host
  }

  ghost predicate NamesFirst(ings: seq<Ingress>, i: nat, host: string) {
    NamesHost(ings, i, host) && forall h: nat | h < i :: !NamesHost(ings, h, host)
  }

  /** The upstream of the default backend of an Ingress, if that is a service. */
  function DefaultOf(ing: Ingress): string {
    match ing.defaultBackend
    case Some(Some(service)) => UpstreamName(ing.ns, Some(service))
    case _ => "upstream-default-backend"
  }

  lemma {:induction false} HostsAdded(s: Servers, ing: Ingress, owner: nat, rules: seq<Rule>, host: string)
    ensures var s' := AddHosts(s, ing, owner, rules);
            && (host in s' <==> host in s || exists j | 0 <= j < |rules| :: HostOf(rules[j]) == host)
            && (host in s ==> s'[host] == s[host])
            && (host !in s && host in s' ==> s'[host] == [Location(ROOT, Prefix, true, DefaultName(ing), Some(owner))])
  {
    if rules != [] {
      var init := rules[..|rules| - 1];
      HostsAdded(s, ing, owner, init, host);
      if j :| 0 <= j < |rules| && HostOf(rules[j]) == host && j < |init| {
        assert HostOf(init[j]) == host;
      }
      if j :| 0 <= j < |init| && HostOf(init[j]) == host {
        assert HostOf(rules[j]) == host;
      }
    }
  }

  /** One Ingress more: a host that it is the first to name gets a server. */
  lemma HostsStep(ings: seq<Ingress>, n: nat, host: string)
    requires n < |ings| && host != "_"
    ensures var before, after := InitialServers(ings[..n]), InitialServers(ings[..n + 1]);
            && (host in after <==> host in before || NamesHost(ings, n, host))
            && (host in before ==> after[host] == before[host])
            && (host !in before && host in after ==>
                  after[host] == [Location("/", Prefix, true, DefaultOf(ings[n]), Some(n))])
  {
    var before, ing := InitialServers(ings[..n]), ings[n];
    PrefixDropsLast(ings, n);
    if !ing.canary {
      HostsAdded(TakeDefault(before, ing, n), ing, n, ing.rules, host);
      assert DefaultName(ing) == DefaultOf(ing);
    }
  }

  /** What the first `n` Ingresses make of a host. */
  ghost predicate RootsAre(ings: seq<Ingress>, n: nat, s: Servers, host: string) {
    && (host in s <==> exists i: nat | i < n :: NamesHost(ings, i, host))
    && forall i: nat | i < n && NamesFirst(ings, i, host) ::
         host in s && s[host] == [Location("/", Prefix, true, DefaultOf(ings[i]), Some(i))]
  }

  lemma RootsStep(ings: seq<Ingress>, n: nat, before: Servers, after: Servers, host: string)
    requires n < |ings| && RootsAre(ings, n, before, host)
    requires host in after <==> host in before || NamesHost(ings, n, host)
    requires host in before ==> after[host] == before[host]
    requires host !in before && host in after ==>
               after[host] == [Location("/", Prefix, true, DefaultOf(ings[n]), Some(n))]
    ensures RootsAre(ings, n + 1, after, host)
  {
  }

  ghost predicate RootsAfter(ings: seq<Ingress>, n: nat, host: string)
    requires n <= |ings|
  {
    RootsAre(ings, n, InitialServers(ings[..n]), host)
  }

  lemma RootsNext(ings: seq<Ingress>, n: nat, host: string)
    requires 0 < n <= |ings| && host != "_" && RootsAfter(ings, n - 1, host)
    ensures RootsAfter(ings, n, host)
  {
    HostsStep(ings, n - 1, host);
    RootsStep(ings, n - 1, InitialServers(ings[..n - 1]), InitialServers(ings[..n]), host);
  }

  lemma RootsOfNone(ings: seq<Ingress>, host: string)
    requires host != "_"
    ensures RootsAfter(ings, 0, host)
  {
  }

  lemma {:induction false} RootsUpTo(ings: seq<Ingress>, n: nat, host: string)
    requires n <= |ings| && host != "_"
    ensures RootsAfter(ings, n, host)
  {
    if n == 0 {
      RootsOfNone(ings, host);
    } else {
      RootsUpTo(ings, n - 1, host);
      RootsNext(ings, n, host);
    }
  }

  /** There is a server for "_" and for exactly the hosts that some Ingress names; the root of such a server starts with
      the default backend of the first Ingress to name it. */
  lemma RootsExact(ings: seq<Ingress>, host: string)
    ensures host in InitialServers(ings) <==> host == "_" || exists i: nat :: NamesHost(ings, i, host)
    ensures forall i: nat | host != "_" && NamesFirst(ings, i, host) ::
              InitialServers(ings)[host] == [Location("/", Prefix, true, DefaultOf(ings[i]), Some(i))]
  {
    if host == "_" {
      RootFirst(ings, host);
    } else {
      RootsUpTo(ings, |ings|, host);
      WholePrefix(ings);
    }
  }

  // ----- The locations of a built server -----

  /** The first location of a path and type. */
  predicate IsFirst(locs: seq<Location>, k: nat, path: string, pathType: PathType) {
    && k < |locs| && locs[k].path == path && locs[k].pathType == pathType
    && forall j | 0 <= j < k :: !(locs[j].path == path && locs[j].pathType == pathType)
  }

  predicate GivesBackend(ing: Ingress) {
    !ing.canary && ing.defaultBackend.Some? && ing.defaultBackend.value.Some?
  }

  /** Some Ingress gives a default backend and has no rules. */
  ghost predicate TakesCatchAll(ings: seq<Ingress>) {
    exists i | 0 <= i < |ings| :: GivesBackend(ings[i]) && ings[i].rules == []
  }

  lemma BuiltHosts(ings: seq<Ingress>, host: string)
    ensures host in BuiltServers(ings) <==> host in InitialServers(ings)
    ensures host in BuiltServers(ings) <==> host == "_" || exists i: nat :: NamesHost(ings, i, host)
  {
    ClaimKeepsHosts(InitialServers(ings), UpstreamsOf(Uses(ings)), Refs(ings));
    RootsExact(ings, host);
  }

  lemma Owned(ings: seq<Ingress>, host: string, path: string, pathType: PathType)
    requires host in BuiltServers(ings)
    ensures host in InitialServers(ings) && InitialServers(ings)[host] != []
    ensures OwnedByFirst(InitialServers(ings)[host][0], BuiltServers(ings)[host],
                         FirstClaimant(InitialServers(ings), UpstreamsOf(Uses(ings)), Refs(ings), host, path, pathType),
                         path, pathType)
  {
    BuiltHosts(ings, host);
    InitialIsStarted(ings);
    FirstClaimantOwns(InitialServers(ings), UpstreamsOf(Uses(ings)), Refs(ings), host, path, pathType);
  }

  /** Precedence, for every location but the Prefix root: it exists exactly if a path asks for it, and the first such
      location has the backend of the first path in the input that asks. */
  lemma FirstPathWins(ings: seq<Ingress>, host: string, path: string, pathType: PathType)
    requires Disjoint(ings) && host in BuiltServers(ings) && !(path == "/" && pathType == Prefix)
    ensures var locs := BuiltServers(ings)[host];
            && ((exists k: nat :: IsFirst(locs, k, path, pathType)) <==>
                exists at :: Asks(ings, at, host, path, pathType))
            && forall k: nat, at | IsFirst(locs, k, path, pathType) && AsksFirst(ings, at, host, path, pathType) ::
                 locs[k] == Location(path, pathType, false, RefAt(ings, at).name, Some(at.i))
  {
    var locs := BuiltServers(ings)[host];
    Owned(ings, host, path, pathType);
    FirstClaimantAsksFirst(ings, host, path, pathType);
    var n := FirstTyped(locs, path, pathType);
    if n < |locs| {
      assert IsFirst(locs, n, path, pathType);
    }
    forall k: nat | IsFirst(locs, k, path, pathType) ensures k == n {
      FirstTypedIs(locs, path, pathType, k);
    }
  }

  /** The Prefix root of a host goes to the first path that asks for it; unclaimed it keeps the default backend of the
      first Ingress that names the host. */
  lemma RootGoesToFirst(ings: seq<Ingress>, host: string)
    requires Disjoint(ings) && host in BuiltServers(ings) && host != "_"
    ensures IsFirst(BuiltServers(ings)[host], 0, "/", Prefix)
    ensures forall at | AsksFirst(ings, at, host, "/", Prefix) ::
              BuiltServers(ings)[host][0] == Location("/", Prefix, false, RefAt(ings, at).name, Some(at.i))
    ensures forall i: nat | NamesFirst(ings, i, host) && forall at :: !Asks(ings, at, host, "/", Prefix) ::
              BuiltServers(ings)[host][0] == Location("/", Prefix, true, DefaultOf(ings[i]), Some(i))
  {
    var start := InitialServers(ings);
    Owned(ings, host, "/", Prefix);
    BuiltHosts(ings, host);
    RootsExact(ings, host);
    FirstClaimantAsksFirst(ings, host, "/", Prefix);
    forall at | AsksFirst(ings, at, host, "/", Prefix)
      ensures BuiltServers(ings)[host][0] == Location("/", Prefix, false, RefAt(ings, at).name, Some(at.i))
    {
      RootStart(ings, host);
    }
    RootStays(ings, host);
  }

  /** The root of a host other than the catch-all one is open to claims. */
  lemma RootStart(ings: seq<Ingress>, host: string)
    requires host in InitialServers(ings) && host != "_" && InitialServers(ings)[host] != []
    ensures InitialServers(ings)[host][0].isDefBackend && InitialServers(ings)[host][0].path == "/"
    ensures InitialServers(ings)[host][0].pathType == Prefix
  {
    RootFirst(ings, host);
  }

  /** The backend that the catch-all root starts with: that of the last Ingress that gives one. */
  ghost predicate HasLastDefault(ings: seq<Ingress>, root: Location) {
    && (forall i | 0 <= i < |ings| && GivesBackend(ings[i]) && forall j | i < j < |ings| :: !GivesBackend(ings[j]) ::
          root.backend == DefaultOf(ings[i]) && root.owner == Some(i))
    && ((forall i | 0 <= i < |ings| :: !GivesBackend(ings[i])) ==> root.backend == "upstream-default-backend")
  }

  lemma CatchAllStart(ings: seq<Ingress>)
    ensures "_" in InitialServers(ings) && |InitialServers(ings)["_"]| == 1
    ensures var root := InitialServers(ings)["_"][0];
            && root.path == "/" && root.pathType == Prefix && (root.isDefBackend <==> !TakesCatchAll(ings))
            && HasLastDefault(ings, root)
  {
    CatchAllExact(ings);
    LastDefaultIsLast(ings);
    RootFirst(ings, "_");
    forall ing: Ingress ensures GivesBackend(ing) <==> GivesDefault(ing) {
    }
    assert TakesCatchAll(ings) <==> Closed(ings);
    var root := InitialServers(ings)["_"][0];
    forall i | 0 <= i < |ings| && GivesBackend(ings[i]) && forall j | i < j < |ings| :: !GivesBackend(ings[j])
      ensures root.backend == DefaultOf(ings[i]) && root.owner == Some(i)
    {
      assert LastDefault(ings) == Some(i);
    }
  }

  /** The catch-all root: closed, with the default backend of the last Ingress that gives one, if some Ingress gives one
      and has no rules; otherwise it goes to the first path that asks, and unclaimed stays with that backend. */
  lemma CatchAllGoesToFirst(ings: seq<Ingress>)
    requires Disjoint(ings)
    ensures "_" in BuiltServers(ings) && IsFirst(BuiltServers(ings)["_"], 0, "/", Prefix)
    ensures var root := BuiltServers(ings)["_"][0];
            if TakesCatchAll(ings) || forall at :: !Asks(ings, at, "_", "/", Prefix) then HasLastDefault(ings, root)
            else
              forall at | AsksFirst(ings, at, "_", "/", Prefix) ::
                root == Location("/", Prefix, false, RefAt(ings, at).name, Some(at.i))
  {
    BuiltHosts(ings, "_");
    Owned(ings, "_", "/", Prefix);
    CatchAllStart(ings);
    FirstClaimantAsksFirst(ings, "_", "/", Prefix);
    RootStays(ings, "_");
  }

  /** A path whose host has no server, which can only be a canary's, asks for a location of the catch-all server;
      whatever the names, it gets one if its upstream has a server. */
  lemma StrayPathAsksCatchAll(ings: seq<Ingress>, at: Position)
    requires ServicePath(ings, at) && RefAt(ings, at).host !in BuiltServers(ings)
    requires RefAt(ings, at).name in UpstreamsOf(Uses(ings))
    requires !UpstreamsOf(Uses(ings))[RefAt(ings, at).name].noServer
    ensures ings[at.i].canary && "_" in BuiltServers(ings)
    ensures exists l | l in BuiltServers(ings)["_"] ::
              l.path == RefAt(ings, at).path && l.pathType == PathAt(ings, at).pathType
  {
    var r, s, ups := RefAt(ings, at), InitialServers(ings), UpstreamsOf(Uses(ings));
    BuiltHosts(ings, r.host);
    BuiltHosts(ings, "_");
    assert !ings[at.i].canary ==> NamesHost(ings, at.i, r.host);
    RefsSorted(ings);
    RefAtIn(ings, at);
    FirstClaimantIsFirst(s, ups, Refs(ings), r);
    Owned(ings, "_", r.path, r.pathType);
    var locs := BuiltServers(ings)["_"];
    assert locs[FirstTyped(locs, r.path, r.pathType)] in locs;
  }

  lemma RefAtIn(ings: seq<Ingress>, at: Position)
    requires ServicePath(ings, at)
    ensures RefAt(ings, at) in Refs(ings) && RefAt(ings, at).name in UpstreamsOf(Uses(ings))
  {
    RefsAt(ings);
    PositionsExact(ings);
    var m :| 0 <= m < |Positions(ings)| && Positions(ings)[m] == at;
    assert Refs(ings)[m] == RefAt(ings, at);
    RefIsUse(ings, RefAt(ings, at));
    var u := Use(RefAt(ings, at).name, RefAt(ings, at).canary, false);
    var k :| 0 <= k < |Uses(ings)| && Uses(ings)[k] == u;
    UsedIsCreated(Uses(ings), k);
  }
}
