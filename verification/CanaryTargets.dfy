/** Where canaries arrive: which upstreams list a canary's, in terms of the Ingresses and of the locations built from
    them. */
module CanaryTargets {
  import opened Basics
  import opened Paths
  import opened ServerBuilder
  import opened FirstClaim
  import opened IngressOrder
  import opened CanaryMerge
  import opened CanaryMergeProperties
  import opened CanaryMergeFailures

  // ----- One merge, whatever the names -----

  /** The location passes its requests to an upstream that can have alternatives. */
  predicate Serves(ups: Upstreams, l: Location) {
    l.backend in ups && l.backend != "upstream-default-backend" && !ups[l.backend].noServer
  }

  /** A location that the walk looks at has the upstream `n`. */
  predicate SeenWith(ups: Upstreams, locs: seq<Location>, own: string, n: string) {
    exists l | l in BeforeOwn(locs, own) :: l.backend == n && Serves(ups, l)
  }

  /** The same among the locations of one path and type. */
  predicate SeenAt(ups: Upstreams, locs: seq<Location>, own: string, path: string, pathType: PathType, n: string) {
    exists l | l in BeforeOwn(locs, own) ::
      l.path == path && l.pathType == pathType && l.backend == n && Serves(ups, l)
  }

  predicate Seen(ups: Upstreams, locs: seq<Location>, own: string, t: Target, n: string) {
    match t
    case CatchAll => SeenWith(ups, locs, own, n)
    case At(path, pathType) => SeenAt(ups, locs, own, path, pathType, n)
  }

  lemma SeenCons(u: Upstreams, v: Upstreams, locs: seq<Location>, own: string, t: Target, n: string)
    requires locs != [] && locs[0].backend != own && SameServers(u, v)
    ensures Seen(u, locs, own, t, n) <==>
            || (locs[0].backend == n && Serves(u, locs[0])
                && (t.At? ==> locs[0].path == t.path && locs[0].pathType == t.pathType))
            || Seen(v, locs[1..], own, t, n)
  {
    WalkCons(locs, own);
    assert forall l: Location :: Serves(u, l) <==> Serves(v, l);
  }

  /** What a location adds to its upstream. */
  lemma TakesAdds(u: Upstreams, l: Location, name: string, t: Target)
    requires KeyedByName(u) && l.backend in u
    ensures var u1 := if Takes(u, l, t) then AddAlternative(u, l.backend, name) else u;
            && SameServers(u, u1)
            && forall n | n in u ::
                 && (name in u1[n].alternatives <==>
                     name in u[n].alternatives || (Takes(u, l, t) && l.backend == n))
                 && forall a | a != name :: a in u1[n].alternatives <==> a in u[n].alternatives
  {
  }

  /** What one walk leaves: the alternative is listed by exactly the upstreams of the locations that it looks at, of all
      of them for a default backend, and of those of the very path and type for a path. */
  lemma {:induction false} WalkLists(u: Upstreams, locs: seq<Location>, alt: Upstream, t: Target, merged: bool)
    requires KeyedByName(u) && alt.name in u && Scan(u, locs, alt, t, merged).Some?
    ensures var v := Scan(u, locs, alt, t, merged).value.ups;
            && SameServers(u, v)
            && forall n | n in u ::
                 && (alt.name in v[n].alternatives <==>
                     alt.name in u[n].alternatives || Seen(u, locs, alt.name, t, n))
                 && forall a | a != alt.name :: a in v[n].alternatives <==> a in u[n].alternatives
  {
    if locs != [] && locs[0].backend != alt.name {
      var takes := Takes(u, locs[0], t);
      var u1 := if takes then AddAlternative(u, locs[0].backend, alt.name) else u;
      ScanCons(u, locs, alt, t, merged);
      TakesAdds(u, locs[0], alt.name, t);
      WalkLists(u1, locs[1..], alt, t, merged || takes);
      forall n | n in u ensures Seen(u, locs, alt.name, t, n) <==>
                                (takes && locs[0].backend == n) || Seen(u1, locs[1..], alt.name, t, n)
      {
        SeenCons(u, u1, locs, alt.name, t, n);
      }
    }
  }

  /** One merge of a default backend: its upstream is deleted exactly if the catch-all server has no location with an
      upstream of its own or one that can have alternatives; and it is listed by the upstreams of all locations up to
      the first of its own. */
  lemma DefaultMergeLists(u: Upstreams, servers: Servers, name: string)
    requires KeyedByName(u) && name in u && "_" in servers
    requires Merge(u, servers, MergeRef(name, "_", CatchAll)).Some?
    ensures var v, locs := Merge(u, servers, MergeRef(name, "_", CatchAll)).value, servers["_"];
            && (name in v <==> (exists l | l in locs :: l.backend == name) ||
                               exists l | l in BeforeOwn(locs, name) :: Serves(u, l))
            && forall n | n in v ::
                 n in u && (name in v[n].alternatives <==>
                            name in u[n].alternatives || SeenWith(u, locs, name, n))
  {
    WalkEffect(u, servers["_"], u[name], CatchAll, false);
    WalkLists(u, servers["_"], u[name], CatchAll, false);
    var before := BeforeOwn(servers["_"], name);
    assert SomeTakes(u, before, CatchAll) <==> exists l | l in before :: Serves(u, l) by {
      assert forall l: Location :: Takes(u, l, CatchAll) <==> Serves(u, l);
    }
  }

  /** One merge of a path: the same with the locations of that very path and type only. */
  lemma PathMergeLists(u: Upstreams, servers: Servers, name: string, host: string, path: string, pathType: PathType)
    requires KeyedByName(u) && name in u && host in servers
    requires Merge(u, servers, MergeRef(name, host, Target.At(path, pathType))).Some?
    ensures var v, locs := Merge(u, servers, MergeRef(name, host, Target.At(path, pathType))).value, servers[host];
            && (name in v <==>
                (exists l | l in locs :: l.backend == name) ||
                exists l | l in BeforeOwn(locs, name) :: l.path == path && l.pathType == pathType && Serves(u, l))
            && forall n | n in v ::
                 n in u && (name in v[n].alternatives <==>
                            name in u[n].alternatives || SeenAt(u, locs, name, path, pathType, n))
  {
    var t := Target.At(path, pathType);
    WalkEffect(u, servers[host], u[name], t, false);
    WalkLists(u, servers[host], u[name], t, false);
    var before := BeforeOwn(servers[host], name);
    assert SomeTakes(u, before, t) <==>
           exists l | l in before :: l.path == path && l.pathType == pathType && Serves(u, l) by {
      assert forall l: Location :: Takes(u, l, t) <==> l.path == path && l.pathType == pathType && Serves(u, l);
    }
  }

  // ----- The merges that the canaries ask for -----

  /** Ingress `i` is a canary with a default backend. */
  predicate CanaryDefault(ings: seq<Ingress>, i: nat) {
    i < |ings| && ings[i].canary && ings[i].defaultBackend.Some?
  }

  /** The path at the position is a canary's, and names a service. */
  predicate CanaryPath(ings: seq<Ingress>, at: Position) {
    ServicePath(ings, at) && ings[at.i].canary
  }

  function DefaultMergeOf(ings: seq<Ingress>, i: nat): MergeRef
    requires CanaryDefault(ings, i)
  {
    MergeRef(UpstreamName(ings[i].ns, ings[i].defaultBackend.value), "_", CatchAll)
  }

  function PathMergeOf(ings: seq<Ingress>, at: Position): MergeRef
    requires CanaryPath(ings, at)
  {
    var p := PathAt(ings, at);
    MergeRef(UpstreamName(ings[at.i].ns, p.service), RefAt(ings, at).host, Target.At(p.path, p.pathType))
  }

  lemma {:induction false} PathMergesExact(ing: Ingress, rule: Rule, paths: seq<PathRule>, m: MergeRef)
    ensures m in PathMerges(ing, rule, paths) <==>
            exists k | 0 <= k < |paths| :: paths[k].service.Some? && m == PathMerge(ing, rule, paths[k])
  {
    if paths != [] {
      var init := paths[..|paths| - 1];
      PathMergesExact(ing, rule, init, m);
      if k :| 0 <= k < |init| && init[k].service.Some? && m == PathMerge(ing, rule, init[k]) {
        assert paths[k] == init[k];
      }
      if k :| 0 <= k < |paths| && paths[k].service.Some? && m == PathMerge(ing, rule, paths[k]) && k < |init| {
        assert paths[k] == init[k];
      }
    }
  }

  /** A path of a rule asks for the merge. */
  predicate RuleMerge(ing: Ingress, rules: seq<Rule>, j: nat, k: nat, m: MergeRef) {
    && j < |rules| && rules[j].http.Some? && k < |rules[j].http.value| && rules[j].http.value[k].service.Some?
    && m == PathMerge(ing, rules[j], rules[j].http.value[k])
  }

  lemma {:induction false} RuleMergesExact(ing: Ingress, rules: seq<Rule>, m: MergeRef)
    ensures m in RuleMerges(ing, rules) <==> exists j: nat, k: nat :: RuleMerge(ing, rules, j, k, m)
  {
    if rules != [] {
      var init, rule := rules[..|rules| - 1], rules[|rules| - 1];
      RuleMergesExact(ing, init, m);
      if rule.http.Some? {
        PathMergesExact(ing, rule, rule.http.value, m);
        if m in PathMerges(ing, rule, rule.http.value) {
          var k: nat :| k < |rule.http.value| && rule.http.value[k].service.Some?
                        && m == PathMerge(ing, rule, rule.http.value[k]);
          assert RuleMerge(ing, rules, |init|, k, m);
        }
      }
      if j: nat, k: nat :| RuleMerge(ing, init, j, k, m) {
        assert RuleMerge(ing, rules, j, k, m);
      }
      if j: nat, k: nat :| RuleMerge(ing, rules, j, k, m) && j < |init| {
        assert RuleMerge(ing, init, j, k, m);
      }
    }
  }

  lemma {:induction false} CanaryMergesOf(ings: seq<Ingress>, m: MergeRef)
    ensures m in CanaryMerges(ings) <==> exists i: nat :: i < |ings| && ings[i].canary && m in Merges(ings[i])
  {
    if ings != [] {
      var init := ings[..|ings| - 1];
      CanaryMergesOf(init, m);
      if i: nat :| i < |init| && init[i].canary && m in Merges(init[i]) {
        assert ings[i] == init[i];
      }
      if i: nat :| i < |ings| && ings[i].canary && m in Merges(ings[i]) && i < |init| {
        assert ings[i] == init[i];
      }
    }
  }

  /** The merges are exactly one for every default backend of a canary, at the catch-all server, and one for every
      service path of a canary, at its host, path and type. */
  lemma MergesExact(ings: seq<Ingress>, m: MergeRef)
    ensures m in CanaryMerges(ings) <==>
            || (exists i: nat :: CanaryDefault(ings, i) && m == DefaultMergeOf(ings, i))
            || (exists at :: CanaryPath(ings, at) && m == PathMergeOf(ings, at))
  {
    CanaryMergesOf(ings, m);
    if i: nat :| i < |ings| && ings[i].canary && m in Merges(ings[i]) {
      RuleMergesExact(ings[i], ings[i].rules, m);
      if m in DefaultMerges(ings[i]) {
        assert CanaryDefault(ings, i) && m == DefaultMergeOf(ings, i);
      } else {
        var j: nat, k: nat :| RuleMerge(ings[i], ings[i].rules, j, k, m);
        assert CanaryPath(ings, Position(i, j, k)) && m == PathMergeOf(ings, Position(i, j, k));
      }
    }
    if i: nat :| CanaryDefault(ings, i) && m == DefaultMergeOf(ings, i) {
      assert m in DefaultMerges(ings[i]);
    }
    if at :| CanaryPath(ings, at) && m == PathMergeOf(ings, at) {
      RuleMergesExact(ings[at.i], ings[at.i].rules, m);
      assert RuleMerge(ings[at.i], ings[at.i].rules, at.j, at.k, m);
      assert m in Merges(ings[at.i]);
    }
  }

  // ----- After all merges -----

  /** The catch-all server has a location with the upstream `key`, which is not the default one. */
  predicate DefaultArrives(ings: seq<Ingress>, key: string) {
    "_" in BuiltServers(ings) && key != "upstream-default-backend"
    && exists l | l in BuiltServers(ings)["_"] :: l.backend == key
  }

  /** The server of the canary's path has a location of that very path and type with such an upstream. */
  predicate PathArrives(ings: seq<Ingress>, at: Position, key: string)
    requires CanaryPath(ings, at)
  {
    var host, p := RefAt(ings, at).host, PathAt(ings, at);
    && host in BuiltServers(ings) && key != "upstream-default-backend"
    && exists l | l in BuiltServers(ings)[host] :: l.path == p.path && l.pathType == p.pathType && l.backend == key
  }

  ghost predicate Arrives(ings: seq<Ingress>, m: MergeRef, key: string) {
    || (exists i: nat :: CanaryDefault(ings, i) && m == DefaultMergeOf(ings, i) && DefaultArrives(ings, key))
    || (exists at :: CanaryPath(ings, at) && m == PathMergeOf(ings, at) && PathArrives(ings, at, key))
  }

  /** On what the builder made, a merge reaches exactly the upstreams at which it arrives. */
  lemma ReachesIffArrives(ings: seq<Ingress>, m: MergeRef, key: string)
    requires MergeDisjoint(ings) && m in CanaryMerges(ings)
    ensures Reaches(BuiltServers(ings), m, UpstreamsOf(Uses(ings)), key) <==> Arrives(ings, m, key)
  {
    var ups, s := UpstreamsOf(Uses(ings)), BuiltServers(ings);
    BuiltHasIntegrity(ings);
    MergesExact(ings, m);
    BuiltHosts(ings, "_");
    if m.host in s {
      assert forall l: Location | l in s[m.host] :: l.backend in ups && !ups[l.backend].noServer;
    }
  }

  /** The default backend of a canary meets no location that can take it. */
  ghost predicate DefaultMisses(ings: seq<Ingress>, i: nat, n: string) {
    CanaryDefault(ings, i) && DefaultMergeOf(ings, i).name == n && forall key :: !DefaultArrives(ings, key)
  }

  /** The path of a canary meets none, though its host has a server. */
  ghost predicate PathMisses(ings: seq<Ingress>, at: Position, n: string) {
    && CanaryPath(ings, at) && PathMergeOf(ings, at).name == n && RefAt(ings, at).host in BuiltServers(ings)
    && forall key :: !PathArrives(ings, at, key)
  }

  lemma HarmlessIffArrives(ings: seq<Ingress>, m: MergeRef)
    requires MergeDisjoint(ings) && m in CanaryMerges(ings)
    ensures Harmless(UpstreamsOf(Uses(ings)), BuiltServers(ings), m) <==>
            m.host !in BuiltServers(ings) || exists key :: Arrives(ings, m, key)
  {
    var ups, s := UpstreamsOf(Uses(ings)), BuiltServers(ings);
    forall key ensures Reaches(s, m, ups, key) <==> Arrives(ings, m, key) {
      ReachesIffArrives(ings, m, key);
    }
    if m.host in s && SomeTakes(ups, s[m.host], m.target) {
      var l :| l in s[m.host] && Takes(ups, l, m.target);
      assert Reaches(s, m, ups, l.backend);
    }
    if key :| Reaches(s, m, ups, key) {
      ArrivingIsHarmless(ups, s, m, key);
    }
  }

  /** A merge of a canary that arrives nowhere, though its server exists. */
  ghost predicate MissesBy(ings: seq<Ingress>, m: MergeRef) {
    m in CanaryMerges(ings) && m.host in BuiltServers(ings) && forall key :: !Arrives(ings, m, key)
  }

  lemma ArrivesDefault(ings: seq<Ingress>, i: nat, key: string)
    requires CanaryDefault(ings, i)
    ensures Arrives(ings, DefaultMergeOf(ings, i), key) <==> DefaultArrives(ings, key)
  {
  }

  lemma ArrivesPath(ings: seq<Ingress>, at: Position, key: string)
    requires CanaryPath(ings, at)
    ensures Arrives(ings, PathMergeOf(ings, at), key) <==> PathArrives(ings, at, key)
  {
  }

  lemma DefaultMissesBy(ings: seq<Ingress>, i: nat)
    requires CanaryDefault(ings, i)
    ensures DefaultMisses(ings, i, DefaultMergeOf(ings, i).name) <==> MissesBy(ings, DefaultMergeOf(ings, i))
  {
    BuiltHosts(ings, "_");
    MergesExact(ings, DefaultMergeOf(ings, i));
    forall key ensures Arrives(ings, DefaultMergeOf(ings, i), key) <==> DefaultArrives(ings, key) {
      ArrivesDefault(ings, i, key);
    }
  }

  lemma PathMissesBy(ings: seq<Ingress>, at: Position)
    requires CanaryPath(ings, at)
    ensures PathMisses(ings, at, PathMergeOf(ings, at).name) <==> MissesBy(ings, PathMergeOf(ings, at))
  {
    MergesExact(ings, PathMergeOf(ings, at));
    forall key ensures Arrives(ings, PathMergeOf(ings, at), key) <==> PathArrives(ings, at, key) {
      ArrivesPath(ings, at, key);
    }
  }

  ghost predicate Misses(ings: seq<Ingress>, n: string) {
    (exists i: nat :: DefaultMisses(ings, i, n)) || (exists at :: PathMisses(ings, at, n))
  }

  lemma MissesByIff(ings: seq<Ingress>, n: string)
    ensures Misses(ings, n) <==> exists m: MergeRef :: m.name == n && MissesBy(ings, m)
  {
    if m: MergeRef :| m.name == n && MissesBy(ings, m) {
      MergesExact(ings, m);
      if i: nat :| CanaryDefault(ings, i) && m == DefaultMergeOf(ings, i) {
        DefaultMissesBy(ings, i);
      } else {
        var at :| CanaryPath(ings, at) && m == PathMergeOf(ings, at);
        PathMissesBy(ings, at);
      }
    }
    if i: nat :| DefaultMisses(ings, i, n) {
      DefaultMissesBy(ings, i);
    }
    if at :| PathMisses(ings, at, n) {
      PathMissesBy(ings, at);
    }
  }

  /** A canary's upstream survives exactly if no default backend of that name meets a catch-all server without a
      location that can take it, and no path of that name a server without one of that path and type. */
  lemma CanarySurvivesIff(ings: seq<Ingress>, n: string)
    requires MergeDisjoint(ings)
    ensures MergeAll(UpstreamsOf(Uses(ings)), BuiltServers(ings), CanaryMerges(ings)).Some?
    ensures n in MergeAll(UpstreamsOf(Uses(ings)), BuiltServers(ings), CanaryMerges(ings)).value <==>
            n in UpstreamsOf(Uses(ings)) && !Misses(ings, n)
  {
    var ups, s, refs := UpstreamsOf(Uses(ings)), BuiltServers(ings), CanaryMerges(ings);
    CanaryMergeIntegrity(ings);
    MissesByIff(ings, n);
    forall m | m in refs ensures Harmless(ups, s, m) <==> !MissesBy(ings, m) {
      HarmlessIffArrives(ings, m);
    }
    assert Alive(ups, s, refs, n) <==> n in ups && !Misses(ings, n);
  }

  ghost predicate DefaultReaches(ings: seq<Ingress>, i: nat, n: string, k: string) {
    CanaryDefault(ings, i) && DefaultMergeOf(ings, i).name == n && DefaultArrives(ings, k)
  }

  ghost predicate PathReaches(ings: seq<Ingress>, at: Position, n: string, k: string) {
    CanaryPath(ings, at) && PathMergeOf(ings, at).name == n && PathArrives(ings, at, k)
  }

  lemma ReachedIff(ings: seq<Ingress>, n: string, k: string)
    requires MergeDisjoint(ings)
    ensures (exists m: MergeRef :: m in CanaryMerges(ings) && m.name == n
                                   && Reaches(BuiltServers(ings), m, UpstreamsOf(Uses(ings)), k)) <==>
            (exists i: nat :: DefaultReaches(ings, i, n, k)) || (exists at :: PathReaches(ings, at, n, k))
  {
    if m: MergeRef :| m in CanaryMerges(ings) && m.name == n
                      && Reaches(BuiltServers(ings), m, UpstreamsOf(Uses(ings)), k) {
      ReachesIffArrives(ings, m, k);
      if i: nat :| CanaryDefault(ings, i) && m == DefaultMergeOf(ings, i) && DefaultArrives(ings, k) {
        assert DefaultReaches(ings, i, n, k);
      } else {
        var at :| CanaryPath(ings, at) && m == PathMergeOf(ings, at) && PathArrives(ings, at, k);
        assert PathReaches(ings, at, n, k);
      }
    }
    if i: nat :| DefaultReaches(ings, i, n, k) {
      MergesExact(ings, DefaultMergeOf(ings, i));
      ReachesIffArrives(ings, DefaultMergeOf(ings, i), k);
    }
    if at :| PathReaches(ings, at, n, k) {
      MergesExact(ings, PathMergeOf(ings, at));
      ReachesIffArrives(ings, PathMergeOf(ings, at), k);
    }
  }

  /** A canary's upstream that survives is an alternative of exactly the upstreams at which it arrives: for a default
      backend those of all locations of the catch-all server, for a path those of the locations of its host that have
      its very path and type. */
  lemma CanaryListedIff(ings: seq<Ingress>, k: string, n: string)
    requires MergeDisjoint(ings)
    ensures MergeAll(UpstreamsOf(Uses(ings)), BuiltServers(ings), CanaryMerges(ings)).Some?
    ensures var u := MergeAll(UpstreamsOf(Uses(ings)), BuiltServers(ings), CanaryMerges(ings)).value;
            k in u && n in u ==>
              (n in u[k].alternatives <==>
               (exists i: nat :: DefaultReaches(ings, i, n, k)) || (exists at :: PathReaches(ings, at, n, k)))
  {
    var ups, s, refs := UpstreamsOf(Uses(ings)), BuiltServers(ings), CanaryMerges(ings);
    CanaryMergeIntegrity(ings);
    var u := MergeAll(ups, s, refs).value;
    if k in u && n in u {
      ListedIffReached(ups, s, refs, k, n);
      ReachedIff(ings, n, k);
    }
  }

  lemma ListedIffReached(ups: Upstreams, s: Servers, refs: seq<MergeRef>, k: string, n: string)
    requires Alive(ups, s, refs, n)
    ensures Listed(ups, s, refs, k, n) <==> exists m: MergeRef :: m in refs && m.name == n && Reaches(s, m, ups, k)
  {
    if m: MergeRef :| m in refs && m.name == n && Reaches(s, m, ups, k) {
      var i :| 0 <= i < |refs| && refs[i] == m;
      assert forall r: MergeRef | r in refs[..i] :: r in refs;
      assert Alive(ups, s, refs[..i], n);
    }
  }
}
