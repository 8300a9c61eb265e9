/** Ingresses for which the builder leaves an alternative dangling. */
module DanglingCanary {
  import opened Basics
  import opened Paths
  import opened ServerBuilder
  import opened FirstClaim
  import opened CanaryMerge
  import opened CanaryMergeProperties

  /** An Ingress with one rule: these paths, all of type Exact, to one service. */
  function OneRule(ns: string, canary: bool, host: string, paths: seq<string>, service: ServiceRef): Ingress {
    Ingress(ns, canary, None, [Rule(host, Some(RulePaths(paths, service)))])
  }

  function RulePaths(paths: seq<string>, service: ServiceRef): (r: seq<PathRule>)
    ensures |r| == |paths| && forall i | 0 <= i < |r| :: r[i] == PathRule(paths[i], Exact, Some(service))
  {
    seq(|paths|, i requires 0 <= i < |paths| => PathRule(paths[i], Exact, Some(service)))
  }

  /** A primary Ingress for the path `a`, and a canary for the paths `a` and `b`. */
  function Pair(ns: string, host: string, p: ServiceRef, c: ServiceRef, a: string, b: string): seq<Ingress> {
    [OneRule(ns, false, host, [a], p), OneRule(ns, true, host, [a, b], c)]
  }

  lemma RefsOfOneRule(ns: string, canary: bool, host: string, paths: seq<string>, service: ServiceRef, owner: nat)
    requires host != "" && 1 <= |paths| <= 2 && forall p | p in paths :: p != ""
    ensures var ing := OneRule(ns, canary, host, paths, service);
            var name := UpstreamName(ns, Some(service));
            RuleRefs(ing, owner, ing.rules) ==
            [Ref(host, paths[0], Exact, name, canary, owner)] +
            if |paths| == 1 then [] else [Ref(host, paths[1], Exact, name, canary, owner)]
  {
    var ing := OneRule(ns, canary, host, paths, service);
    var rule := ing.rules[0];
    var ps := rule.http.value;
    assert paths[0] in paths;
    PathRefsStep(ing, owner, rule, ps, 0);
    if |paths| == 2 {
      assert paths[1] in paths;
      PathRefsStep(ing, owner, rule, ps, 1);
    }
    WholePrefix(ps);
    RuleRefsStep(ing, owner, ing.rules, 0);
    WholePrefix(ing.rules);
  }

  lemma MergesOfCanary(ns: string, host: string, a: string, b: string, service: ServiceRef)
    requires host != ""
    ensures var ing := OneRule(ns, true, host, [a, b], service);
            var name := UpstreamName(ns, Some(service));
            Merges(ing) == [MergeRef(name, host, At(a, Exact)), MergeRef(name, host, At(b, Exact))]
  {
    var ing := OneRule(ns, true, host, [a, b], service);
    var rule := ing.rules[0];
    var ps := rule.http.value;
    PathMergesStep(ing, rule, ps, 0);
    PathMergesStep(ing, rule, ps, 1);
    WholePrefix(ps);
    RuleMergesStep([], ing, 0);
    WholePrefix(ing.rules);
    assert ing.rules[..0] == [];
    assert RuleMerges(ing, ing.rules) == PathMerges(ing, rule, ps);
  }

  lemma PathMergesStep(ing: Ingress, rule: Rule, paths: seq<PathRule>, k: nat)
    requires k < |paths| && paths[k].service.Some?
    ensures PathMerges(ing, rule, paths[..k + 1]) ==
            PathMerges(ing, rule, paths[..k]) + [PathMerge(ing, rule, paths[k])]
  {
    PrefixDropsLast(paths, k);
  }

  lemma PrefixesOfTwo<T>(x: T, y: T)
    ensures [x, y][..2] == [x, y] && [x, y][..1] == [x] && [x][..0] == []
  {
  }

  lemma PairRefs(ns: string, host: string, p: ServiceRef, c: ServiceRef, a: string, b: string)
    requires host != "" && a != "" && b != ""
    ensures var np, nc := UpstreamName(ns, Some(p)), UpstreamName(ns, Some(c));
            Refs(Pair(ns, host, p, c, a, b)) ==
            [Ref(host, a, Exact, np, false, 0), Ref(host, a, Exact, nc, true, 1), Ref(host, b, Exact, nc, true, 1)]
  {
    var ings := Pair(ns, host, p, c, a, b);
    RefsOfOneRule(ns, false, host, [a], p, 0);
    RefsOfOneRule(ns, true, host, [a, b], c, 1);
    PrefixesOfTwo(ings[0], ings[1]);
    assert Refs([ings[0]]) == RuleRefs(ings[0], 0, ings[0].rules);
  }

  lemma UsesOfOne(x: Ingress)
    requires x.defaultBackend == None
    ensures Uses([x]) == PathUses(RuleRefs(x, 0, x.rules))
  {
    assert [x][..0] == [];
  }

  lemma UsesOfTwo(x: Ingress, y: Ingress)
    requires x.defaultBackend == None && y.defaultBackend == None
    ensures Uses([x, y]) == PathUses(RuleRefs(x, 0, x.rules)) + PathUses(RuleRefs(y, 1, y.rules))
  {
    UsesOfOne(x);
    UsesStep([x, y], 1);
    assert [x, y][..1] == [x] && [x, y][..2] == [x, y];
    assert PathUses(RuleRefs(x, 0, x.rules)) + [] == PathUses(RuleRefs(x, 0, x.rules));
  }

  lemma PairUses(ns: string, host: string, p: ServiceRef, c: ServiceRef, a: string, b: string)
    requires host != "" && a != "" && b != ""
    ensures var np, nc := UpstreamName(ns, Some(p)), UpstreamName(ns, Some(c));
            Uses(Pair(ns, host, p, c, a, b)) == [Use(np, false, false), Use(nc, true, false), Use(nc, true, false)]
  {
    var ings := Pair(ns, host, p, c, a, b);
    RefsOfOneRule(ns, false, host, [a], p, 0);
    RefsOfOneRule(ns, true, host, [a, b], c, 1);
    UsesOfTwo(ings[0], ings[1]);
  }

  lemma PairMerges(ns: string, host: string, p: ServiceRef, c: ServiceRef, a: string, b: string)
    requires host != ""
    ensures var nc := UpstreamName(ns, Some(c));
            CanaryMerges(Pair(ns, host, p, c, a, b)) ==
            [MergeRef(nc, host, At(a, Exact)), MergeRef(nc, host, At(b, Exact))]
  {
    var ings := Pair(ns, host, p, c, a, b);
    MergesOfCanary(ns, host, a, b, c);
    PrefixesOfTwo(ings[0], ings[1]);
    assert CanaryMerges([ings[0]]) == [];
  }

  lemma FirstOfThree(s: Servers, ups: Upstreams, r0: Ref, r1: Ref, r2: Ref, host: string, path: string,
                     pathType: PathType)
    ensures var c0, c1, c2 := Claims(s, ups, r0, host, path, pathType), Claims(s, ups, r1, host, path, pathType),
                              Claims(s, ups, r2, host, path, pathType);
            FirstClaimant(s, ups, [r0, r1, r2], host, path, pathType) ==
            if c0 then Some(r0) else if c1 then Some(r1) else if c2 then Some(r2) else None
  {
    assert [r0, r1, r2][..2] == [r0, r1] && [r0, r1][..1] == [r0] && [r0][..0] == [];
    assert FirstClaimant(s, ups, [r0], host, path, pathType) ==
           if Claims(s, ups, r0, host, path, pathType) then Some(r0) else None;
  }

  /** The upstreams of the pair: that of the primary has a server, that of the canary has none. */
  lemma PairUpstreams(ns: string, host: string, p: ServiceRef, c: ServiceRef, a: string, b: string)
    requires host != "" && a != "" && b != ""
    requires UpstreamName(ns, Some(p)) != UpstreamName(ns, Some(c)) && UpstreamName(ns, Some(c)) != DEF_UPSTREAM
    ensures var ups := UpstreamsOf(Uses(Pair(ns, host, p, c, a, b)));
            var np, nc := UpstreamName(ns, Some(p)), UpstreamName(ns, Some(c));
            np in ups && !ups[np].noServer && nc in ups && ups[nc].noServer
  {
    PairUses(ns, host, p, c, a, b);
    TwoUses(UpstreamName(ns, Some(p)), UpstreamName(ns, Some(c)));
  }

  lemma TwoUses(np: string, nc: string)
    requires np != nc && nc != DEF_UPSTREAM
    ensures var ups := UpstreamsOf([Use(np, false, false), Use(nc, true, false), Use(nc, true, false)]);
            np in ups && !ups[np].noServer && nc in ups && ups[nc].noServer
  {
    var uses := [Use(np, false, false), Use(nc, true, false), Use(nc, true, false)];
    assert uses[0] in uses && uses[1] in uses;
    NoServerIffCanary(uses, uses[0]);
    NoServerIffCanary(uses, uses[1]);
  }

  lemma PairIsDisjoint(ns: string, host: string, p: ServiceRef, c: ServiceRef, a: string, b: string)
    requires host != "" && a != "" && b != ""
    requires UpstreamName(ns, Some(p)) != UpstreamName(ns, Some(c)) && UpstreamName(ns, Some(c)) != DEF_UPSTREAM
    ensures MergeDisjoint(Pair(ns, host, p, c, a, b))
  {
    var ings := Pair(ns, host, p, c, a, b);
    PairUses(ns, host, p, c, a, b);
    PairMerges(ns, host, p, c, a, b);
    assert CanaryNames(ings) == {UpstreamName(ns, Some(c))} by {
      assert CanaryMerges(ings)[0] in CanaryMerges(ings);
    }
  }

  /** The host of the pair has a location for the path `a`, of the primary, and none for the path `b`. */
  lemma PairLocations(ns: string, host: string, p: ServiceRef, c: ServiceRef, a: string, b: string)
    requires host != "" && a != "" && b != "" && a != b
    requires UpstreamName(ns, Some(p)) != UpstreamName(ns, Some(c)) && UpstreamName(ns, Some(c)) != DEF_UPSTREAM
    ensures var s := BuiltServers(Pair(ns, host, p, c, a, b));
            && host in s && Location(a, Exact, false, UpstreamName(ns, Some(p)), Some(0)) in s[host]
            && forall l: Location | l in s[host] :: !HasType(l, b, Exact)
  {
    var ings := Pair(ns, host, p, c, a, b);
    var start, ups, refs := InitialServers(ings), UpstreamsOf(Uses(ings)), Refs(ings);
    PairRefs(ns, host, p, c, a, b);
    PairUpstreams(ns, host, p, c, a, b);
    HostHasServer(ings, 0, 0);
    InitialIsStarted(ings);
    FirstClaimantOwns(start, ups, refs, host, a, Exact);
    FirstClaimantOwns(start, ups, refs, host, b, Exact);
    FirstOfThree(start, ups, refs[0], refs[1], refs[2], host, a, Exact);
    FirstOfThree(start, ups, refs[0], refs[1], refs[2], host, b, Exact);
    var locs := BuiltServers(ings)[host];
    assert locs[FirstTyped(locs, a, Exact)] in locs;
  }

  lemma PairHitsThenMisses(ns: string, host: string, p: ServiceRef, c: ServiceRef, a: string, b: string)
    requires host != "" && a != "" && b != "" && a != b
    requires UpstreamName(ns, Some(p)) != UpstreamName(ns, Some(c))
    requires UpstreamName(ns, Some(p)) != DEF_UPSTREAM && UpstreamName(ns, Some(c)) != DEF_UPSTREAM
    ensures var ings := Pair(ns, host, p, c, a, b);
            HitThenMiss(UpstreamsOf(Uses(ings)), BuiltServers(ings), CanaryMerges(ings), UpstreamName(ns, Some(p)),
                        UpstreamName(ns, Some(c)), 0, 1)
  {
    var ings := Pair(ns, host, p, c, a, b);
    var ups, s, refs := UpstreamsOf(Uses(ings)), BuiltServers(ings), CanaryMerges(ings);
    PairUpstreams(ns, host, p, c, a, b);
    PairMerges(ns, host, p, c, a, b);
    PairLocations(ns, host, p, c, a, b);
    var l := Location(a, Exact, false, UpstreamName(ns, Some(p)), Some(0));
    assert l in s[host] && Takes(ups, l, refs[0].target);
    assert !SomeTakes(ups, s[host], refs[1].target);
  }

  /** The canary's first path matches the primary's, its second path matches nothing: whatever the names and paths, the
      builder deletes the canary's upstream and still lists it as an alternative of the primary's. */
  lemma DanglingAlternative(ns: string, host: string, p: ServiceRef, c: ServiceRef, a: string, b: string)
    requires host != "" && a != "" && b != "" && a != b
    requires UpstreamName(ns, Some(p)) != UpstreamName(ns, Some(c))
    requires UpstreamName(ns, Some(p)) != DEF_UPSTREAM && UpstreamName(ns, Some(c)) != DEF_UPSTREAM
    ensures var ings := Pair(ns, host, p, c, a, b);
            var np, nc := UpstreamName(ns, Some(p)), UpstreamName(ns, Some(c));
            && NonCanaryExists(ings) && CanariesHaveHttp(ings)
            && MergeAll(UpstreamsOf(Uses(ings)), BuiltServers(ings), CanaryMerges(ings)).Some?
            && var u := MergeAll(UpstreamsOf(Uses(ings)), BuiltServers(ings), CanaryMerges(ings)).value;
               np in u && nc in u[np].alternatives && nc !in u
  {
    var ings := Pair(ns, host, p, c, a, b);
    PairIsDisjoint(ns, host, p, c, a, b);
    PairUpstreams(ns, host, p, c, a, b);
    PairHitsThenMisses(ns, host, p, c, a, b);
    BuiltDanglesIff(ings, UpstreamName(ns, Some(p)), UpstreamName(ns, Some(c)));
    assert !ings[0].canary;
  }
}
