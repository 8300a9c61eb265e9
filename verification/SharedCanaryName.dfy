/** Ingresses that make the merge fail: a canary shares its default backend with another Ingress. */
module SharedCanaryName {
  import opened Basics
  import opened Paths
  import opened ServerBuilder
  import opened FirstClaim
  import opened CanaryMerge
  import opened CanaryMergeProperties
  import opened CanaryMergeFailures

  function OnePath(host: string, path: string, service: ServiceRef): Rule {
    Rule(host, Some([PathRule(path, Exact, Some(service))]))
  }

  /** Two Ingresses, of which the first has the default backend `x`, and a canary with the same default backend. */
  function Sharing(ns: string, h1: string, h2: string, a: string, b: string, q: string, x: ServiceRef, y: ServiceRef,
                   z: ServiceRef): seq<Ingress> {
    [Ingress(ns, false, Some(Some(x)), [OnePath(h1, a, y)]),
     Ingress(ns, false, None, [OnePath(h2, b, y)]),
     Ingress(ns, true, Some(Some(x)), [OnePath(h2, q, x), OnePath(h1, a, z)])]
  }

  lemma OnePathRefs(ing: Ingress, owner: nat, host: string, path: string, service: ServiceRef)
    requires host != "" && path != ""
    ensures var rule := OnePath(host, path, service);
            PathRefs(ing, owner, rule, rule.http.value) ==
            [Ref(host, path, Exact, UpstreamName(ing.ns, Some(service)), ing.canary, owner)]
  {
    var rule := OnePath(host, path, service);
    PathRefsStep(ing, owner, rule, rule.http.value, 0);
    WholePrefix(rule.http.value);
  }

  lemma OneRuleRefs(ing: Ingress, owner: nat, host: string, path: string, service: ServiceRef)
    requires host != "" && path != "" && ing.rules == [OnePath(host, path, service)]
    ensures RuleRefs(ing, owner, ing.rules) ==
            [Ref(host, path, Exact, UpstreamName(ing.ns, Some(service)), ing.canary, owner)]
  {
    OnePathRefs(ing, owner, host, path, service);
    RuleRefsStep(ing, owner, ing.rules, 0);
    WholePrefix(ing.rules);
  }

  lemma TwoRuleRefs(ing: Ingress, owner: nat, r0: Rule, r1: Rule, ref0: Ref, ref1: Ref)
    requires ing.rules == [r0, r1] && r0.http.Some? && r1.http.Some?
    requires PathRefs(ing, owner, r0, r0.http.value) == [ref0] && PathRefs(ing, owner, r1, r1.http.value) == [ref1]
    ensures RuleRefs(ing, owner, ing.rules) == [ref0, ref1]
  {
    RuleRefsStep(ing, owner, ing.rules, 0);
    RuleRefsStep(ing, owner, ing.rules, 1);
    WholePrefix(ing.rules);
  }

  lemma PrefixesOfThree<T>(x: T, y: T, z: T)
    ensures [x, y, z][..3] == [x, y, z] && [x, y, z][..2] == [x, y] && [x, y][..1] == [x] && [x][..0] == []
  {
  }

  lemma OfThree(x: Ingress, y: Ingress, z: Ingress)
    ensures Refs([x, y, z]) == RuleRefs(x, 0, x.rules) + RuleRefs(y, 1, y.rules) + RuleRefs(z, 2, z.rules)
    ensures InitialServers([x, y, z]) == AddServers(AddServers(AddServers(InitialServers([]), x, 0), y, 1), z, 2)
  {
    PrefixesOfThree(x, y, z);
    assert Refs([x]) == RuleRefs(x, 0, x.rules);
    assert InitialServers([x]) == AddServers(InitialServers([]), x, 0);
    assert InitialServers([x, y]) == AddServers(InitialServers([x]), y, 1);
  }

  lemma UsesOfThree(x: Ingress, y: Ingress, z: Ingress)
    ensures Uses([x, y, z]) ==
            DefaultUses(x) + PathUses(RuleRefs(x, 0, x.rules)) + DefaultUses(y) + PathUses(RuleRefs(y, 1, y.rules)) +
            DefaultUses(z) + PathUses(RuleRefs(z, 2, z.rules))
  {
    PrefixesOfThree(x, y, z);
    UsesStep([x, y, z], 0);
    UsesStep([x, y, z], 1);
    UsesStep([x, y, z], 2);
    assert [] + DefaultUses(x) == DefaultUses(x);
  }

  /** The hypotheses on names: hosts, and the upstreams of the three services, are different. */
  predicate Apart(ns: string, h1: string, h2: string, a: string, b: string, q: string, x: ServiceRef, y: ServiceRef,
                  z: ServiceRef)
  {
    var nx, ny, nz := UpstreamName(ns, Some(x)), UpstreamName(ns, Some(y)), UpstreamName(ns, Some(z));
    && h1 != "" && h2 != "" && h1 != h2 && h1 != DEF_SERVER && h2 != DEF_SERVER
    && a != "" && b != "" && q != "" && q != b
    && nx != ny && nx != nz && ny != nz && nx != DEF_UPSTREAM && ny != DEF_UPSTREAM && nz != DEF_UPSTREAM
  }

  lemma SharingRefs(ns: string, h1: string, h2: string, a: string, b: string, q: string, x: ServiceRef, y: ServiceRef,
                    z: ServiceRef)
    requires Apart(ns, h1, h2, a, b, q, x, y, z)
    ensures var ings := Sharing(ns, h1, h2, a, b, q, x, y, z);
            var nx, ny, nz := UpstreamName(ns, Some(x)), UpstreamName(ns, Some(y)), UpstreamName(ns, Some(z));
            && RuleRefs(ings[0], 0, ings[0].rules) == [Ref(h1, a, Exact, ny, false, 0)]
            && RuleRefs(ings[1], 1, ings[1].rules) == [Ref(h2, b, Exact, ny, false, 1)]
            && RuleRefs(ings[2], 2, ings[2].rules) == [Ref(h2, q, Exact, nx, true, 2), Ref(h1, a, Exact, nz, true, 2)]
  {
    var ings := Sharing(ns, h1, h2, a, b, q, x, y, z);
    var nx, nz := UpstreamName(ns, Some(x)), UpstreamName(ns, Some(z));
    OneRuleRefs(ings[0], 0, h1, a, y);
    OneRuleRefs(ings[1], 1, h2, b, y);
    OnePathRefs(ings[2], 2, h2, q, x);
    OnePathRefs(ings[2], 2, h1, a, z);
    TwoRuleRefs(ings[2], 2, OnePath(h2, q, x), OnePath(h1, a, z), Ref(h2, q, Exact, nx, true, 2),
                Ref(h1, a, Exact, nz, true, 2));
  }

  lemma SharingUses(ns: string, h1: string, h2: string, a: string, b: string, q: string, x: ServiceRef, y: ServiceRef,
                    z: ServiceRef)
    requires Apart(ns, h1, h2, a, b, q, x, y, z)
    ensures var nx, ny, nz := UpstreamName(ns, Some(x)), UpstreamName(ns, Some(y)), UpstreamName(ns, Some(z));
            Uses(Sharing(ns, h1, h2, a, b, q, x, y, z)) ==
            [Use(nx, false, true), Use(ny, false, false), Use(ny, false, false), Use(nx, true, true),
             Use(nx, true, false), Use(nz, true, false)]
  {
    var ings := Sharing(ns, h1, h2, a, b, q, x, y, z);
    SharingRefs(ns, h1, h2, a, b, q, x, y, z);
    UsesOfThree(ings[0], ings[1], ings[2]);
  }

  /** Whether an upstream exists and is without a server. */
  function Status(ups: Upstreams, n: string): Option<bool> {
    if n in ups then Some(ups[n].noServer) else None
  }

  function StatusAfter(status: Option<bool>, u: Use, n: string): Option<bool> {
    if u.name == n && (u.isDefault || status.None?) then Some(u.canary) else status
  }

  lemma UseStatus(uses: seq<Use>, u: Use, n: string)
    ensures Status(UpstreamsOf(uses + [u]), n) == StatusAfter(Status(UpstreamsOf(uses), n), u, n)
  {
    UpstreamsSnoc(uses, u);
  }

  lemma SixUses(u0: Use, u1: Use, u2: Use, u3: Use, u4: Use, u5: Use, n: string)
    ensures var start := Status(UpstreamsOf([]), n);
            var status := StatusAfter(StatusAfter(StatusAfter(start, u0, n), u1, n), u2, n);
            Status(UpstreamsOf([u0, u1, u2, u3, u4, u5]), n) ==
            StatusAfter(StatusAfter(StatusAfter(status, u3, n), u4, n), u5, n)
  {
    ThreeUses([], u0, u1, u2, n);
    ThreeUses([u0, u1, u2], u3, u4, u5, n);
    assert [] + [u0, u1, u2] == [u0, u1, u2] && [u0, u1, u2] + [u3, u4, u5] == [u0, u1, u2, u3, u4, u5];
  }

  lemma ThreeUses(uses: seq<Use>, u0: Use, u1: Use, u2: Use, n: string)
    ensures Status(UpstreamsOf(uses + [u0, u1, u2]), n) ==
            StatusAfter(StatusAfter(StatusAfter(Status(UpstreamsOf(uses), n), u0, n), u1, n), u2, n)
  {
    UseStatus(uses, u0, n);
    UseStatus(uses + [u0], u1, n);
    UseStatus(uses + [u0] + [u1], u2, n);
    assert uses + [u0] + [u1] + [u2] == uses + [u0, u1, u2];
  }

  /** The canary's use of the shared name starts that upstream afresh, without a server. */
  lemma SharedUpstreams(nx: string, ny: string, nz: string)
    requires nx != ny && nx != nz && ny != nz && ny != DEF_UPSTREAM && nz != DEF_UPSTREAM
    ensures var ups := UpstreamsOf([Use(nx, false, true), Use(ny, false, false), Use(ny, false, false),
                                    Use(nx, true, true), Use(nx, true, false), Use(nz, true, false)]);
            Status(ups, nx) == Some(true) && Status(ups, ny) == Some(false) && Status(ups, nz) == Some(true)
  {
    forall n | n == nx || n == ny || n == nz
      ensures var start := Status(UpstreamsOf([]), n);
              var status := StatusAfter(StatusAfter(StatusAfter(start, Use(nx, false, true), n),
                                                    Use(ny, false, false), n), Use(ny, false, false), n);
              Status(UpstreamsOf([Use(nx, false, true), Use(ny, false, false), Use(ny, false, false),
                                  Use(nx, true, true), Use(nx, true, false), Use(nz, true, false)]), n) ==
              StatusAfter(StatusAfter(StatusAfter(status, Use(nx, true, true), n), Use(nx, true, false), n),
                          Use(nz, true, false), n)
    {
      SixUses(Use(nx, false, true), Use(ny, false, false), Use(ny, false, false), Use(nx, true, true),
              Use(nx, true, false), Use(nz, true, false), n);
    }
  }

  lemma OnePathMerges(ing: Ingress, host: string, path: string, service: ServiceRef)
    requires host != ""
    ensures var rule := OnePath(host, path, service);
            PathMerges(ing, rule, rule.http.value) ==
            [MergeRef(UpstreamName(ing.ns, Some(service)), host, At(path, Exact))]
  {
    var rule := OnePath(host, path, service);
    PrefixDropsLast(rule.http.value, 0);
    WholePrefix(rule.http.value);
    assert PathMerges(ing, rule, []) == [];
  }

  lemma SharingMerges(ns: string, h1: string, h2: string, a: string, b: string, q: string, x: ServiceRef, y: ServiceRef,
                      z: ServiceRef)
    requires Apart(ns, h1, h2, a, b, q, x, y, z)
    ensures var nx, nz := UpstreamName(ns, Some(x)), UpstreamName(ns, Some(z));
            CanaryMerges(Sharing(ns, h1, h2, a, b, q, x, y, z)) ==
            [MergeRef(nx, DEF_SERVER, CatchAll), MergeRef(nx, h2, At(q, Exact)), MergeRef(nz, h1, At(a, Exact))]
  {
    var ings := Sharing(ns, h1, h2, a, b, q, x, y, z);
    var c := ings[2];
    OnePathMerges(c, h2, q, x);
    OnePathMerges(c, h1, a, z);
    RuleMergesStep([], c, 0);
    RuleMergesStep([], c, 1);
    WholePrefix(c.rules);
    assert RuleMerges(c, c.rules[..0]) == [];
    MergesOfThird(ings[0], ings[1], c);
  }

  lemma MergesOfThird(x: Ingress, y: Ingress, z: Ingress)
    requires !x.canary && !y.canary && z.canary
    ensures CanaryMerges([x, y, z]) == Merges(z)
  {
    PrefixesOfThree(x, y, z);
    assert CanaryMerges([x]) == CanaryMerges([]);
    assert CanaryMerges([x, y]) == CanaryMerges([x]);
  }

  /** The servers before the claims: the root of the first host has the shared default backend. */
  lemma SharingStart(ns: string, h1: string, h2: string, a: string, b: string, q: string, x: ServiceRef, y: ServiceRef,
                     z: ServiceRef)
    requires Apart(ns, h1, h2, a, b, q, x, y, z)
    ensures var s := InitialServers(Sharing(ns, h1, h2, a, b, q, x, y, z));
            && h1 in s && s[h1] == [Location(ROOT, Prefix, true, UpstreamName(ns, Some(x)), Some(0))]
            && h2 in s && s[h2] == [Location(ROOT, Prefix, true, DEF_UPSTREAM, Some(1))]
  {
    var ings := Sharing(ns, h1, h2, a, b, q, x, y, z);
    OfThree(ings[0], ings[1], ings[2]);
    var s0 := TakeDefault(InitialServers([]), ings[0], 0);
    OneHost(s0, ings[0], 0);
    OneHost(AddHosts(s0, ings[0], 0, ings[0].rules), ings[1], 1);
  }

  lemma OneHost(s: Servers, ing: Ingress, owner: nat)
    requires |ing.rules| == 1
    ensures var host := HostOf(ing.rules[0]);
            AddHosts(s, ing, owner, ing.rules) ==
            if host in s then s else s[host := [Location(ROOT, Prefix, true, DefaultName(ing), Some(owner))]]
  {
    assert ing.rules[..0] == [];
    assert AddHosts(s, ing, owner, []) == s;
  }

  lemma SharingEffective(ns: string, h1: string, h2: string, a: string, b: string, q: string, x: ServiceRef,
                         y: ServiceRef, z: ServiceRef)
    requires Apart(ns, h1, h2, a, b, q, x, y, z)
    ensures var ups := UpstreamsOf(Uses(Sharing(ns, h1, h2, a, b, q, x, y, z)));
            && Status(ups, UpstreamName(ns, Some(x))) == Some(true)
            && Status(ups, UpstreamName(ns, Some(y))) == Some(false)
            && Status(ups, UpstreamName(ns, Some(z))) == Some(true)
  {
    SharingUses(ns, h1, h2, a, b, q, x, y, z);
    SharedUpstreams(UpstreamName(ns, Some(x)), UpstreamName(ns, Some(y)), UpstreamName(ns, Some(z)));
  }

  /** Of the four claims only those of the Ingresses that are no canaries have an effect. */
  lemma SharingClaims(ns: string, h1: string, h2: string, a: string, b: string, q: string, x: ServiceRef, y: ServiceRef,
                      z: ServiceRef)
    requires Apart(ns, h1, h2, a, b, q, x, y, z)
    ensures var ings := Sharing(ns, h1, h2, a, b, q, x, y, z);
            var ny, ups := UpstreamName(ns, Some(y)), UpstreamsOf(Uses(ings));
            var r0, r1 := Ref(h1, a, Exact, ny, false, 0), Ref(h2, b, Exact, ny, false, 1);
            BuiltServers(ings) == Claim(Claim(InitialServers(ings), ups, r0), ups, r1)
  {
    var ings := Sharing(ns, h1, h2, a, b, q, x, y, z);
    var nx, ny, nz := UpstreamName(ns, Some(x)), UpstreamName(ns, Some(y)), UpstreamName(ns, Some(z));
    var r0, r1 := Ref(h1, a, Exact, ny, false, 0), Ref(h2, b, Exact, ny, false, 1);
    var r2, r3 := Ref(h2, q, Exact, nx, true, 2), Ref(h1, a, Exact, nz, true, 2);
    SharingRefs(ns, h1, h2, a, b, q, x, y, z);
    SharingEffective(ns, h1, h2, a, b, q, x, y, z);
    OfThree(ings[0], ings[1], ings[2]);
    FourClaims(InitialServers(ings), UpstreamsOf(Uses(ings)), r0, r1, r2, r3);
  }

  lemma SharingBuilt(ns: string, h1: string, h2: string, a: string, b: string, q: string, x: ServiceRef, y: ServiceRef,
                     z: ServiceRef)
    requires Apart(ns, h1, h2, a, b, q, x, y, z)
    ensures var s := BuiltServers(Sharing(ns, h1, h2, a, b, q, x, y, z));
            var nx, ny := UpstreamName(ns, Some(x)), UpstreamName(ns, Some(y));
            && h1 in s && s[h1] != [] && s[h1][0].backend == nx
            && h2 in s && s[h2] == [Location(ROOT, Prefix, true, DEF_UPSTREAM, Some(1)),
                                    Location(b, Exact, false, ny, Some(1))]
  {
    var ings := Sharing(ns, h1, h2, a, b, q, x, y, z);
    var ny, ups := UpstreamName(ns, Some(y)), UpstreamsOf(Uses(ings));
    SharingStart(ns, h1, h2, a, b, q, x, y, z);
    SharingEffective(ns, h1, h2, a, b, q, x, y, z);
    SharingClaims(ns, h1, h2, a, b, q, x, y, z);
    TwoClaims(InitialServers(ings), ups, Ref(h1, a, Exact, ny, false, 0), Ref(h2, b, Exact, ny, false, 1));
  }

  lemma TwoClaims(s: Servers, ups: Upstreams, r0: Ref, r1: Ref)
    requires Effective(ups, r0) && Effective(ups, r1) && r0.host != r1.host && r0.host in s && r1.host in s
    requires r0.pathType == Exact && |s[r0.host]| == 1 && HasType(s[r0.host][0], ROOT, Prefix)
    requires r1.pathType == Exact && |s[r1.host]| == 1 && HasType(s[r1.host][0], ROOT, Prefix)
    ensures var t := Claim(Claim(s, ups, r0), ups, r1);
            && r0.host in t && t[r0.host] == s[r0.host] + [Location(r0.path, Exact, false, r0.name, Some(r0.owner))]
            && r1.host in t && t[r1.host] == s[r1.host] + [Location(r1.path, Exact, false, r1.name, Some(r1.owner))]
  {
    RootAndClaim(s[r0.host], r0);
    RootAndClaim(s[r1.host], r1);
  }

  /** An Exact claim adds a location to a server that has only its root. */
  lemma RootAndClaim(locs: seq<Location>, r: Ref)
    requires |locs| == 1 && HasType(locs[0], ROOT, Prefix) && r.pathType == Exact
    ensures ClaimInto(locs, r.path, r.pathType, r.name, r.owner) ==
            locs + [Location(r.path, Exact, false, r.name, Some(r.owner))]
  {
    FirstAtIs(locs, r.path, if r.path == ROOT then 0 else 1);
  }

  lemma FourClaims(s: Servers, ups: Upstreams, r0: Ref, r1: Ref, r2: Ref, r3: Ref)
    requires !Effective(ups, r2) && !Effective(ups, r3)
    ensures ClaimAll(s, ups, [r0] + [r1] + [r2, r3]) == Claim(Claim(s, ups, r0), ups, r1)
  {
    OneClaim(s, ups, [], r0);
    OneClaim(s, ups, [r0], r1);
    OneClaim(s, ups, [r0] + [r1], r2);
    OneClaim(s, ups, [r0] + [r1] + [r2], r3);
    assert [] + [r0] == [r0];
    assert [r0] + [r1] + [r2] + [r3] == [r0] + [r1] + [r2, r3];
  }

  lemma OneClaim(s: Servers, ups: Upstreams, refs: seq<Ref>, r: Ref)
    ensures ClaimAll(s, ups, refs + [r]) == Claim(ClaimAll(s, ups, refs), ups, r)
  {
    assert (refs + [r])[..|refs|] == refs;
  }

  /** The canary's rule path for the shared service matches nothing and deletes the upstream, and its next path walks
      into the root location that still has it: the builder dereferences nil. */
  lemma SharedNameFails(ns: string, h1: string, h2: string, a: string, b: string, q: string, x: ServiceRef,
                        y: ServiceRef, z: ServiceRef)
    requires Apart(ns, h1, h2, a, b, q, x, y, z)
    ensures var ings := Sharing(ns, h1, h2, a, b, q, x, y, z);
            && NonCanaryExists(ings) && CanariesHaveHttp(ings)
            && MergeAll(UpstreamsOf(Uses(ings)), BuiltServers(ings), CanaryMerges(ings)) == None
  {
    var ings := Sharing(ns, h1, h2, a, b, q, x, y, z);
    OtherAndHttp(ings[0], ings[1], ings[2]);
    SharingTrips(ns, h1, h2, a, b, q, x, y, z);
    BuiltMergeFailsIff(ings);
  }

  lemma OtherAndHttp(x: Ingress, y: Ingress, z: Ingress)
    requires !x.canary && !y.canary && forall rule | rule in z.rules :: rule.http.Some?
    ensures NonCanaryExists([x, y, z]) && CanariesHaveHttp([x, y, z])
  {
    assert x in [x, y, z];
  }

  lemma SharingTrips(ns: string, h1: string, h2: string, a: string, b: string, q: string, x: ServiceRef,
                     y: ServiceRef, z: ServiceRef)
    requires Apart(ns, h1, h2, a, b, q, x, y, z)
    ensures var ings := Sharing(ns, h1, h2, a, b, q, x, y, z);
            Trips(UpstreamsOf(Uses(ings)), BuiltServers(ings), CanaryMerges(ings), 2)
  {
    var ings := Sharing(ns, h1, h2, a, b, q, x, y, z);
    var nx, ny, nz := UpstreamName(ns, Some(x)), UpstreamName(ns, Some(y)), UpstreamName(ns, Some(z));
    var ups, s, refs := UpstreamsOf(Uses(ings)), BuiltServers(ings), CanaryMerges(ings);
    SharingEffective(ns, h1, h2, a, b, q, x, y, z);
    SharingMerges(ns, h1, h2, a, b, q, x, y, z);
    SharingBuilt(ns, h1, h2, a, b, q, x, y, z);
    ThirdTrips(ups, s, refs, nx, nz, s[h1][0]);
  }

  lemma ThirdTrips(ups: Upstreams, s: Servers, refs: seq<MergeRef>, nx: string, nz: string, root: Location)
    requires |refs| == 3 && refs[0].name == refs[1].name == nx != nz == refs[2].name && nz in ups
    requires Deletes(ups, s, refs[1])
    requires refs[2].host in s && s[refs[2].host] != [] && s[refs[2].host][0] == root && root.backend == nx
    ensures Trips(ups, s, refs, 2)
  {
    assert refs[..2] == [refs[0], refs[1]];
    assert refs[1] in refs[..2];
    assert root in BeforeOwn(s[refs[2].host], nz);
    assert !Survives(ups, s, refs[..2], root.backend);
  }
}
