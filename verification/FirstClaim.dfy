/** Precedence among Ingresses: of all that name the same host, path and path type, the first in input order
    keeps the location, whatever comes after it. */
module FirstClaim {
  import opened Basics
  import opened Paths
  import opened ServerBuilder

  // ----- The first location of a path and type -----

  predicate HasType(l: Location, path: string, pathType: PathType) {
    l.path == path && l.pathType == pathType
  }

  function FirstTyped(locs: seq<Location>, path: string, pathType: PathType): (k: nat)
    ensures k <= |locs|
    ensures k < |locs| ==> HasType(locs[k], path, pathType)
    ensures forall j | 0 <= j < k :: !HasType(locs[j], path, pathType)
  {
    if locs == [] || HasType(locs[0], path, pathType) then 0 else 1 + FirstTyped(locs[1..], path, pathType)
  }

  lemma FirstTypedIs(locs: seq<Location>, path: string, pathType: PathType, k: nat)
    requires k <= |locs| && (k < |locs| ==> HasType(locs[k], path, pathType))
    requires forall j | 0 <= j < k :: !HasType(locs[j], path, pathType)
    ensures FirstTyped(locs, path, pathType) == k
  {
  }

  /** The root location comes first, and it alone may still be a default. */
  ghost predicate RootThenClaimed(locs: seq<Location>) {
    && locs != [] && HasType(locs[0], ROOT, Prefix)
    && forall j | 0 < j < |locs| :: !locs[j].isDefBackend
  }

  /** A claim changes at most the first location of its path and type, and that only while it is a default. */
  lemma ClaimIntoEffect(locs: seq<Location>, path: string, pathType: PathType, name: string, owner: nat)
    requires RootThenClaimed(locs)
    ensures var locs' := ClaimInto(locs, path, pathType, name, owner);
            var k := FirstTyped(locs, path, pathType);
            && RootThenClaimed(locs')
            && (k == |locs| ==> locs' == locs + [Location(path, pathType, false, name, Some(owner))])
            && (k < |locs| ==>
                  && |locs'| >= |locs|
                  && (forall j | 0 <= j < |locs| && j != k :: locs'[j] == locs[j])
                  && locs'[k] == (if locs[k].isDefBackend
                                  then locs[k].(backend := name, isDefBackend := false, owner := Some(owner))
                                  else locs[k])
                  && forall j | |locs| <= j < |locs'| :: HasType(locs'[j], path, pathType))
  {
    var f, k := FirstAt(locs, path), FirstTyped(locs, path, pathType);
    assert f <= k;
    if f < |locs| && locs[f].pathType == pathType {
      assert f == k;
    } else if k < |locs| {
      assert !locs[k].isDefBackend;
    }
  }

  // ----- The first claimant -----

  predicate Effective(ups: Upstreams, r: Ref) {
    r.name in ups && !ups[r.name].noServer
  }

  predicate Claims(s: Servers, ups: Upstreams, r: Ref, host: string, path: string, pathType: PathType) {
    Effective(ups, r) && ServerFor(s, r.host) == host && r.path == path && r.pathType == pathType
  }

  function FirstClaimant(s: Servers, ups: Upstreams, refs: seq<Ref>, host: string, path: string, pathType: PathType)
    : Option<Ref>
  {
    if refs == [] then None
    else
      var r := FirstClaimant(s, ups, refs[..|refs| - 1], host, path, pathType);
      if r.Some? then r
      else if Claims(s, ups, refs[|refs| - 1], host, path, pathType) then Some(refs[|refs| - 1])
      else None
  }

  /** What the first location of a path and type is once the first claimant is known. */
  ghost predicate OwnedByFirst(start: Location, locs: seq<Location>, first: Option<Ref>, path: string,
                               pathType: PathType)
  {
    var k := FirstTyped(locs, path, pathType);
    if path == ROOT && pathType == Prefix then
      && k == 0 && locs != []
      && locs[0] == (if start.isDefBackend && first.Some?
                     then start.(backend := first.value.name, isDefBackend := false, owner := Some(first.value.owner))
                     else start)
    else
      && (first.None? ==> k == |locs|)
      && (first.Some? ==>
            k < |locs| && locs[k] == Location(path, pathType, false, first.value.name, Some(first.value.owner)))
  }

  ghost predicate Started(s: Servers) {
    && DEF_SERVER in s
    && forall h | h in s :: |s[h]| == 1 && HasType(s[h][0], ROOT, Prefix)
  }

  lemma StepOwned(start: Location, locs: seq<Location>, first: Option<Ref>, path: string, pathType: PathType, r: Ref)
    requires RootThenClaimed(locs) && OwnedByFirst(start, locs, first, path, pathType) && HasType(start, ROOT, Prefix)
    ensures var locs' := ClaimInto(locs, r.path, r.pathType, r.name, r.owner);
            var first' := if first.None? && r.path == path && r.pathType == pathType then Some(r) else first;
            OwnedByFirst(start, locs', first', path, pathType)
  {
    ClaimIntoEffect(locs, r.path, r.pathType, r.name, r.owner);
    var locs' := ClaimInto(locs, r.path, r.pathType, r.name, r.owner);
    var k := FirstTyped(locs, path, pathType);
    if r.path == path && r.pathType == pathType {
      FirstTypedIs(locs', path, pathType, k);
    } else if k < |locs| {
      FirstTypedIs(locs', path, pathType, k);
    } else {
      FirstTypedIs(locs', path, pathType, |locs'|);
    }
  }

  lemma ClaimOwned(s: Servers, cur: Servers, ups: Upstreams, first: Option<Ref>, r: Ref, host: string,
                   path: string, pathType: PathType)
    requires Started(s) && host in s && cur.Keys == s.Keys && RootThenClaimed(cur[host])
    requires OwnedByFirst(s[host][0], cur[host], first, path, pathType)
    ensures var cur' := Claim(cur, ups, r);
            var first' := if first.None? && Claims(s, ups, r, host, path, pathType) then Some(r) else first;
            && cur'.Keys == s.Keys && RootThenClaimed(cur'[host])
            && OwnedByFirst(s[host][0], cur'[host], first', path, pathType)
  {
    if Effective(ups, r) && ServerFor(s, r.host) == host {
      ClaimIntoEffect(cur[host], r.path, r.pathType, r.name, r.owner);
      StepOwned(s[host][0], cur[host], first, path, pathType, r);
    }
  }

  /** After all claims: a location of a path and type is there exactly when somebody claimed it, and it belongs to
      the first who did; the root location is there from the start, and belongs to the first claimant unless it
      was closed. */
  lemma {:induction false} FirstClaimantOwns(s: Servers, ups: Upstreams, refs: seq<Ref>, host: string,
                                             path: string, pathType: PathType)
    requires Started(s) && host in s
    ensures host in ClaimAll(s, ups, refs) && RootThenClaimed(ClaimAll(s, ups, refs)[host])
    ensures OwnedByFirst(s[host][0], ClaimAll(s, ups, refs)[host],
                         FirstClaimant(s, ups, refs, host, path, pathType), path, pathType)
  {
    if refs == [] {
      FirstTypedIs(s[host], path, pathType, if path == ROOT && pathType == Prefix then 0 else 1);
    } else {
      var init, r := refs[..|refs| - 1], refs[|refs| - 1];
      FirstClaimantOwns(s, ups, init, host, path, pathType);
      ClaimKeepsHosts(s, ups, init);
      var first := FirstClaimant(s, ups, init, host, path, pathType);
      ClaimOwned(s, ClaimAll(s, ups, init), ups, first, r, host, path, pathType);
    }
  }

  /** A claimed location is never bound again. */
  lemma {:induction false} NeverRebound(s: Servers, ups: Upstreams, refs: seq<Ref>, host: string, k: nat)
    requires host in s && RootThenClaimed(s[host]) && k < |s[host]| && !s[host][k].isDefBackend
    ensures host in ClaimAll(s, ups, refs) && RootThenClaimed(ClaimAll(s, ups, refs)[host])
    ensures k < |ClaimAll(s, ups, refs)[host]| && ClaimAll(s, ups, refs)[host][k] == s[host][k]
  {
    if refs != [] {
      var init, r := refs[..|refs| - 1], refs[|refs| - 1];
      NeverRebound(s, ups, init, host, k);
      ClaimIntoEffect(ClaimAll(s, ups, init)[host], r.path, r.pathType, r.name, r.owner);
    }
  }

  // ----- From Ingresses to claims -----

  /** No upstream name is asked for both by a canary and by another Ingress, and no canary asks for the name of
      the default upstream. */
  ghost predicate CanariesApart(uses: seq<Use>) {
    forall u: Use, v: Use | u in uses && v in uses && u.canary ::
      u.name != DEF_UPSTREAM && (v.name == u.name ==> v.canary)
  }

  ghost predicate Disjoint(ings: seq<Ingress>) {
    CanariesApart(Uses(ings))
  }

  /** Then an upstream is without a server exactly when a canary asked for it. */
  lemma {:induction false} NoServerIffCanary(uses: seq<Use>, u: Use)
    requires CanariesApart(uses)
    requires u in uses
    ensures u.name in UpstreamsOf(uses) && UpstreamsOf(uses)[u.name].noServer == u.canary
    decreases |uses|
  {
    var init, last := uses[..|uses| - 1], uses[|uses| - 1];
    NamesAreKeys(init);
    if u in init {
      NoServerIffCanary(init, u);
      assert last in uses;
    } else if u.name in UpstreamsOf(init) {
      NoServerOfInit(uses, u.name);
    }
  }

  /** An upstream that exists is the default one or was asked for. */
  lemma {:induction false} CreatedIsUsed(uses: seq<Use>, n: string)
    requires n in UpstreamsOf(uses) && n != DEF_UPSTREAM
    ensures exists u | u in uses :: u.name == n
  {
    var init, last := uses[..|uses| - 1], uses[|uses| - 1];
    if n in UpstreamsOf(init) {
      CreatedIsUsed(init, n);
      var u :| u in init && u.name == n;
      assert u in uses;
    } else {
      assert last in uses;
    }
  }

  lemma NoServerOfInit(uses: seq<Use>, n: string)
    requires uses != [] && n in UpstreamsOf(uses[..|uses| - 1])
    requires CanariesApart(uses)
    requires uses[|uses| - 1].name == n
    ensures UpstreamsOf(uses)[n].noServer == uses[|uses| - 1].canary
    decreases |uses|, 0
  {
    var init, last := uses[..|uses| - 1], uses[|uses| - 1];
    assert last in uses && forall v | v in init :: v in uses;
    if n == DEF_UPSTREAM {
      DefaultHasServer(init);
    } else {
      CreatedIsUsed(init, n);
      var v :| v in init && v.name == n;
      NoServerIffCanary(init, v);
    }
    assert UpstreamsOf(init)[n].noServer == last.canary;
  }

  lemma {:induction false} DefaultHasServer(uses: seq<Use>)
    requires forall v: Use | v in uses && v.canary :: v.name != DEF_UPSTREAM
    ensures DEF_UPSTREAM in UpstreamsOf(uses) && !UpstreamsOf(uses)[DEF_UPSTREAM].noServer
  {
    if uses != [] {
      assert uses[|uses| - 1] in uses;
      DefaultHasServer(uses[..|uses| - 1]);
    }
  }

  ghost predicate Sorted(refs: seq<Ref>) {
    forall i, j | 0 <= i < j < |refs| :: refs[i].owner <= refs[j].owner
  }

  lemma {:induction false} PathRefsOwner(ing: Ingress, owner: nat, rule: Rule, paths: seq<PathRule>)
    ensures forall r: Ref | r in PathRefs(ing, owner, rule, paths) :: r.owner == owner && r.canary == ing.canary
  {
    if paths != [] {
      PathRefsOwner(ing, owner, rule, paths[..|paths| - 1]);
    }
  }

  lemma {:induction false} RuleRefsOwner(ing: Ingress, owner: nat, rules: seq<Rule>)
    ensures forall r: Ref | r in RuleRefs(ing, owner, rules) :: r.owner == owner && r.canary == ing.canary
  {
    if rules != [] {
      RuleRefsOwner(ing, owner, rules[..|rules| - 1]);
      var rule := rules[|rules| - 1];
      if rule.http.Some? {
        PathRefsOwner(ing, owner, rule, rule.http.value);
      }
    }
  }

  /** The references come in the order of the Ingresses. */
  lemma {:induction false} RefsSorted(ings: seq<Ingress>)
    ensures Sorted(Refs(ings))
    ensures forall r: Ref | r in Refs(ings) :: r.owner < |ings| && r.canary == ings[r.owner].canary
  {
    if ings != [] {
      var i := |ings| - 1;
      RefsSorted(ings[..i]);
      RuleRefsOwner(ings[i], i, ings[i].rules);
      var a: seq<Ref>, b: seq<Ref> := Refs(ings[..i]), RuleRefs(ings[i], i, ings[i].rules);
      forall x: nat, y: nat | 0 <= x < y < |a + b| ensures (a + b)[x].owner <= (a + b)[y].owner {
        if y >= |a| {
          assert b[y - |a|] in b;
          if x < |a| {
            assert a[x] in a;
          } else {
            assert b[x - |a|] in b;
          }
        }
      }
    }
  }

  /** The first claimant is a claimant, and no claimant comes from an earlier Ingress. */
  lemma {:induction false} FirstClaimantIsFirst(s: Servers, ups: Upstreams, refs: seq<Ref>, r: Ref)
    requires Sorted(refs) && r in refs && Effective(ups, r)
    ensures var first := FirstClaimant(s, ups, refs, ServerFor(s, r.host), r.path, r.pathType);
            first.Some? && first.value in refs && first.value.owner <= r.owner
            && Claims(s, ups, first.value, ServerFor(s, r.host), r.path, r.pathType)
  {
    var init, last := refs[..|refs| - 1], refs[|refs| - 1];
    if r in init {
      FirstClaimantIsFirst(s, ups, init, r);
    } else {
      assert last == r;
      FirstClaimantInRefs(s, ups, init, ServerFor(s, r.host), r.path, r.pathType);
    }
  }

  lemma {:induction false} FirstClaimantInRefs(s: Servers, ups: Upstreams, refs: seq<Ref>, host: string,
                                               path: string, pathType: PathType)
    ensures var first := FirstClaimant(s, ups, refs, host, path, pathType);
            first.Some? ==> first.value in refs && Claims(s, ups, first.value, host, path, pathType)
  {
    if refs != [] {
      FirstClaimantInRefs(s, ups, refs[..|refs| - 1], host, path, pathType);
    }
  }

  lemma {:induction false} RefInRefs(ings: seq<Ingress>, i: nat, r: Ref)
    requires i < |ings| && r in RuleRefs(ings[i], i, ings[i].rules)
    ensures r in Refs(ings)
  {
    if i < |ings| - 1 {
      RefInRefs(ings[..|ings| - 1], i, r);
    }
  }

  lemma {:induction false} HostAdded(s: Servers, ing: Ingress, owner: nat, rules: seq<Rule>, j: nat)
    requires j < |rules|
    ensures HostOf(rules[j]) in AddHosts(s, ing, owner, rules)
  {
    if j < |rules| - 1 {
      HostAdded(s, ing, owner, rules[..|rules| - 1], j);
    }
  }

  /** Every host of a rule of an Ingress that is no canary has a server. */
  lemma {:induction false} HostHasServer(ings: seq<Ingress>, i: nat, j: nat)
    requires i < |ings| && !ings[i].canary && j < |ings[i].rules|
    ensures HostOf(ings[i].rules[j]) in InitialServers(ings)
  {
    var n := |ings| - 1;
    var host := HostOf(ings[i].rules[j]);
    if i < n {
      HostHasServer(ings[..n], i, j);
      AddHostsRoot(TakeDefault(InitialServers(ings[..n]), ings[n], n), ings[n], n, ings[n].rules, host);
    } else {
      HostAdded(TakeDefault(InitialServers(ings[..n]), ings[n], n), ings[n], n, ings[n].rules, j);
    }
  }

  lemma InitialIsStarted(ings: seq<Ingress>)
    ensures Started(InitialServers(ings))
  {
    forall h | h in InitialServers(ings)
      ensures |InitialServers(ings)[h]| == 1 && HasType(InitialServers(ings)[h][0], ROOT, Prefix)
    {
      RootFirst(ings, h);
    }
    RootFirst(ings, DEF_SERVER);
  }

  /** The servers that the builder's main loop leaves behind. */
  function BuiltServers(ings: seq<Ingress>): Servers {
    ClaimAll(InitialServers(ings), UpstreamsOf(Uses(ings)), Refs(ings))
  }

  /** First claim wins.  For a service path of an Ingress that is no canary there is a location of that path and
      type on its host, and the first such location belongs to an Ingress that claims the same host, path and type
      and does not come later; only a catch-all root closed by a default backend stays with that backend. */
  lemma FirstClaimWins(ings: seq<Ingress>, i: nat, j: nat, k: nat)
    requires Disjoint(ings) && i < |ings| && !ings[i].canary && j < |ings[i].rules|
    requires ings[i].rules[j].http.Some? && k < |ings[i].rules[j].http.value|
    requires ings[i].rules[j].http.value[k].service.Some?
    ensures var r := RefOf(ings[i], i, ings[i].rules[j], ings[i].rules[j].http.value[k]);
            var start := InitialServers(ings);
            && r.host in start && start[r.host] != [] && r.host in BuiltServers(ings)
            && var locs := BuiltServers(ings)[r.host];
               var p := FirstTyped(locs, r.path, r.pathType);
               && p < |locs|
               && if r.path == ROOT && r.pathType == Prefix && !start[r.host][0].isDefBackend then
                    r.host == DEF_SERVER && locs[p] == start[r.host][0]
                  else
                    && !locs[p].isDefBackend
                    && exists first: Ref | first in Refs(ings) ::
                         && first.owner <= i && !ings[first.owner].canary
                         && ServerFor(start, first.host) == r.host
                         && first.path == r.path && first.pathType == r.pathType
                         && locs[p].owner == Some(first.owner) && locs[p].backend == first.name
  {
    var rule := ings[i].rules[j];
    var r := RefOf(ings[i], i, rule, rule.http.value[k]);
    var start, ups := InitialServers(ings), UpstreamsOf(Uses(ings));
    PathRefIn(ings[i], i, rule, rule.http.value, k);
    RuleRefIn(ings[i], i, ings[i].rules, j);
    RefInRefs(ings, i, r);
    IngressUses(ings, i);
    NoServerIffCanary(Uses(ings), Use(r.name, r.canary, false));
    HostHasServer(ings, i, j);
    InitialIsStarted(ings);
    RootFirst(ings, r.host);
    RefsSorted(ings);
    FirstClaimantOwns(start, ups, Refs(ings), r.host, r.path, r.pathType);
    FirstClaimantIsFirst(start, ups, Refs(ings), r);
    var first := FirstClaimant(start, ups, Refs(ings), r.host, r.path, r.pathType).value;
    RefIsUse(ings, first);
    NoServerIffCanary(Uses(ings), Use(first.name, first.canary, false));
  }

  lemma {:induction false} RefIsUse(ings: seq<Ingress>, r: Ref)
    requires r in Refs(ings)
    ensures Use(r.name, r.canary, false) in Uses(ings)
  {
    var n := |ings| - 1;
    if r in RuleRefs(ings[n], n, ings[n].rules) {
      IngressUses(ings, n);
    } else {
      RefIsUse(ings[..n], r);
    }
  }

  /** Every server keeps a "/" location of type Prefix, in the first place. */
  lemma RootStays(ings: seq<Ingress>, host: string)
    requires host in BuiltServers(ings)
    ensures BuiltServers(ings)[host] != [] && HasType(BuiltServers(ings)[host][0], ROOT, Prefix)
  {
    InitialIsStarted(ings);
    ClaimKeepsHosts(InitialServers(ings), UpstreamsOf(Uses(ings)), Refs(ings));
    FirstClaimantOwns(InitialServers(ings), UpstreamsOf(Uses(ings)), Refs(ings), host, ROOT, Prefix);
  }

  // ----- The catch-all root -----

  predicate GivesDefault(ing: Ingress) {
    !ing.canary && DefaultUses(ing) != []
  }

  lemma CatchAllStep(s: Servers, ing: Ingress, owner: nat)
    requires DEF_SERVER in s && |s[DEF_SERVER]| == 1
    ensures DEF_SERVER in AddServers(s, ing, owner) && |AddServers(s, ing, owner)[DEF_SERVER]| == 1
    ensures var loc, loc' := s[DEF_SERVER][0], AddServers(s, ing, owner)[DEF_SERVER][0];
            if GivesDefault(ing) then
              && loc'.backend == DefaultUses(ing)[0].name && loc'.owner == Some(owner)
              && loc'.isDefBackend == (loc.isDefBackend && ing.rules != [])
            else loc' == loc
  {
    AddHostsRoot(TakeDefault(s, ing, owner), ing, owner, ing.rules, DEF_SERVER);
  }

  /** Some Ingress has a default backend and no rules. */
  ghost predicate Closed(ings: seq<Ingress>) {
    exists i | 0 <= i < |ings| :: GivesDefault(ings[i]) && ings[i].rules == []
  }

  /** The Ingress with a default backend, with or without rules, that comes last. */
  function LastDefault(ings: seq<Ingress>): Option<nat> {
    if ings == [] then None
    else if GivesDefault(ings[|ings| - 1]) then Some(|ings| - 1)
    else LastDefault(ings[..|ings| - 1])
  }

  lemma {:induction false} LastDefaultIsLast(ings: seq<Ingress>)
    ensures match LastDefault(ings)
            case None => forall i | 0 <= i < |ings| :: !GivesDefault(ings[i])
            case Some(i) => i < |ings| && GivesDefault(ings[i]) && forall j | i < j < |ings| :: !GivesDefault(ings[j])
  {
    if ings != [] {
      LastDefaultIsLast(ings[..|ings| - 1]);
    }
  }

  lemma ClosedSnoc(ings: seq<Ingress>, ing: Ingress)
    ensures Closed(ings + [ing]) <==> Closed(ings) || (GivesDefault(ing) && ing.rules == [])
  {
    assert (ings + [ing])[|ings|] == ing;
    assert forall i | 0 <= i < |ings| :: (ings + [ing])[i] == ings[i];
  }

  /** The catch-all root before the claims: it is closed exactly when some Ingress has a default backend and no
      rules; its backend is that of the last Ingress with a default backend, with or without rules. */
  lemma {:induction false} CatchAllExact(ings: seq<Ingress>)
    ensures DEF_SERVER in InitialServers(ings) && |InitialServers(ings)[DEF_SERVER]| == 1
    ensures var loc := InitialServers(ings)[DEF_SERVER][0];
            && (loc.isDefBackend <==> !Closed(ings))
            && loc.owner == LastDefault(ings)
    ensures var loc := InitialServers(ings)[DEF_SERVER][0];
            match LastDefault(ings)
            case None => loc.backend == DEF_UPSTREAM
            case Some(i) => i < |ings| && DefaultUses(ings[i]) != [] && loc.backend == DefaultUses(ings[i])[0].name
  {
    if ings != [] {
      var n := |ings| - 1;
      CatchAllExact(ings[..n]);
      LastDefaultIsLast(ings[..n]);
      CatchAllStep(InitialServers(ings[..n]), ings[n], n);
      ClosedSnoc(ings[..n], ings[n]);
      assert ings == ings[..n] + [ings[n]];
    }
  }
}
