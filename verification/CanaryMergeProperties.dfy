/** What merging keeps and what it produces: no lookup fails, alternatives form a graph of depth one, and both
    which upstreams survive and which alternatives are listed are known exactly. */
module CanaryMergeProperties {
  import opened Basics
  import opened ServerBuilder
  import opened FirstClaim
  import opened CanaryMerge

  /** Every location has its upstream, and none is a canary's. */
  ghost predicate BackendsExist(ups: Upstreams, servers: Servers, canaries: set<string>) {
    forall h, l: Location | h in servers && l in servers[h] :: l.backend in ups && l.backend !in canaries
  }

  /** Upstreams are stored under their names, and those of canaries are the ones without a server. */
  ghost predicate Named(ups: Upstreams, canaries: set<string>) {
    && DEF_UPSTREAM in ups && DEF_UPSTREAM !in canaries
    && forall n | n in ups :: ups[n].name == n && (ups[n].noServer <==> n in canaries)
  }

  /** The alternatives of one upstream: no repetition, not itself, canaries only; and none at all for the default
      upstream and for the canaries themselves. */
  ghost predicate Shaped(u: Upstream, canaries: set<string>) {
    && NoDup(u.alternatives) && u.name !in u.alternatives
    && (forall a | a in u.alternatives :: a in canaries)
    && (u.alternatives != [] ==> u.name != DEF_UPSTREAM && !u.noServer)
  }

  ghost predicate Integrity(ups: Upstreams, servers: Servers, canaries: set<string>) {
    && Named(ups, canaries) && BackendsExist(ups, servers, canaries)
    && forall n | n in ups :: Shaped(ups[n], canaries)
  }

  // ----- One walk over the locations of a server -----

  /** The location gives its upstream the alternative. */
  predicate Takes(ups: Upstreams, l: Location, t: Target) {
    l.backend in ups && l.backend != DEF_UPSTREAM && !ups[l.backend].noServer && Hit(l, t)
  }

  predicate SomeTakes(ups: Upstreams, locs: seq<Location>, t: Target) {
    exists l | l in locs :: Takes(ups, l, t)
  }

  predicate TakesFor(ups: Upstreams, locs: seq<Location>, t: Target, key: string) {
    exists l | l in locs :: l.backend == key && Takes(ups, l, t)
  }

  function With(u: Upstream, name: string, takes: bool): Upstream {
    if takes && name !in u.alternatives then u.(alternatives := u.alternatives + [name]) else u
  }

  ghost predicate After(ups: Upstreams, ups': Upstreams, locs: seq<Location>, t: Target, name: string) {
    ups'.Keys == ups.Keys && forall n | n in ups :: ups'[n] == With(ups[n], name, TakesFor(ups, locs, t, n))
  }

  ghost predicate KeyedByName(ups: Upstreams) {
    forall n | n in ups :: ups[n].name == n
  }

  lemma ScanStep(ups: Upstreams, ups': Upstreams, locs: seq<Location>, t: Target, name: string)
    requires KeyedByName(ups) && locs != [] && locs[0].backend in ups
    requires var ups1 := if Takes(ups, locs[0], t) then AddAlternative(ups, locs[0].backend, name) else ups;
             After(ups1, ups', locs[1..], t, name)
    ensures After(ups, ups', locs, t, name)
  {
    var ups1 := if Takes(ups, locs[0], t) then AddAlternative(ups, locs[0].backend, name) else ups;
    assert locs == [locs[0]] + locs[1..];
    forall n | n in ups ensures ups'[n] == With(ups[n], name, TakesFor(ups, locs, t, n)) {
      assert TakesFor(ups1, locs[1..], t, n) <==> TakesFor(ups, locs[1..], t, n) by {
        assert forall l: Location :: Takes(ups1, l, t) <==> Takes(ups, l, t);
      }
      assert TakesFor(ups, locs, t, n) <==>
             (locs[0].backend == n && Takes(ups, locs[0], t)) || TakesFor(ups, locs[1..], t, n);
    }
  }

  lemma SomeTakesCons(ups: Upstreams, ups1: Upstreams, locs: seq<Location>, t: Target, name: string)
    requires locs != [] && locs[0].backend in ups
    requires ups1 == if Takes(ups, locs[0], t) then AddAlternative(ups, locs[0].backend, name) else ups
    ensures SomeTakes(ups, locs, t) <==> Takes(ups, locs[0], t) || SomeTakes(ups1, locs[1..], t)
  {
    assert locs == [locs[0]] + locs[1..];
    assert forall l: Location :: Takes(ups1, l, t) <==> Takes(ups, l, t);
  }

  lemma ScanCons(ups: Upstreams, locs: seq<Location>, alt: Upstream, t: Target, merged: bool)
    requires KeyedByName(ups) && locs != [] && locs[0].backend in ups && locs[0].backend != alt.name
    ensures var takes := Takes(ups, locs[0], t);
            Scan(ups, locs, alt, t, merged) ==
            Scan(if takes then AddAlternative(ups, locs[0].backend, alt.name) else ups, locs[1..], alt, t,
                 merged || takes)
  {
  }

  lemma {:induction false} ScanEffect(ups: Upstreams, locs: seq<Location>, alt: Upstream, t: Target, merged: bool)
    requires KeyedByName(ups) && forall l | l in locs :: l.backend in ups && l.backend != alt.name
    ensures var r := Scan(ups, locs, alt, t, merged);
            && r.Some? && !r.value.altEqualsPri
            && r.value.merged == (merged || SomeTakes(ups, locs, t))
            && After(ups, r.value.ups, locs, t, alt.name)
  {
    if locs != [] {
      assert locs[0] in locs;
      var takes := Takes(ups, locs[0], t);
      var ups1 := if takes then AddAlternative(ups, locs[0].backend, alt.name) else ups;
      ScanCons(ups, locs, alt, t, merged);
      ScanEffect(ups1, locs[1..], alt, t, merged || takes);
      ScanStep(ups, Scan(ups1, locs[1..], alt, t, merged || takes).value.ups, locs, t, alt.name);
      SomeTakesCons(ups, ups1, locs, t, alt.name);
    }
  }

  // ----- One merge -----

  predicate Reaches(servers: Servers, r: MergeRef, ups: Upstreams, key: string) {
    r.host in servers && TakesFor(ups, servers[r.host], r.target, key)
  }

  /** The merge does not delete the upstream: its server does not exist, or some location takes it. */
  predicate Harmless(ups: Upstreams, servers: Servers, r: MergeRef) {
    r.host !in servers || SomeTakes(ups, servers[r.host], r.target)
  }

  lemma MergeEffect(ups: Upstreams, servers: Servers, canaries: set<string>, r: MergeRef)
    requires Integrity(ups, servers, canaries) && r.name in canaries
    ensures Merge(ups, servers, r).Some?
    ensures var u := Merge(ups, servers, r).value;
            && (forall n :: n in u <==> n in ups && (n == r.name ==> Harmless(ups, servers, r)))
            && forall n | n in u :: u[n] == With(ups[n], r.name, r.name in ups && Reaches(servers, r, ups, n))
  {
    if r.name in ups && r.host in servers {
      ScanEffect(ups, servers[r.host], ups[r.name], r.target, false);
    }
  }

  lemma WithShaped(u: Upstream, name: string, takes: bool, canaries: set<string>)
    requires Shaped(u, canaries) && name in canaries
    requires takes ==> u.name != DEF_UPSTREAM && !u.noServer && u.name !in canaries
    ensures Shaped(With(u, name, takes), canaries)
  {
  }

  lemma MergeKeepsIntegrity(ups: Upstreams, servers: Servers, canaries: set<string>, r: MergeRef)
    requires Integrity(ups, servers, canaries) && r.name in canaries
    ensures Merge(ups, servers, r).Some? && Integrity(Merge(ups, servers, r).value, servers, canaries)
  {
    MergeEffect(ups, servers, canaries, r);
    var u := Merge(ups, servers, r).value;
    forall n | n in u ensures Shaped(u[n], canaries) {
      WithShaped(ups[n], r.name, r.name in ups && Reaches(servers, r, ups, n), canaries);
    }
  }

  // ----- All merges -----

  /** The upstream has survived the merges so far: none of those that ask for it was harmful. */
  ghost predicate Alive(ups: Upstreams, servers: Servers, refs: seq<MergeRef>, n: string) {
    n in ups && forall r: MergeRef | r in refs && r.name == n :: Harmless(ups, servers, r)
  }

  /** Some merge reached the upstream `key` while the alternative was still alive. */
  ghost predicate Listed(ups: Upstreams, servers: Servers, refs: seq<MergeRef>, key: string, n: string) {
    exists i | 0 <= i < |refs| ::
      refs[i].name == n && Reaches(servers, refs[i], ups, key) && Alive(ups, servers, refs[..i], n)
  }

  /** Merging changes neither names nor which upstreams have servers, so it changes no later match. */
  lemma MatchesUnchanged(ups: Upstreams, u: Upstreams, servers: Servers, canaries: set<string>, r: MergeRef)
    requires Integrity(ups, servers, canaries) && Integrity(u, servers, canaries)
    ensures Harmless(u, servers, r) <==> Harmless(ups, servers, r)
    ensures forall k :: Reaches(servers, r, u, k) <==> Reaches(servers, r, ups, k)
  {
    if r.host in servers {
      forall l | l in servers[r.host] ensures Takes(u, l, r.target) <==> Takes(ups, l, r.target) {
      }
    }
  }

  ghost predicate Result(ups: Upstreams, servers: Servers, canaries: set<string>, refs: seq<MergeRef>, u: Upstreams) {
    && Integrity(u, servers, canaries)
    && (forall n :: n in u <==> Alive(ups, servers, refs, n))
    && forall k, n | k in u :: n in u[k].alternatives <==> n in ups[k].alternatives || Listed(ups, servers, refs, k, n)
  }

  lemma AliveSnoc(ups: Upstreams, servers: Servers, refs: seq<MergeRef>, r: MergeRef, n: string)
    ensures Alive(ups, servers, refs + [r], n) <==>
            Alive(ups, servers, refs, n) && (r.name == n ==> Harmless(ups, servers, r))
  {
    assert r in refs + [r];
  }

  lemma ListedSnoc(ups: Upstreams, servers: Servers, refs: seq<MergeRef>, r: MergeRef, key: string, n: string)
    ensures Listed(ups, servers, refs + [r], key, n) <==>
            || Listed(ups, servers, refs, key, n)
            || (r.name == n && Reaches(servers, r, ups, key) && Alive(ups, servers, refs, n))
  {
    var all := refs + [r];
    assert forall i | 0 <= i < |refs| :: all[i] == refs[i] && all[..i] == refs[..i];
    assert all[|refs|] == r && all[..|refs|] == refs;
    if r.name == n && Reaches(servers, r, ups, key) && Alive(ups, servers, refs, n) {
      assert all[|refs|].name == n && Reaches(servers, all[|refs|], ups, key) && Alive(ups, servers, all[..|refs|], n);
    }
    if Listed(ups, servers, refs, key, n) {
      var i :| 0 <= i < |refs| && refs[i].name == n && Reaches(servers, refs[i], ups, key)
               && Alive(ups, servers, refs[..i], n);
      assert all[i].name == n && Reaches(servers, all[i], ups, key) && Alive(ups, servers, all[..i], n);
    }
  }

  lemma AliveStep(ups: Upstreams, servers: Servers, canaries: set<string>, refs: seq<MergeRef>, u: Upstreams,
                  r: MergeRef)
    requires Integrity(ups, servers, canaries) && Result(ups, servers, canaries, refs, u) && r.name in canaries
    ensures Merge(u, servers, r).Some?
    ensures forall n :: n in Merge(u, servers, r).value <==> Alive(ups, servers, refs + [r], n)
  {
    MergeEffect(u, servers, canaries, r);
    MatchesUnchanged(ups, u, servers, canaries, r);
    forall n ensures n in Merge(u, servers, r).value <==> Alive(ups, servers, refs + [r], n) {
      AliveSnoc(ups, servers, refs, r, n);
    }
  }

  lemma ListedStep(ups: Upstreams, servers: Servers, canaries: set<string>, refs: seq<MergeRef>, u: Upstreams,
                   r: MergeRef, k: string, n: string)
    requires Integrity(ups, servers, canaries) && Result(ups, servers, canaries, refs, u) && r.name in canaries
    requires Merge(u, servers, r).Some? && k in Merge(u, servers, r).value && k in u
    ensures n in Merge(u, servers, r).value[k].alternatives <==>
            n in ups[k].alternatives || Listed(ups, servers, refs + [r], k, n)
  {
    MergeEffect(u, servers, canaries, r);
    MatchesUnchanged(ups, u, servers, canaries, r);
    ListedSnoc(ups, servers, refs, r, k, n);
    assert r.name in u <==> Alive(ups, servers, refs, r.name);
    assert n in u[k].alternatives <==> n in ups[k].alternatives || Listed(ups, servers, refs, k, n);
  }

  lemma ResultStep(ups: Upstreams, servers: Servers, canaries: set<string>, refs: seq<MergeRef>, u: Upstreams,
                   r: MergeRef)
    requires Integrity(ups, servers, canaries) && Result(ups, servers, canaries, refs, u) && r.name in canaries
    ensures Merge(u, servers, r).Some? && Result(ups, servers, canaries, refs + [r], Merge(u, servers, r).value)
  {
    MergeKeepsIntegrity(u, servers, canaries, r);
    AliveStep(ups, servers, canaries, refs, u, r);
    var u' := Merge(u, servers, r).value;
    forall k, n | k in u'
      ensures n in u'[k].alternatives <==> n in ups[k].alternatives || Listed(ups, servers, refs + [r], k, n)
    {
      MergeEffect(u, servers, canaries, r);
      ListedStep(ups, servers, canaries, refs, u, r, k, n);
    }
  }

  lemma MergeAllSnoc(ups: Upstreams, servers: Servers, refs: seq<MergeRef>, r: MergeRef)
    requires MergeAll(ups, servers, refs).Some?
    ensures MergeAll(ups, servers, refs + [r]) == Merge(MergeAll(ups, servers, refs).value, servers, r)
  {
    assert (refs + [r])[..|refs|] == refs;
  }

  lemma NothingMerged(ups: Upstreams, servers: Servers, canaries: set<string>)
    requires Integrity(ups, servers, canaries)
    ensures Result(ups, servers, canaries, [], ups)
  {
  }

  lemma {:induction false} MergeAllResult(ups: Upstreams, servers: Servers, canaries: set<string>, refs: seq<MergeRef>)
    requires Integrity(ups, servers, canaries) && forall r | r in refs :: r.name in canaries
    ensures MergeAll(ups, servers, refs).Some?
    ensures Result(ups, servers, canaries, refs, MergeAll(ups, servers, refs).value)
  {
    if refs == [] {
      NothingMerged(ups, servers, canaries);
    } else {
      var init, r := refs[..|refs| - 1], refs[|refs| - 1];
      assert refs == init + [r] && r in refs;
      MergeAllResult(ups, servers, canaries, init);
      ResultStep(ups, servers, canaries, init, MergeAll(ups, servers, init).value, r);
      MergeAllSnoc(ups, servers, init, r);
    }
  }

  // ----- Names -----

  lemma {:induction false} ScanKeepsNames(ups: Upstreams, locs: seq<Location>, alt: Upstream, t: Target, merged: bool)
    requires KeyedByName(ups) && Scan(ups, locs, alt, t, merged).Some?
    ensures KeyedByName(Scan(ups, locs, alt, t, merged).value.ups)
  {
    if locs != [] && locs[0].backend in ups && ups[locs[0].backend].name != alt.name {
      var pri := ups[locs[0].backend];
      if CanMerge(pri, alt) && Hit(locs[0], t) {
        ScanKeepsNames(AddAlternative(ups, locs[0].backend, alt.name), locs[1..], alt, t, true);
      } else {
        ScanKeepsNames(ups, locs[1..], alt, t, merged);
      }
    }
  }

  /** Merging, whatever the names, keeps every upstream under its own name. */
  lemma {:induction false} MergeAllKeepsNames(ups: Upstreams, servers: Servers, refs: seq<MergeRef>)
    requires KeyedByName(ups) && MergeAll(ups, servers, refs).Some?
    ensures KeyedByName(MergeAll(ups, servers, refs).value)
  {
    if refs != [] {
      var init, r := refs[..|refs| - 1], refs[|refs| - 1];
      MergeAllKeepsNames(ups, servers, init);
      var u := MergeAll(ups, servers, init).value;
      if r.name in u && r.host in servers {
        ScanKeepsNames(u, servers[r.host], u[r.name], r.target, false);
      }
    }
  }

  // ----- From Ingresses -----

  function CanaryNames(ings: seq<Ingress>): set<string> {
    set r | r in CanaryMerges(ings) :: r.name
  }

  /** No name that a canary merges is the default upstream or is asked for by another Ingress. */
  ghost predicate MergeDisjoint(ings: seq<Ingress>) {
    forall n | n in CanaryNames(ings) :: n != DEF_UPSTREAM && forall u: Use | u in Uses(ings) && u.name == n :: u.canary
  }

  lemma {:induction false} PathNamesMerged(ing: Ingress, owner: nat, rule: Rule, paths: seq<PathRule>)
    ensures forall r: Ref | r in PathRefs(ing, owner, rule, paths) ::
              r.canary == ing.canary && exists m: MergeRef | m in PathMerges(ing, rule, paths) :: m.name == r.name
  {
    if paths != [] {
      var p := paths[|paths| - 1];
      PathNamesMerged(ing, owner, rule, paths[..|paths| - 1]);
      if p.service.Some? {
        assert PathMerge(ing, rule, p) in PathMerges(ing, rule, paths);
      }
      forall r: Ref | r in PathRefs(ing, owner, rule, paths)
        ensures r.canary == ing.canary && exists m: MergeRef | m in PathMerges(ing, rule, paths) :: m.name == r.name
      {
        if r in PathRefs(ing, owner, rule, paths[..|paths| - 1]) {
          var m: MergeRef :| m in PathMerges(ing, rule, paths[..|paths| - 1]) && m.name == r.name;
          assert m in PathMerges(ing, rule, paths);
        }
      }
    }
  }

  lemma {:induction false} RuleNamesMerged(ing: Ingress, owner: nat, rules: seq<Rule>)
    ensures forall r: Ref | r in RuleRefs(ing, owner, rules) ::
              r.canary == ing.canary && exists m: MergeRef | m in RuleMerges(ing, rules) :: m.name == r.name
  {
    if rules != [] {
      var rule := rules[|rules| - 1];
      var init := rules[..|rules| - 1];
      RuleNamesMerged(ing, owner, init);
      if rule.http.Some? {
        PathNamesMerged(ing, owner, rule, rule.http.value);
      }
      forall r: Ref | r in RuleRefs(ing, owner, rules)
        ensures r.canary == ing.canary && exists m: MergeRef | m in RuleMerges(ing, rules) :: m.name == r.name
      {
        if r in RuleRefs(ing, owner, init) {
          var m: MergeRef :| m in RuleMerges(ing, init) && m.name == r.name;
          assert m in RuleMerges(ing, rules);
        } else {
          var m: MergeRef :| m in PathMerges(ing, rule, rule.http.value) && m.name == r.name;
          assert m in RuleMerges(ing, rules);
        }
      }
    }
  }

  /** Every name a canary uses is a name it merges. */
  lemma {:induction false} CanaryUsesMerged(ings: seq<Ingress>)
    ensures forall u: Use | u in Uses(ings) && u.canary :: u.name in CanaryNames(ings)
  {
    if ings != [] {
      var n := |ings| - 1;
      var ing := ings[n];
      CanaryUsesMerged(ings[..n]);
      RuleNamesMerged(ing, n, ing.rules);
      forall u: Use | u in Uses(ings) && u.canary ensures u.name in CanaryNames(ings) {
        if u in Uses(ings[..n]) {
          var r :| r in CanaryMerges(ings[..n]) && r.name == u.name;
          assert r in CanaryMerges(ings);
        } else if u in DefaultUses(ing) {
          assert DefaultMerges(ing)[0] in Merges(ing);
        } else {
          var refs := RuleRefs(ing, n, ing.rules);
          var k :| 0 <= k < |refs| && PathUses(refs)[k] == u;
          assert refs[k] in refs;
          var m: MergeRef :| m in RuleMerges(ing, ing.rules) && m.name == refs[k].name;
          assert m in Merges(ing);
        }
      }
    }
  }

  /** Every location the builder makes points at an upstream that has a server. */
  ghost predicate Sound(s: Servers, ups: Upstreams) {
    forall h, l: Location | h in s && l in s[h] :: l.backend in ups && !ups[l.backend].noServer
  }

  lemma {:induction false} AddHostsSound(s: Servers, ing: Ingress, owner: nat, rules: seq<Rule>, ups: Upstreams)
    requires Sound(s, ups) && DefaultName(ing) in ups && !ups[DefaultName(ing)].noServer
    ensures Sound(AddHosts(s, ing, owner, rules), ups)
  {
    if rules != [] {
      AddHostsSound(s, ing, owner, rules[..|rules| - 1], ups);
    }
  }

  lemma TakeDefaultSound(s: Servers, ing: Ingress, owner: nat, ups: Upstreams)
    requires Sound(s, ups) && DefaultName(ing) in ups && !ups[DefaultName(ing)].noServer
    ensures Sound(TakeDefault(s, ing, owner), ups)
  {
  }

  lemma AddServersSound(s: Servers, ing: Ingress, owner: nat, ups: Upstreams)
    requires Sound(s, ups) && (!ing.canary ==> DefaultName(ing) in ups && !ups[DefaultName(ing)].noServer)
    ensures Sound(AddServers(s, ing, owner), ups)
  {
    if !ing.canary {
      TakeDefaultSound(s, ing, owner, ups);
      AddHostsSound(TakeDefault(s, ing, owner), ing, owner, ing.rules, ups);
    }
  }

  /** The default upstream of an Ingress that is no canary has a server. */
  lemma DefaultNameHasServer(ings: seq<Ingress>, i: nat)
    requires i < |ings| && Disjoint(ings) && !ings[i].canary
    ensures var ups := UpstreamsOf(Uses(ings));
            DefaultName(ings[i]) in ups && !ups[DefaultName(ings[i])].noServer
  {
    DefaultHasServer(Uses(ings));
    if DefaultUses(ings[i]) != [] {
      DefaultIsUsed(ings, i);
      NoServerIffCanary(Uses(ings), DefaultUses(ings[i])[0]);
    }
  }

  lemma InitialStep(ings: seq<Ingress>, i: nat)
    requires i < |ings|
    ensures InitialServers(ings[..i + 1]) == AddServers(InitialServers(ings[..i]), ings[i], i)
  {
    PrefixDropsLast(ings, i);
  }

  lemma NoServersSound(ings: seq<Ingress>)
    requires Disjoint(ings)
    ensures Sound(InitialServers([]), UpstreamsOf(Uses(ings)))
  {
    DefaultHasServer(Uses(ings));
  }

  lemma {:induction false} InitialSound(ings: seq<Ingress>, n: nat)
    requires n <= |ings| && Disjoint(ings)
    ensures Sound(InitialServers(ings[..n]), UpstreamsOf(Uses(ings)))
  {
    if n == 0 {
      NoServersSound(ings);
    } else {
      var ups := UpstreamsOf(Uses(ings));
      InitialSound(ings, n - 1);
      InitialStep(ings, n - 1);
      if !ings[n - 1].canary {
        DefaultNameHasServer(ings, n - 1);
      }
      AddServersSound(InitialServers(ings[..n - 1]), ings[n - 1], n - 1, ups);
    }
  }

  lemma {:induction false} ClaimAllSound(s: Servers, ups: Upstreams, refs: seq<Ref>)
    requires Sound(s, ups)
    ensures Sound(ClaimAll(s, ups, refs), ups)
  {
    if refs != [] {
      ClaimAllSound(s, ups, refs[..|refs| - 1]);
    }
  }

  /** Under name-disjointness what the builder hands over has integrity. */
  lemma BuiltHasIntegrity(ings: seq<Ingress>)
    requires MergeDisjoint(ings)
    ensures Disjoint(ings)
    ensures Integrity(UpstreamsOf(Uses(ings)), BuiltServers(ings), CanaryNames(ings))
    ensures forall n | n in UpstreamsOf(Uses(ings)) :: UpstreamsOf(Uses(ings))[n].alternatives == []
  {
    var uses := Uses(ings);
    var ups := UpstreamsOf(uses);
    CanaryUsesMerged(ings);
    NamesAreKeys(uses);
    DefaultHasServer(uses);
    forall n | n in ups ensures ups[n].noServer <==> n in CanaryNames(ings) {
      if n != DEF_UPSTREAM {
        CreatedIsUsed(uses, n);
        var u: Use :| u in uses && u.name == n;
        NoServerIffCanary(uses, u);
      }
    }
    WholePrefix(ings);
    InitialSound(ings, |ings|);
    ClaimAllSound(InitialServers(ings), ups, Refs(ings));
  }

  /** Canary merge integrity: under name-disjointness no merge dereferences a nil upstream, every location keeps
      its upstream, and the alternatives have their shape; an upstream survives exactly when no merge of its name
      was harmful, and it is listed exactly where a merge of its name arrived while it was alive. */
  lemma CanaryMergeIntegrity(ings: seq<Ingress>)
    requires MergeDisjoint(ings)
    ensures var ups, s, refs := UpstreamsOf(Uses(ings)), BuiltServers(ings), CanaryMerges(ings);
            MergeAll(ups, s, refs).Some? &&
            var u := MergeAll(ups, s, refs).value;
            && Integrity(u, s, CanaryNames(ings))
            && (forall n :: n in u <==> Alive(ups, s, refs, n))
            && forall k, n | k in u :: n in u[k].alternatives <==> Listed(ups, s, refs, k, n)
  {
    BuiltHasIntegrity(ings);
    MergeAllResult(UpstreamsOf(Uses(ings)), BuiltServers(ings), CanaryNames(ings), CanaryMerges(ings));
  }

  /** What integrity means for the graph: alternatives have no alternatives of their own. */
  lemma DepthOne(ups: Upstreams, servers: Servers, canaries: set<string>, k: string, a: string)
    requires Integrity(ups, servers, canaries) && k in ups && a in ups[k].alternatives && a in ups
    ensures ups[a].noServer && ups[a].alternatives == [] && a != k && k != DEF_UPSTREAM && !ups[k].noServer
  {
    assert Shaped(ups[k], canaries) && Shaped(ups[a], canaries);
  }

  // ----- Alternatives that are left dangling -----

  /** Among the merges, `i` is the first to arrive at the upstream `key` for the name `n`, none of that name before it
      was harmful, and the later `j` is. */
  ghost predicate HitThenMiss(ups: Upstreams, servers: Servers, refs: seq<MergeRef>, key: string, n: string,
                              i: nat, j: nat)
  {
    && i < j < |refs| && refs[i].name == n && refs[j].name == n
    && Reaches(servers, refs[i], ups, key) && Alive(ups, servers, refs[..i], n) && !Harmless(ups, servers, refs[j])
  }

  lemma ArrivingIsHarmless(ups: Upstreams, servers: Servers, r: MergeRef, key: string)
    requires Reaches(servers, r, ups, key)
    ensures Harmless(ups, servers, r)
  {
    var l: Location :| l in servers[r.host] && l.backend == key && Takes(ups, l, r.target);
  }

  /** A name is left listed by an upstream although its own upstream is gone exactly when a merge of the name arrived
      there and a later one was harmful. */
  lemma DanglesIff(ups: Upstreams, servers: Servers, canaries: set<string>, refs: seq<MergeRef>, key: string, n: string)
    requires Integrity(ups, servers, canaries) && forall r | r in refs :: r.name in canaries
    requires key in ups && n !in ups[key].alternatives
    ensures MergeAll(ups, servers, refs).Some?
    ensures var u := MergeAll(ups, servers, refs).value;
            (key in u && n in u[key].alternatives && n !in u) <==>
            exists i: nat, j: nat :: HitThenMiss(ups, servers, refs, key, n, i, j)
  {
    MergeAllResult(ups, servers, canaries, refs);
    var u := MergeAll(ups, servers, refs).value;
    if key in u && n in u[key].alternatives && n !in u {
      ListedThenHarmed(ups, servers, refs, key, n);
    }
    if i: nat, j: nat :| HitThenMiss(ups, servers, refs, key, n, i, j) {
      assert refs[j] in refs;
      assert Listed(ups, servers, refs, key, n);
      PrimaryLives(ups, servers, canaries, refs, refs[i], key);
    }
  }

  lemma ListedThenHarmed(ups: Upstreams, servers: Servers, refs: seq<MergeRef>, key: string, n: string)
    requires Listed(ups, servers, refs, key, n) && !Alive(ups, servers, refs, n)
    ensures exists i: nat, j: nat :: HitThenMiss(ups, servers, refs, key, n, i, j)
  {
    var i :| 0 <= i < |refs| && refs[i].name == n && Reaches(servers, refs[i], ups, key)
             && Alive(ups, servers, refs[..i], n);
    var r: MergeRef :| r in refs && r.name == n && !Harmless(ups, servers, r);
    var j :| 0 <= j < |refs| && refs[j] == r;
    ArrivingIsHarmless(ups, servers, refs[i], key);
    HarmIsLater(ups, servers, refs, n, i, j);
    assert HitThenMiss(ups, servers, refs, key, n, i, j);
  }

  lemma HarmIsLater(ups: Upstreams, servers: Servers, refs: seq<MergeRef>, n: string, i: nat, j: nat)
    requires i < |refs| && j < |refs| && Alive(ups, servers, refs[..i], n) && Harmless(ups, servers, refs[i])
    requires refs[j].name == n && !Harmless(ups, servers, refs[j])
    ensures i < j
  {
    assert forall k | 0 <= k < i :: refs[k] in refs[..i];
  }

  /** What a merge arrives at is no canary's, so no merge deletes it. */
  lemma PrimaryLives(ups: Upstreams, servers: Servers, canaries: set<string>, refs: seq<MergeRef>, r: MergeRef,
                     key: string)
    requires Integrity(ups, servers, canaries) && forall r | r in refs :: r.name in canaries
    requires key in ups && Reaches(servers, r, ups, key)
    ensures Alive(ups, servers, refs, key)
  {
    var l: Location :| l in servers[r.host] && l.backend == key && Takes(ups, l, r.target);
    assert key !in canaries;
  }

  /** The shortest case: two merges of one name, of which the first arrives and the second is harmful. */
  lemma HitThenMissDangles(ups: Upstreams, servers: Servers, canaries: set<string>, hit: MergeRef, miss: MergeRef,
                           key: string)
    requires Integrity(ups, servers, canaries) && hit.name == miss.name && hit.name in canaries && hit.name in ups
    requires Reaches(servers, hit, ups, key) && !Harmless(ups, servers, miss)
    ensures MergeAll(ups, servers, [hit, miss]).Some? &&
            var u := MergeAll(ups, servers, [hit, miss]).value;
            key in u && hit.name in u[key].alternatives && hit.name !in u
  {
    var refs := [hit, miss];
    MergeAllResult(ups, servers, canaries, refs);
    assert refs[0] == hit && Alive(ups, servers, refs[..0], hit.name);
    assert Listed(ups, servers, refs, key, hit.name);
    assert miss in refs;
    assert forall r: MergeRef | r in refs :: r.name == hit.name;
    PrimaryLives(ups, servers, canaries, refs, hit, key);
  }

  /** A dangling alternative after the whole builder: exactly when the merges of the canaries, on what the builder made
      of the Ingresses, contain a hit and a later miss. */
  lemma BuiltDanglesIff(ings: seq<Ingress>, key: string, n: string)
    requires MergeDisjoint(ings) && key in UpstreamsOf(Uses(ings))
    ensures MergeAll(UpstreamsOf(Uses(ings)), BuiltServers(ings), CanaryMerges(ings)).Some?
    ensures var ups, s, refs := UpstreamsOf(Uses(ings)), BuiltServers(ings), CanaryMerges(ings);
            var u := MergeAll(ups, s, refs).value;
            (key in u && n in u[key].alternatives && n !in u) <==>
            exists i: nat, j: nat :: HitThenMiss(ups, s, refs, key, n, i, j)
  {
    BuiltHasIntegrity(ings);
    DanglesIff(UpstreamsOf(Uses(ings)), BuiltServers(ings), CanaryNames(ings), CanaryMerges(ings), key, n);
  }
}
