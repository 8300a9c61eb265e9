/** When merging dereferences a nil upstream, for arbitrary names: a location's upstream was deleted by an earlier merge
    of a name that canaries share with other Ingresses. */
module CanaryMergeFailures {
  import opened Basics
  import opened ServerBuilder
  import opened FirstClaim
  import opened CanaryMerge
  import opened CanaryMergeProperties

  // ----- One walk, for arbitrary names -----

  /** The locations that the walk looks at: those before the first one that has the canary's own upstream. */
  function BeforeOwn(locs: seq<Location>, name: string): seq<Location> {
    if locs == [] || locs[0].backend == name then [] else [locs[0]] + BeforeOwn(locs[1..], name)
  }

  predicate Owns(locs: seq<Location>, name: string) {
    exists l | l in locs :: l.backend == name
  }

  /** The same upstreams but for their alternatives. */
  ghost predicate SameServers(u: Upstreams, v: Upstreams) {
    u.Keys == v.Keys && forall n | n in u :: u[n].name == v[n].name == n && u[n].noServer == v[n].noServer
  }

  lemma {:induction false} WalkEffect(u: Upstreams, locs: seq<Location>, alt: Upstream, t: Target, merged: bool)
    requires KeyedByName(u) && alt.name in u
    ensures var r := Scan(u, locs, alt, t, merged);
            && (r == None <==> exists l | l in BeforeOwn(locs, alt.name) :: l.backend !in u)
            && (r.Some? ==>
                  && SameServers(u, r.value.ups) && r.value.altEqualsPri == Owns(locs, alt.name)
                  && r.value.merged == (merged || SomeTakes(u, BeforeOwn(locs, alt.name), t)))
  {
    if locs != [] && locs[0].backend != alt.name {
      WalkCons(locs, alt.name);
      if locs[0].backend in u {
        var takes := Takes(u, locs[0], t);
        var v := if takes then AddAlternative(u, locs[0].backend, alt.name) else u;
        ScanCons(u, locs, alt, t, merged);
        WalkEffect(v, locs[1..], alt, t, merged || takes);
        SomeTakesAfter(u, v, locs[0], BeforeOwn(locs[1..], alt.name), t);
      }
    } else if locs != [] {
      assert locs[0] in locs;
    }
  }

  lemma WalkCons(locs: seq<Location>, name: string)
    requires locs != [] && locs[0].backend != name
    ensures forall l: Location :: l in BeforeOwn(locs, name) <==> l == locs[0] || l in BeforeOwn(locs[1..], name)
    ensures Owns(locs, name) <==> Owns(locs[1..], name)
  {
    assert locs == [locs[0]] + locs[1..];
  }

  lemma SomeTakesAfter(u: Upstreams, v: Upstreams, l: Location, rest: seq<Location>, t: Target)
    requires l.backend in u && SameServers(u, v)
    ensures SomeTakes(u, [l] + rest, t) <==> Takes(u, l, t) || SomeTakes(v, rest, t)
  {
    assert forall m: Location :: Takes(u, m, t) <==> Takes(v, m, t);
    assert ([l] + rest)[0] == l;
    assert forall m: Location :: m in [l] + rest <==> m == l || m in rest;
  }

  // ----- Sequences of merges -----

  /** The merge deletes its upstream: no location of the server has it or takes it. */
  predicate Deletes(ups: Upstreams, servers: Servers, r: MergeRef) {
    r.host in servers && !Owns(servers[r.host], r.name) && !SomeTakes(ups, servers[r.host], r.target)
  }

  ghost predicate Survives(ups: Upstreams, servers: Servers, refs: seq<MergeRef>, n: string) {
    n in ups && forall r: MergeRef | r in refs && r.name == n :: !Deletes(ups, servers, r)
  }

  /** The merge `r`, after `refs`, walks into a location whose upstream has not survived. */
  ghost predicate TripsAfter(ups: Upstreams, servers: Servers, refs: seq<MergeRef>, r: MergeRef) {
    && r.host in servers && Survives(ups, servers, refs, r.name)
    && exists l: Location | l in BeforeOwn(servers[r.host], r.name) :: !Survives(ups, servers, refs, l.backend)
  }

  ghost predicate Trips(ups: Upstreams, servers: Servers, refs: seq<MergeRef>, j: nat) {
    j < |refs| && TripsAfter(ups, servers, refs[..j], refs[j])
  }

  /** The upstreams after some merges: the survivors, unchanged but for their alternatives. */
  ghost predicate Remain(ups: Upstreams, servers: Servers, refs: seq<MergeRef>, u: Upstreams) {
    && (forall n :: n in u <==> Survives(ups, servers, refs, n))
    && forall n | n in u :: u[n].name == n && n in ups && u[n].noServer == ups[n].noServer
  }

  lemma {:induction false} NoOwnSeesAll(locs: seq<Location>, name: string)
    requires !Owns(locs, name)
    ensures BeforeOwn(locs, name) == locs
  {
    if locs != [] {
      assert locs[0] in locs;
      WalkCons(locs, name);
      NoOwnSeesAll(locs[1..], name);
    }
  }

  lemma SurvivesSnoc(ups: Upstreams, servers: Servers, refs: seq<MergeRef>, r: MergeRef, n: string)
    ensures Survives(ups, servers, refs + [r], n) <==>
            Survives(ups, servers, refs, n) && (r.name == n ==> !Deletes(ups, servers, r))
  {
    assert forall q: MergeRef :: q in refs + [r] <==> q in refs || q == r;
  }

  lemma SameTakers(ups: Upstreams, u: Upstreams, locs: seq<Location>, t: Target)
    requires forall l: Location | l in locs :: l.backend in u
    requires forall n | n in u :: n in ups && u[n].noServer == ups[n].noServer
    ensures SomeTakes(u, locs, t) <==> SomeTakes(ups, locs, t)
  {
    assert forall l: Location | l in locs :: Takes(u, l, t) <==> Takes(ups, l, t);
  }

  lemma MergeStep(ups: Upstreams, servers: Servers, refs: seq<MergeRef>, u: Upstreams, r: MergeRef)
    requires Remain(ups, servers, refs, u)
    ensures Merge(u, servers, r) == None <==> TripsAfter(ups, servers, refs, r)
    ensures Merge(u, servers, r).Some? ==> Remain(ups, servers, refs + [r], Merge(u, servers, r).value)
  {
    forall n ensures Survives(ups, servers, refs + [r], n) <==>
                     Survives(ups, servers, refs, n) && (r.name == n ==> !Deletes(ups, servers, r))
    {
      SurvivesSnoc(ups, servers, refs, r, n);
    }
    if r.name in u && r.host in servers {
      var locs := servers[r.host];
      WalkEffect(u, locs, u[r.name], r.target, false);
      if !Owns(locs, r.name) {
        NoOwnSeesAll(locs, r.name);
        if Merge(u, servers, r).Some? {
          SameTakers(ups, u, locs, r.target);
        }
      }
    }
  }

  lemma {:induction false} MergesRemain(ups: Upstreams, servers: Servers, refs: seq<MergeRef>)
    requires KeyedByName(ups)
    ensures MergeAll(ups, servers, refs) == None <==> exists j: nat :: Trips(ups, servers, refs, j)
    ensures MergeAll(ups, servers, refs).Some? ==> Remain(ups, servers, refs, MergeAll(ups, servers, refs).value)
  {
    if refs != [] {
      var init, r := refs[..|refs| - 1], refs[|refs| - 1];
      MergesRemain(ups, servers, init);
      TripsSnoc(ups, servers, init, r);
      assert refs == init + [r];
      if MergeAll(ups, servers, init).Some? {
        MergeStep(ups, servers, init, MergeAll(ups, servers, init).value, r);
      }
    }
  }

  lemma TripsSnoc(ups: Upstreams, servers: Servers, refs: seq<MergeRef>, r: MergeRef)
    ensures (exists j: nat :: Trips(ups, servers, refs + [r], j)) <==>
            (exists j: nat :: Trips(ups, servers, refs, j)) || TripsAfter(ups, servers, refs, r)
  {
    var all := refs + [r];
    assert all[..|refs|] == refs && all[|refs|] == r;
    forall j: nat | j < |refs| ensures Trips(ups, servers, all, j) <==> Trips(ups, servers, refs, j) {
      assert all[..j] == refs[..j];
    }
    if TripsAfter(ups, servers, refs, r) {
      assert Trips(ups, servers, all, |refs|);
    }
    if j: nat :| Trips(ups, servers, all, j) && j < |refs| {
      assert Trips(ups, servers, refs, j);
    }
    if j: nat :| Trips(ups, servers, refs, j) {
      assert Trips(ups, servers, all, j);
    }
  }

  /** Whatever the names: merging the canaries into what was built dereferences a nil upstream exactly when some merge
      walks into a location whose upstream an earlier merge deleted. */
  lemma BuiltMergeFailsIff(ings: seq<Ingress>)
    ensures var ups, s, refs := UpstreamsOf(Uses(ings)), BuiltServers(ings), CanaryMerges(ings);
            MergeAll(ups, s, refs) == None <==> exists j: nat :: Trips(ups, s, refs, j)
  {
    NamesAreKeys(Uses(ings));
    MergesRemain(UpstreamsOf(Uses(ings)), BuiltServers(ings), CanaryMerges(ings));
  }
}
