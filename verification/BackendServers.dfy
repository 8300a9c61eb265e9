/** The steps of the builder put together. */
module BackendServers {
  import opened Basics
  import opened Paths
  import opened ServerBuilder
  import opened FirstClaim
  import opened CanaryMerge
  import opened CanaryMergeProperties
  import opened CanaryMergeFailures
  import opened Ordering

  /** Some merge walks into a location whose upstream an earlier merge deleted. */
  ghost predicate SomeMergeTrips(ings: seq<Ingress>) {
    exists j: nat :: Trips(UpstreamsOf(Uses(ings)), BuiltServers(ings), CanaryMerges(ings), j)
  }

  /** Sorted upstreams and servers for a list of Ingresses.  `ok` is false where the program dereferences nil. */
  method GetBackendServers(ings: seq<Ingress>) returns (ok: bool, aUpstreams: seq<Upstream>, aServers: seq<Entry>)
    ensures ok <==>
            || (forall ing | ing in ings :: ing.canary)
            || ((forall ing, rule | ing in ings && ing.canary && rule in ing.rules :: rule.http.Some?)
                && !SomeMergeTrips(ings))
    ensures (forall ing | ing in ings :: ing.canary) ==>
              forall u :: u in aUpstreams <==>
                u.name in UpstreamsOf(Uses(ings)) && UpstreamsOf(Uses(ings))[u.name] == u
    ensures MergeDisjoint(ings) ==> (ok <==> !NonCanaryExists(ings) || CanariesHaveHttp(ings))
    ensures ok ==> AscendingNames(aUpstreams) && Ascending(aServers)
    ensures ok ==> forall u :: u in aUpstreams <==> u.name in Merged(ings) && Merged(ings)[u.name] == u
    ensures MergeDisjoint(ings) && ok ==> Integrity(Merged(ings), BuiltServers(ings), CanaryNames(ings))
    ensures ok ==> forall e :: e in aServers <==>
                     e.hostname in BuiltServers(ings) && e.locations == SortedLocations(BuiltServers(ings)[e.hostname])
  {
    var builder := new Builder();
    builder.Build(ings);
    var servers := builder.servers;
    var merger := new Merger(builder.upstreams, servers);
    ok := merger.MergeCanaries(ings);
    BuiltMergeFailsIff(ings);
    CanariesSpelled(ings);
    if MergeDisjoint(ings) {
      BuiltHasIntegrity(ings);
      CanaryMergeIntegrity(ings);
    }
    aUpstreams, aServers := [], [];
    if ok {
      NamesAreKeys(Uses(ings));
      if NonCanaryExists(ings) {
        MergeAllKeepsNames(UpstreamsOf(Uses(ings)), servers, CanaryMerges(ings));
      }
      aUpstreams := ListUpstreams(merger.upstreams);
      aServers := ListServers(servers);
    }
  }

  lemma CanariesSpelled(ings: seq<Ingress>)
    ensures NonCanaryExists(ings) <==> exists ing | ing in ings :: !ing.canary
    ensures CanariesHaveHttp(ings) <==>
            forall ing, rule | ing in ings && ing.canary && rule in ing.rules :: rule.http.Some?
  {
    if ing :| ing in ings && !ing.canary {
      var i :| 0 <= i < |ings| && ings[i] == ing;
    }
  }

  /** The upstreams after the merges; nothing is merged if every Ingress is a canary. */
  function Merged(ings: seq<Ingress>): Upstreams {
    var ups := UpstreamsOf(Uses(ings));
    if !NonCanaryExists(ings) then ups
    else
      match MergeAll(ups, BuiltServers(ings), CanaryMerges(ings))
      case None => ups
      case Some(u) => u
  }

  /** After the builder and the sort every server still has its "/" location of type Prefix. */
  lemma RootSurvivesSorting(ings: seq<Ingress>, host: string)
    requires host in BuiltServers(ings)
    ensures exists l | l in SortedLocations(BuiltServers(ings)[host]) :: HasType(l, ROOT, Prefix)
  {
    RootStays(ings, host);
    var locs := BuiltServers(ings)[host];
    LocationSortIsOne(locs);
    SameElements(SortedLocations(locs), locs);
    assert locs[0] in SortedLocations(locs);
  }
}
