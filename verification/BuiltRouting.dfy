/** Routing from end to end: which backend a request reaches once the Ingresses have been built into servers, sorted,
    compiled and read by nginx; and when nginx accepts what was built. */
module BuiltRouting {
  import opened Basics
  import opened Paths
  import opened ServerBuilder
  import opened FirstClaim
  import opened Ordering
  import L = Locations
  import R = LocationRouting

  /** A built location as the compiler reads it, when no annotation rewrites it or asks for regular expressions. */
  function AsLoc(l: Location): L.Loc {
    L.Loc(l.path, l.pathType, "", l.backend, "", false)
  }

  /** The locations of a built server, sorted, as they are handed to the compiler. */
  function Handed(ings: seq<Ingress>, host: string): seq<L.Loc>
    requires host in BuiltServers(ings)
  {
    Map(AsLoc, SortedLocations(BuiltServers(ings)[host]))
  }

  // ----- Locations of one path and type -----

  type Key = (string, PathType)

  function KeyOf(l: Location): Key {
    (l.path, l.pathType)
  }

  function KeysOf(locs: seq<Location>): seq<Key> {
    Map(KeyOf, locs)
  }

  /** No path and type has two locations. */
  ghost predicate OnePerKey(locs: seq<Location>) {
    NoDup(KeysOf(locs))
  }

  /** No two Prefix paths are the same up to a final "/". */
  ghost predicate PrefixesApart(locs: seq<Location>) {
    forall l, m | l in locs && m in locs && l.pathType == Prefix && m.pathType == Prefix ::
      L.Normalize(l.path) == L.Normalize(m.path) ==> l.path == m.path
  }

  lemma NoneClash(ls: seq<L.Loc>)
    requires R.NoClash(ls)
    ensures forall i, j | 0 <= i < |ls| && 0 <= j < |ls| && i != j :: !R.Clash(ls[i], ls[j])
  {
    forall i, j | 0 <= i < |ls| && 0 <= j < |ls| && i != j ensures !R.Clash(ls[i], ls[j]) {
      assert R.Clash(ls[i], ls[j]) <==> R.Clash(ls[j], ls[i]);
    }
  }

  lemma NoClashIff(locs: seq<Location>)
    ensures R.NoClash(Map(AsLoc, locs)) <==> OnePerKey(locs) && PrefixesApart(locs)
  {
    var ls := Map(AsLoc, locs);
    if R.NoClash(ls) {
      NoneClash(ls);
      forall i, j | 0 <= i < j < |locs| ensures KeysOf(locs)[i] != KeysOf(locs)[j] {
        assert !R.Clash(ls[i], ls[j]);
      }
      forall l, m | l in locs && m in locs && l.pathType == Prefix && m.pathType == Prefix
                    && L.Normalize(l.path) == L.Normalize(m.path)
        ensures l.path == m.path
      {
        var i :| 0 <= i < |locs| && locs[i] == l;
        var j :| 0 <= j < |locs| && locs[j] == m;
      }
    }
    if OnePerKey(locs) && PrefixesApart(locs) {
      forall i, j | 0 <= i < j < |ls| ensures !R.Clash(ls[i], ls[j]) {
        assert KeysOf(locs)[i] != KeysOf(locs)[j];
        assert locs[i] in locs && locs[j] in locs;
      }
    }
  }

  /** Sorting changes none of this. */
  lemma NoClashPermuted(s: seq<Location>, t: seq<Location>)
    requires multiset(s) == multiset(t)
    ensures R.NoClash(Map(AsLoc, s)) <==> R.NoClash(Map(AsLoc, t))
  {
    NoClashIff(s);
    NoClashIff(t);
    SameElements(s, t);
    MapPermuted(KeyOf, s, t);
    if OnePerKey(s) {
      PermutationNoDup(KeysOf(s), KeysOf(t));
    }
    if OnePerKey(t) {
      PermutationNoDup(KeysOf(t), KeysOf(s));
    }
  }

  // ----- Which claims lead to two locations of one path and type -----

  /** The claim adds to the server or takes over one of its locations. */
  predicate ClaimsAt(s: Servers, ups: Upstreams, r: Ref, host: string) {
    Effective(ups, r) && ServerFor(s, r.host) == host
  }

  /** The type of the first location with the path: the root starts as a Prefix, any other path as it is first
      claimed. */
  function FirstType(s: Servers, ups: Upstreams, refs: seq<Ref>, host: string, path: string): Option<PathType> {
    if path == ROOT then Some(Prefix)
    else if refs == [] then None
    else
      var t := FirstType(s, ups, refs[..|refs| - 1], host, path);
      var r := refs[|refs| - 1];
      if t.Some? then t else if ClaimsAt(s, ups, r, host) && r.path == path then Some(r.pathType) else None
  }

  /** Two claims for one path and type where the path is first of another type: the second is not noticed. */
  ghost predicate Repeats(s: Servers, ups: Upstreams, refs: seq<Ref>, host: string, i: nat, j: nat) {
    && i < j < |refs| && ClaimsAt(s, ups, refs[i], host) && ClaimsAt(s, ups, refs[j], host)
    && refs[i].path == refs[j].path && refs[i].pathType == refs[j].pathType
    && FirstType(s, ups, refs, host, refs[i].path) != Some(refs[i].pathType)
  }

  ghost predicate NoRepeats(s: Servers, ups: Upstreams, refs: seq<Ref>, host: string) {
    forall i: nat, j: nat :: !Repeats(s, ups, refs, host, i, j)
  }

  /** The path and type have a location: they are the root's, or somebody claims them. */
  ghost predicate Wanted(s: Servers, ups: Upstreams, refs: seq<Ref>, host: string, path: string, pathType: PathType) {
    || (path == ROOT && pathType == Prefix)
    || exists r | r in refs :: ClaimsAt(s, ups, r, host) && r.path == path && r.pathType == pathType
  }

  function TypeAt(locs: seq<Location>, path: string): Option<PathType> {
    var k := FirstAt(locs, path);
    if k < |locs| then Some(locs[k].pathType) else None
  }

  ghost predicate TypesFollow(s: Servers, ups: Upstreams, refs: seq<Ref>, host: string, locs: seq<Location>) {
    forall path :: FirstType(s, ups, refs, host, path) == TypeAt(locs, path)
  }

  /** The state of a server's locations after the claims: keys present, first types, and repetitions. */
  ghost predicate Follows(s: Servers, ups: Upstreams, refs: seq<Ref>, host: string, locs: seq<Location>) {
    && (forall path, pathType :: (path, pathType) in KeysOf(locs) <==> Wanted(s, ups, refs, host, path, pathType))
    && TypesFollow(s, ups, refs, host, locs)
    && (OnePerKey(locs) <==> NoRepeats(s, ups, refs, host))
  }

  lemma StartFollows(s: Servers, ups: Upstreams, host: string)
    requires Started(s) && host in s
    ensures Follows(s, ups, [], host, s[host])
  {
    var locs := s[host];
    assert locs == [locs[0]];
    assert KeysOf(locs) == [(ROOT, Prefix)];
    forall path ensures FirstType(s, ups, [], host, path) == TypeAt(locs, path) {
      FirstAtIs(locs, path, if path == ROOT then 0 else 1);
    }
  }

  lemma SkipFollows(s: Servers, ups: Upstreams, refs: seq<Ref>, r: Ref, host: string, locs: seq<Location>)
    requires Follows(s, ups, refs, host, locs) && !ClaimsAt(s, ups, r, host)
    ensures Follows(s, ups, refs + [r], host, locs)
  {
    var all := refs + [r];
    SnocMembers(refs, r);
    assert forall path, pathType ::
      Wanted(s, ups, all, host, path, pathType) <==> Wanted(s, ups, refs, host, path, pathType);
    forall path ensures FirstType(s, ups, all, host, path) == FirstType(s, ups, refs, host, path) {
      assert all[..|refs|] == refs;
    }
    forall i: nat, j: nat ensures Repeats(s, ups, all, host, i, j) <==> Repeats(s, ups, refs, host, i, j) {
      assert j == |refs| ==> all[j] == r;
      assert j < |refs| ==> all[j] == refs[j];
    }
  }

  lemma SnocMembers<T>(s: seq<T>, x: T)
    ensures forall y :: y in s + [x] <==> y in s || y == x
  {
    assert (s + [x])[|s|] == x;
    forall y | y in s ensures y in s + [x] {
      var k :| 0 <= k < |s| && s[k] == y;
      assert (s + [x])[k] == y;
    }
  }

  /** An earlier claim has the path and type of `r`. */
  ghost predicate ClaimedBefore(s: Servers, ups: Upstreams, refs: seq<Ref>, r: Ref, host: string) {
    exists q | q in refs :: ClaimsAt(s, ups, q, host) && q.path == r.path && q.pathType == r.pathType
  }

  lemma FirstTypeSnoc(s: Servers, ups: Upstreams, refs: seq<Ref>, r: Ref, host: string, path: string)
    requires ClaimsAt(s, ups, r, host)
    ensures FirstType(s, ups, refs + [r], host, path) ==
            if FirstType(s, ups, refs, host, path).Some? then FirstType(s, ups, refs, host, path)
            else if r.path == path then Some(r.pathType) else None
  {
    assert (refs + [r])[..|refs|] == refs;
  }

  lemma {:induction false} ClaimedHasFirstType(s: Servers, ups: Upstreams, refs: seq<Ref>, q: Ref, host: string)
    requires q in refs && ClaimsAt(s, ups, q, host)
    ensures FirstType(s, ups, refs, host, q.path).Some?
  {
    if q in refs[..|refs| - 1] {
      ClaimedHasFirstType(s, ups, refs[..|refs| - 1], q, host);
    }
  }

  lemma RepeatsSnoc(s: Servers, ups: Upstreams, refs: seq<Ref>, r: Ref, host: string)
    requires ClaimsAt(s, ups, r, host)
    ensures NoRepeats(s, ups, refs + [r], host) <==>
            NoRepeats(s, ups, refs, host)
            && !(ClaimedBefore(s, ups, refs, r, host) && FirstType(s, ups, refs, host, r.path) != Some(r.pathType))
  {
    var all := refs + [r];
    forall i: nat, j: nat | j < |refs| ensures Repeats(s, ups, all, host, i, j) <==> Repeats(s, ups, refs, host, i, j) {
      if i < j && ClaimsAt(s, ups, refs[i], host) {
        ClaimedHasFirstType(s, ups, refs, refs[i], host);
        FirstTypeSnoc(s, ups, refs, r, host, refs[i].path);
      }
    }
    forall i: nat | i < |refs| && ClaimsAt(s, ups, refs[i], host) && refs[i].path == r.path
      ensures FirstType(s, ups, all, host, r.path) == FirstType(s, ups, refs, host, r.path)
    {
      ClaimedHasFirstType(s, ups, refs, refs[i], host);
      FirstTypeSnoc(s, ups, refs, r, host, r.path);
    }
    if ClaimedBefore(s, ups, refs, r, host) && FirstType(s, ups, refs, host, r.path) != Some(r.pathType) {
      var q :| q in refs && ClaimsAt(s, ups, q, host) && q.path == r.path && q.pathType == r.pathType;
      var i :| 0 <= i < |refs| && refs[i] == q;
      assert Repeats(s, ups, all, host, i, |refs|);
    }
    if i: nat, j: nat :| Repeats(s, ups, all, host, i, j) && j == |refs| {
      assert refs[i] in refs;
    }
  }

  lemma KeysSnoc(locs: seq<Location>, l: Location)
    ensures KeysOf(locs + [l]) == KeysOf(locs) + [KeyOf(l)]
    ensures OnePerKey(locs + [l]) <==> OnePerKey(locs) && KeyOf(l) !in KeysOf(locs)
  {
    var ks, k := KeysOf(locs), KeyOf(l);
    assert KeysOf(locs + [l]) == ks + [k];
    if NoDup(ks + [k]) {
      forall i, j | 0 <= i < j < |ks| ensures ks[i] != ks[j] {
        assert (ks + [k])[i] != (ks + [k])[j];
      }
      forall i | 0 <= i < |ks| ensures ks[i] != k {
        assert (ks + [k])[i] != (ks + [k])[|ks|];
      }
    }
  }

  lemma {:induction false} FirstAtSnoc(locs: seq<Location>, l: Location, path: string)
    ensures FirstAt(locs + [l], path) ==
            if FirstAt(locs, path) < |locs| then FirstAt(locs, path) else if l.path == path then |locs| else |locs| + 1
  {
    var k := FirstAt(locs, path);
    FirstAtIs(locs + [l], path, if k < |locs| then k else if l.path == path then |locs| else |locs| + 1);
  }

  lemma WantedSnoc(s: Servers, ups: Upstreams, refs: seq<Ref>, r: Ref, host: string, path: string, pathType: PathType)
    requires ClaimsAt(s, ups, r, host)
    ensures Wanted(s, ups, refs + [r], host, path, pathType) <==>
            Wanted(s, ups, refs, host, path, pathType) || (r.path == path && r.pathType == pathType)
  {
    SnocMembers(refs, r);
    assert r in refs + [r];
  }

  /** A claim that adds a location. */
  lemma AddFollows(s: Servers, ups: Upstreams, refs: seq<Ref>, r: Ref, host: string, locs: seq<Location>, l: Location)
    requires Follows(s, ups, refs, host, locs) && ClaimsAt(s, ups, r, host)
    requires l.path == r.path && l.pathType == r.pathType
    requires var k := FirstAt(locs, r.path); k == |locs| || locs[k].pathType != r.pathType
    ensures Follows(s, ups, refs + [r], host, locs + [l])
  {
    SnocMembers(KeysOf(locs), KeyOf(l));
    KeysSnoc(locs, l);
    forall path, pathType
      ensures Wanted(s, ups, refs + [r], host, path, pathType) <==>
              Wanted(s, ups, refs, host, path, pathType) || (path, pathType) == KeyOf(l)
    {
      WantedSnoc(s, ups, refs, r, host, path, pathType);
    }
    AddTypes(s, ups, refs, r, host, locs, l);
    AddRepeats(s, ups, refs, r, host, locs);
  }

  /** The added location repeats a path and type exactly when the claim repeats one unnoticed. */
  lemma AddRepeats(s: Servers, ups: Upstreams, refs: seq<Ref>, r: Ref, host: string, locs: seq<Location>)
    requires TypesFollow(s, ups, refs, host, locs) && ClaimsAt(s, ups, r, host)
    requires TypeAt(locs, r.path) != Some(r.pathType)
    requires (r.path, r.pathType) in KeysOf(locs) <==> Wanted(s, ups, refs, host, r.path, r.pathType)
    ensures NoRepeats(s, ups, refs + [r], host) <==>
            NoRepeats(s, ups, refs, host) && (r.path, r.pathType) !in KeysOf(locs)
  {
    RepeatsSnoc(s, ups, refs, r, host);
    assert FirstType(s, ups, refs, host, r.path) == TypeAt(locs, r.path);
    assert Wanted(s, ups, refs, host, r.path, r.pathType) <==> ClaimedBefore(s, ups, refs, r, host);
  }

  lemma AddTypes(s: Servers, ups: Upstreams, refs: seq<Ref>, r: Ref, host: string, locs: seq<Location>, l: Location)
    requires TypesFollow(s, ups, refs, host, locs) && ClaimsAt(s, ups, r, host) && KeyOf(l) == (r.path, r.pathType)
    ensures TypesFollow(s, ups, refs + [r], host, locs + [l])
  {
    forall path ensures FirstType(s, ups, refs + [r], host, path) == TypeAt(locs + [l], path) {
      FirstTypeSnoc(s, ups, refs, r, host, path);
      FirstAtSnoc(locs, l, path);
    }
  }

  /** A claim for the type that its path first has: nothing is added. */
  lemma SameTypeFollows(s: Servers, ups: Upstreams, refs: seq<Ref>, r: Ref, host: string, locs: seq<Location>,
                        locs': seq<Location>)
    requires Follows(s, ups, refs, host, locs) && ClaimsAt(s, ups, r, host)
    requires var k := FirstAt(locs, r.path); k < |locs| && locs[k].pathType == r.pathType
    requires |locs'| == |locs| && forall i | 0 <= i < |locs| :: KeyOf(locs'[i]) == KeyOf(locs[i])
    ensures Follows(s, ups, refs + [r], host, locs')
  {
    RepeatsSnoc(s, ups, refs, r, host);
    assert KeysOf(locs') == KeysOf(locs);
    assert KeysOf(locs)[FirstAt(locs, r.path)] == (r.path, r.pathType);
    forall path, pathType
      ensures Wanted(s, ups, refs + [r], host, path, pathType) <==> Wanted(s, ups, refs, host, path, pathType)
    {
      WantedSnoc(s, ups, refs, r, host, path, pathType);
    }
    forall path ensures FirstType(s, ups, refs + [r], host, path) == TypeAt(locs', path) {
      FirstTypeSnoc(s, ups, refs, r, host, path);
      SameTypeAt(locs, locs', path);
    }
  }

  lemma SameTypeAt(locs: seq<Location>, locs': seq<Location>, path: string)
    requires |locs'| == |locs| && forall i | 0 <= i < |locs| :: KeyOf(locs'[i]) == KeyOf(locs[i])
    ensures TypeAt(locs', path) == TypeAt(locs, path)
  {
    var k := FirstAt(locs, path);
    assert forall i | 0 <= i < |locs| :: KeyOf(locs'[i]).0 == KeyOf(locs[i]).0;
    FirstAtIs(locs', path, k);
    assert k < |locs| ==> KeyOf(locs'[k]).1 == KeyOf(locs[k]).1;
  }

  lemma ClaimFollows(s: Servers, ups: Upstreams, refs: seq<Ref>, r: Ref, host: string, locs: seq<Location>)
    requires Follows(s, ups, refs, host, locs) && ClaimsAt(s, ups, r, host)
    ensures Follows(s, ups, refs + [r], host, ClaimInto(locs, r.path, r.pathType, r.name, r.owner))
  {
    var k := FirstAt(locs, r.path);
    if k == |locs| || locs[k].pathType != r.pathType {
      AddFollows(s, ups, refs, r, host, locs, Location(r.path, r.pathType, false, r.name, Some(r.owner)));
    } else {
      SameTypeFollows(s, ups, refs, r, host, locs, ClaimInto(locs, r.path, r.pathType, r.name, r.owner));
    }
  }

  lemma {:induction false} BuiltFollows(s: Servers, ups: Upstreams, refs: seq<Ref>, host: string)
    requires Started(s) && host in s
    ensures host in ClaimAll(s, ups, refs) && Follows(s, ups, refs, host, ClaimAll(s, ups, refs)[host])
  {
    if refs == [] {
      StartFollows(s, ups, host);
    } else {
      var init, r := refs[..|refs| - 1], refs[|refs| - 1];
      BuiltFollows(s, ups, init, host);
      ClaimKeepsHosts(s, ups, init);
      assert refs == init + [r];
      StepFollows(s, ups, init, r, host, ClaimAll(s, ups, init));
    }
  }

  lemma StepFollows(s: Servers, ups: Upstreams, refs: seq<Ref>, r: Ref, host: string, cur: Servers)
    requires host in s && cur.Keys == s.Keys && Follows(s, ups, refs, host, cur[host])
    ensures host in Claim(cur, ups, r) && Follows(s, ups, refs + [r], host, Claim(cur, ups, r)[host])
  {
    if ClaimsAt(s, ups, r, host) {
      ClaimFollows(s, ups, refs, r, host, cur[host]);
    } else {
      SkipFollows(s, ups, refs, r, host, cur[host]);
    }
  }

  // ----- When nginx accepts what was built -----

  /** What the claims must keep to: none is repeated unnoticed, and no two Prefix claims (the root's included) are for
      the same path up to a final "/". */
  ghost predicate ClaimsApart(ings: seq<Ingress>, host: string) {
    var s, ups, refs := InitialServers(ings), UpstreamsOf(Uses(ings)), Refs(ings);
    && NoRepeats(s, ups, refs, host)
    && forall p, q | Wanted(s, ups, refs, host, p, Prefix) && Wanted(s, ups, refs, host, q, Prefix) ::
         L.Normalize(p) == L.Normalize(q) ==> p == q
  }

  lemma LocationHasKey(locs: seq<Location>, l: Location)
    requires l in locs
    ensures KeyOf(l) in KeysOf(locs)
  {
    var k :| 0 <= k < |locs| && locs[k] == l;
    assert KeysOf(locs)[k] == KeyOf(l);
  }

  lemma KeyHasLocation(locs: seq<Location>, key: Key) returns (l: Location)
    requires key in KeysOf(locs)
    ensures l in locs && KeyOf(l) == key
  {
    var k :| 0 <= k < |locs| && KeysOf(locs)[k] == key;
    l := locs[k];
  }

  lemma PrefixesApartIff(s: Servers, ups: Upstreams, refs: seq<Ref>, host: string, locs: seq<Location>)
    requires Follows(s, ups, refs, host, locs)
    ensures PrefixesApart(locs) <==>
            forall p, q | Wanted(s, ups, refs, host, p, Prefix) && Wanted(s, ups, refs, host, q, Prefix) ::
              L.Normalize(p) == L.Normalize(q) ==> p == q
  {
    if PrefixesApart(locs) {
      forall p, q | Wanted(s, ups, refs, host, p, Prefix) && Wanted(s, ups, refs, host, q, Prefix)
                    && L.Normalize(p) == L.Normalize(q)
        ensures p == q
      {
        var l := KeyHasLocation(locs, (p, Prefix));
        var m := KeyHasLocation(locs, (q, Prefix));
      }
    }
    forall l | l in locs ensures Wanted(s, ups, refs, host, l.path, l.pathType) {
      LocationHasKey(locs, l);
    }
  }

  /** The built server hands the compiler no clash, and its compiled form has no duplicate nginx location, exactly when
      the claims keep apart. */
  lemma BuiltAcceptedIff(ings: seq<Ingress>, host: string)
    requires host in BuiltServers(ings)
    ensures R.NoClash(Handed(ings, host)) <==> ClaimsApart(ings, host)
    ensures R.NoDuplicateLocation(L.Compile(Handed(ings, host))) <==> ClaimsApart(ings, host)
  {
    var s, ups, refs := InitialServers(ings), UpstreamsOf(Uses(ings)), Refs(ings);
    var locs := BuiltServers(ings)[host];
    InitialIsStarted(ings);
    ClaimKeepsHosts(s, ups, refs);
    BuiltFollows(s, ups, refs, host);
    PrefixesApartIff(s, ups, refs, host, locs);
    NoClashIff(locs);
    LocationSortIsOne(locs);
    NoClashPermuted(locs, SortedLocations(locs));
    HandedIsPlain(ings, host);
    R.AcceptedIffNoClash(Handed(ings, host));
  }

  // ----- The locations that are not the Ingresses' -----

  /** No upstream has this name: the fixed locations answer by themselves. */
  const NO_BACKEND := ""

  /** The catch-all server is rendered with two locations more, for health checks and for the status page. */
  function Fixed(host: string, healthPath: string): seq<L.Loc> {
    if host != DEF_SERVER then []
    else
      [L.Loc(healthPath, Prefix, "", NO_BACKEND, "", false), L.Loc("/nginx_status", Prefix, "", NO_BACKEND, "", false)]
  }

  /** The locations of a server as nginx reads them. */
  function Rendered(ings: seq<Ingress>, host: string, healthPath: string): seq<L.Loc>
    requires host in BuiltServers(ings)
  {
    L.Compile(Handed(ings, host)) + Fixed(host, healthPath)
  }

  /** The health check's path is neither the status page's nor that of a Prefix claim. */
  ghost predicate HealthApart(ings: seq<Ingress>, host: string, healthPath: string) {
    host == DEF_SERVER ==>
      && healthPath != "/nginx_status"
      && forall p | Wanted(InitialServers(ings), UpstreamsOf(Uses(ings)), Refs(ings), host, p, Prefix) ::
           L.Normalize(p) != healthPath
  }

  lemma NormalIsNoStatus(p: string)
    ensures L.Normalize(p) != "/nginx_status"
  {
    var r := L.Normalize(p);
    assert r[|r| - 1] == '/';
    assert "/nginx_status"[12] == 's';
  }

  /** The Prefix locations of the compiled server have the normalised paths of the Prefix claims. */
  lemma CompiledPrefixes(ings: seq<Ingress>, host: string, path: string)
    requires host in BuiltServers(ings)
    ensures (exists m :: m in L.Compile(Handed(ings, host)) && m.pathType == Prefix && m.path == path) <==>
            exists p :: Wanted(InitialServers(ings), UpstreamsOf(Uses(ings)), Refs(ings), host, p, Prefix)
                        && L.Normalize(p) == path
  {
    var s, ups, refs := InitialServers(ings), UpstreamsOf(Uses(ings)), Refs(ings);
    var ls, locs := Handed(ings, host), BuiltServers(ings)[host];
    InitialIsStarted(ings);
    ClaimKeepsHosts(s, ups, refs);
    BuiltFollows(s, ups, refs, host);
    HandedIsPlain(ings, host);
    if m :| m in L.Compile(ls) && m.pathType == Prefix && m.path == path {
      var l := R.PrefixOutput(ls, m);
      HandedMembers(ings, host, l);
      var b :| b in locs && l == AsLoc(b);
      LocationHasKey(locs, b);
      assert Wanted(s, ups, refs, host, l.path, Prefix);
    }
    if p :| Wanted(s, ups, refs, host, p, Prefix) && L.Normalize(p) == path {
      var b := KeyHasLocation(locs, (p, Prefix));
      HandedMembers(ings, host, AsLoc(b));
      R.CompileOnePlain(AsLoc(b), L.ExactPaths(ls));
      R.Compiles(ls, AsLoc(b), R.AsPrefix(AsLoc(b)));
    }
  }

  /** nginx accepts the rendered server, which has no duplicate location, exactly when the claims keep apart and the
      health check's path is apart from them. */
  lemma RenderedAcceptedIff(ings: seq<Ingress>, host: string, healthPath: string)
    requires host in BuiltServers(ings)
    ensures R.NoDuplicateLocation(Rendered(ings, host, healthPath)) <==>
            ClaimsApart(ings, host) && HealthApart(ings, host, healthPath)
  {
    var c, f := L.Compile(Handed(ings, host)), Fixed(host, healthPath);
    BuiltAcceptedIff(ings, host);
    R.ConcatNoDuplicate(c, f);
    if host == DEF_SERVER {
      CompiledPrefixes(ings, host, healthPath);
      CompiledPrefixes(ings, host, "/nginx_status");
      forall p ensures L.Normalize(p) != "/nginx_status" {
        NormalIsNoStatus(p);
      }
      FixedMeets(c, healthPath);
    } else {
      assert c + f == c;
    }
  }

  lemma FixedMeets(c: seq<L.Loc>, healthPath: string)
    requires !exists m :: m in c && m.pathType == Prefix && m.path == "/nginx_status"
    ensures R.NoDuplicateLocation(Fixed(DEF_SERVER, healthPath)) <==> healthPath != "/nginx_status"
    ensures (forall l, m | l in c && m in Fixed(DEF_SERVER, healthPath) ::
               !(l.pathType == m.pathType && l.path == m.path)) <==>
            !exists m :: m in c && m.pathType == Prefix && m.path == healthPath
  {
    var f := Fixed(DEF_SERVER, healthPath);
    assert f[0] in f && f[1] in f;
  }

  lemma HandedIsPlain(ings: seq<Ingress>, host: string)
    requires host in BuiltServers(ings)
    ensures R.Plain(Handed(ings, host))
  {
    forall l | l in Handed(ings, host) ensures R.PlainRule(l) {
      var i :| 0 <= i < |Handed(ings, host)| && Handed(ings, host)[i] == l;
      assert l == AsLoc(SortedLocations(BuiltServers(ings)[host])[i]);
    }
  }

  // ----- Which backend a request reaches -----

  /** The backend of the claims for a path and type on a host: that of the first claimant; for the root that of the
      default until it is claimed, or for good when it is closed. */
  function Claimed(ings: seq<Ingress>, host: string, path: string, pathType: PathType): Option<string>
    requires host in InitialServers(ings) && InitialServers(ings)[host] != []
  {
    var start := InitialServers(ings)[host][0];
    var first := FirstClaimant(InitialServers(ings), UpstreamsOf(Uses(ings)), Refs(ings), host, path, pathType);
    if path == ROOT && pathType == Prefix && (!start.isDefBackend || first.None?) then Some(start.backend)
    else if first.Some? then Some(first.value.name)
    else None
  }

  predicate PathMatches(path: string, pathType: PathType, request: string) {
    match pathType
    case Exact => request == path
    case Prefix => request == path || L.Normalize(path) <= request
  }

  /** Among all claimed paths this one answers: an Exact path, or without such the longest matching Prefix. */
  ghost predicate Answers(ings: seq<Ingress>, host: string, request: string, path: string, pathType: PathType)
    requires host in InitialServers(ings) && InitialServers(ings)[host] != []
  {
    && Claimed(ings, host, path, pathType).Some? && PathMatches(path, pathType, request)
    && (pathType == Prefix ==>
          && Claimed(ings, host, request, Exact).None?
          && forall q | Claimed(ings, host, q, Prefix).Some? && PathMatches(q, Prefix, request) :: |q| <= |path|)
  }

  lemma HostStarts(ings: seq<Ingress>, host: string)
    requires host in BuiltServers(ings)
    ensures host in InitialServers(ings) && InitialServers(ings)[host] != []
  {
    InitialIsStarted(ings);
    ClaimKeepsHosts(InitialServers(ings), UpstreamsOf(Uses(ings)), Refs(ings));
  }

  /** The first location of a path and type has the claimed backend, and there is one exactly if there is a claim. */
  lemma FirstHasClaimed(ings: seq<Ingress>, host: string, path: string, pathType: PathType)
    requires host in BuiltServers(ings) && host in InitialServers(ings) && InitialServers(ings)[host] != []
    ensures var locs := BuiltServers(ings)[host];
            var k := FirstTyped(locs, path, pathType);
            Claimed(ings, host, path, pathType) == if k < |locs| then Some(locs[k].backend) else None
  {
    InitialIsStarted(ings);
    FirstClaimantOwns(InitialServers(ings), UpstreamsOf(Uses(ings)), Refs(ings), host, path, pathType);
  }

  /** When no key repeats, the locations handed over are exactly the claims with their backends. */
  lemma HandedIsClaimed(ings: seq<Ingress>, host: string, l: L.Loc)
    requires host in BuiltServers(ings) && ClaimsApart(ings, host)
    requires host in InitialServers(ings) && InitialServers(ings)[host] != []
    ensures l in Handed(ings, host) <==>
            Claimed(ings, host, l.path, l.pathType) == Some(l.backend)
            && l == L.Loc(l.path, l.pathType, "", l.backend, "", false)
  {
    var locs := BuiltServers(ings)[host];
    FirstHasClaimed(ings, host, l.path, l.pathType);
    HandedMembers(ings, host, l);
    BuiltOnePerKey(ings, host);
    LocationOfKey(locs, l);
  }

  lemma LocationOfKey(locs: seq<Location>, l: L.Loc)
    requires OnePerKey(locs)
    ensures var k := FirstTyped(locs, l.path, l.pathType);
            (exists m :: m in locs && l == AsLoc(m)) <==>
            k < |locs| && locs[k].backend == l.backend && l == L.Loc(l.path, l.pathType, "", l.backend, "", false)
  {
    var k := FirstTyped(locs, l.path, l.pathType);
    if m :| m in locs && l == AsLoc(m) {
      OnlyOfKey(locs, m);
    }
    if k < |locs| && locs[k].backend == l.backend && l == L.Loc(l.path, l.pathType, "", l.backend, "", false) {
      assert locs[k] in locs && l == AsLoc(locs[k]);
    }
  }

  lemma HandedMembers(ings: seq<Ingress>, host: string, l: L.Loc)
    requires host in BuiltServers(ings)
    ensures l in Handed(ings, host) <==> exists m :: m in BuiltServers(ings)[host] && l == AsLoc(m)
  {
    var locs := BuiltServers(ings)[host];
    var sorted := SortedLocations(locs);
    LocationSortIsOne(locs);
    SameElements(sorted, locs);
    if l in Handed(ings, host) {
      var i :| 0 <= i < |sorted| && Handed(ings, host)[i] == l;
      assert sorted[i] in locs;
    }
    if m :| m in locs && l == AsLoc(m) {
      assert m in sorted;
      var i :| 0 <= i < |sorted| && sorted[i] == m;
      assert Handed(ings, host)[i] == l;
    }
  }

  lemma BuiltOnePerKey(ings: seq<Ingress>, host: string)
    requires host in BuiltServers(ings) && ClaimsApart(ings, host)
    ensures OnePerKey(BuiltServers(ings)[host])
  {
    var locs := BuiltServers(ings)[host];
    LocationSortIsOne(locs);
    BuiltAcceptedIff(ings, host);
    NoClashPermuted(locs, SortedLocations(locs));
    NoClashIff(locs);
  }

  /** When no key repeats, the first location of a key is the only one. */
  lemma OnlyOfKey(locs: seq<Location>, m: Location)
    requires OnePerKey(locs) && m in locs
    ensures var k := FirstTyped(locs, m.path, m.pathType); k < |locs| && locs[k] == m
  {
    var k := FirstTyped(locs, m.path, m.pathType);
    var j :| 0 <= j < |locs| && locs[j] == m;
    assert KeysOf(locs)[j] == KeysOf(locs)[k];
  }

  /** A fixed location takes the request from the claimed path: the claim is not answered by an exact location, and
      the fixed path is longer. */
  predicate Shadowed(host: string, healthPath: string, path: string, pathType: PathType, request: string) {
    && !(pathType == Exact || (path == request && request != ROOT))
    && exists f | f in Fixed(host, healthPath) :: f.path <= request && |f.path| > |L.Normalize(path)|
  }

  /** What the fixed locations leave of nginx's choice. */
  lemma ChoiceBesideFixed(ls: seq<L.Loc>, fixed: seq<L.Loc>, request: string, m: L.Loc)
    requires forall f | f in fixed :: f.pathType == Prefix && f.backend == NO_BACKEND
    requires m.backend != NO_BACKEND
    ensures R.NginxChoice(ls + fixed, request, m) <==>
            && R.NginxChoice(ls, request, m)
            && (m.pathType == Prefix ==> forall f | f in fixed && f.path <= request :: |f.path| <= |m.path|)
  {
    var all := ls + fixed;
    assert forall q :: q in all <==> q in ls || q in fixed;
    assert R.HasExact(all, request) <==> R.HasExact(ls, request);
  }

  /** The location that stands for a claim answers beside the fixed ones exactly if none of them shadows the claim. */
  lemma StandsBesideFixed(c: seq<L.Loc>, host: string, healthPath: string, request: string, l: L.Loc, m: L.Loc)
    requires R.NginxChoice(c, request, m) && R.StandsFor(m, l, request) && m.backend != NO_BACKEND
    ensures R.NginxChoice(c + Fixed(host, healthPath), request, m) <==>
            !Shadowed(host, healthPath, l.path, l.pathType, request)
  {
    ChoiceBesideFixed(c, Fixed(host, healthPath), request, m);
  }

  /** Routing from end to end.  When the claims on a host keep apart, nginx sends a request for that host to a
      backend if and only if that is the backend of the first claimant of the path that answers the request, and no
      fixed location takes the request from it. */
  lemma RequestReachesFirstClaimant(ings: seq<Ingress>, host: string, healthPath: string, request: string,
                                    backend: string)
    requires host in BuiltServers(ings) && ClaimsApart(ings, host) && backend != NO_BACKEND
    ensures host in InitialServers(ings) && InitialServers(ings)[host] != []
    ensures R.NginxSendsTo(Rendered(ings, host, healthPath), request, backend) <==>
            exists path, pathType ::
              && Answers(ings, host, request, path, pathType) && Claimed(ings, host, path, pathType) == Some(backend)
              && !Shadowed(host, healthPath, path, pathType, request)
  {
    HostStarts(ings, host);
    HandedIsPlain(ings, host);
    BuiltAcceptedIff(ings, host);
    HandedAreClaims(ings, host);
    ChoiceIsAnswer(ings, host, request, Handed(ings, host));
    if R.NginxSendsTo(Rendered(ings, host, healthPath), request, backend) {
      SentToClaimant(ings, host, healthPath, request, backend);
    }
    if path, pathType :| Answers(ings, host, request, path, pathType)
                         && Claimed(ings, host, path, pathType) == Some(backend)
                         && !Shadowed(host, healthPath, path, pathType, request) {
      ClaimantIsSent(ings, host, healthPath, request, backend, path, pathType);
    }
  }

  /** The locations handed over are exactly the claims with their backends. */
  ghost predicate AreClaims(ings: seq<Ingress>, host: string, ls: seq<L.Loc>)
    requires host in InitialServers(ings) && InitialServers(ings)[host] != []
  {
    forall l :: l in ls <==>
      Claimed(ings, host, l.path, l.pathType) == Some(l.backend)
      && l == L.Loc(l.path, l.pathType, "", l.backend, "", false)
  }

  lemma HandedAreClaims(ings: seq<Ingress>, host: string)
    requires host in BuiltServers(ings) && ClaimsApart(ings, host)
    requires host in InitialServers(ings) && InitialServers(ings)[host] != []
    ensures AreClaims(ings, host, Handed(ings, host))
  {
    forall l ensures l in Handed(ings, host) <==>
                     Claimed(ings, host, l.path, l.pathType) == Some(l.backend)
                     && l == L.Loc(l.path, l.pathType, "", l.backend, "", false)
    {
      HandedIsClaimed(ings, host, l);
    }
  }

  lemma SentToClaimant(ings: seq<Ingress>, host: string, healthPath: string, request: string, backend: string)
    requires host in BuiltServers(ings) && host in InitialServers(ings) && InitialServers(ings)[host] != []
    requires var ls := Handed(ings, host);
             && R.Plain(ls) && R.NoClash(ls) && AreClaims(ings, host, ls)
             && forall l | l in ls :: R.RuleChoice(ls, request, l) <==> Answers(ings, host, request, l.path, l.pathType)
    requires backend != NO_BACKEND && R.NginxSendsTo(Rendered(ings, host, healthPath), request, backend)
    ensures exists path, pathType ::
              && Answers(ings, host, request, path, pathType) && Claimed(ings, host, path, pathType) == Some(backend)
              && !Shadowed(host, healthPath, path, pathType, request)
  {
    var m :| R.NginxChoice(Rendered(ings, host, healthPath), request, m) && m.backend == backend;
    var l := RuleOfSent(Handed(ings, host), host, healthPath, request, m);
    assert Answers(ings, host, request, l.path, l.pathType);
  }

  /** The rule that nginx's choice beside the fixed locations stands for. */
  lemma RuleOfSent(ls: seq<L.Loc>, host: string, healthPath: string, request: string, m: L.Loc) returns (l: L.Loc)
    requires R.Plain(ls) && R.NoClash(ls) && m.backend != NO_BACKEND
    requires R.NginxChoice(L.Compile(ls) + Fixed(host, healthPath), request, m)
    ensures R.RuleChoice(ls, request, l) && l.backend == m.backend
    ensures !Shadowed(host, healthPath, l.path, l.pathType, request)
  {
    ChoiceBesideFixed(L.Compile(ls), Fixed(host, healthPath), request, m);
    l := R.NginxToRules(ls, request, m);
    StandsBesideFixed(L.Compile(ls), host, healthPath, request, l, m);
  }

  lemma ClaimantIsSent(ings: seq<Ingress>, host: string, healthPath: string, request: string, backend: string,
                       path: string, pathType: PathType)
    requires host in BuiltServers(ings) && host in InitialServers(ings) && InitialServers(ings)[host] != []
    requires var ls := Handed(ings, host);
             && R.Plain(ls) && AreClaims(ings, host, ls)
             && forall l | l in ls :: R.RuleChoice(ls, request, l) <==> Answers(ings, host, request, l.path, l.pathType)
    requires Answers(ings, host, request, path, pathType) && Claimed(ings, host, path, pathType) == Some(backend)
    requires backend != NO_BACKEND && !Shadowed(host, healthPath, path, pathType, request)
    ensures R.NginxSendsTo(Rendered(ings, host, healthPath), request, backend)
  {
    var ls := Handed(ings, host);
    var l := L.Loc(path, pathType, "", backend, "", false);
    assert l in ls;
    var m := R.RulesToNginx(ls, request, l);
    StandsBesideFixed(L.Compile(ls), host, healthPath, request, l, m);
  }

  /** A claim that is shadowed loses the request to a fixed location, which sends it to no backend. */
  lemma ShadowedGoesNowhere(ings: seq<Ingress>, host: string, healthPath: string, request: string, path: string,
                            pathType: PathType)
    requires host in BuiltServers(ings) && ClaimsApart(ings, host)
    requires host in InitialServers(ings) && InitialServers(ings)[host] != []
    requires Answers(ings, host, request, path, pathType) && Shadowed(host, healthPath, path, pathType, request)
    ensures R.NginxSendsTo(Rendered(ings, host, healthPath), request, NO_BACKEND)
  {
    HandedIsPlain(ings, host);
    HandedAreClaims(ings, host);
    var l := AnswerIsChoice(ings, host, request, Handed(ings, host), path, pathType);
    ShadowedRule(Handed(ings, host), host, healthPath, request, l);
  }

  /** The location of the claim that answers is the choice of the rules. */
  lemma AnswerIsChoice(ings: seq<Ingress>, host: string, request: string, ls: seq<L.Loc>, path: string,
                       pathType: PathType) returns (l: L.Loc)
    requires host in InitialServers(ings) && InitialServers(ings)[host] != [] && AreClaims(ings, host, ls)
    requires Answers(ings, host, request, path, pathType)
    ensures R.RuleChoice(ls, request, l) && l.path == path && l.pathType == pathType
  {
    ChoiceIsAnswer(ings, host, request, ls);
    l := L.Loc(path, pathType, "", Claimed(ings, host, path, pathType).value, "", false);
    assert l in ls;
  }

  lemma ShadowedRule(ls: seq<L.Loc>, host: string, healthPath: string, request: string, l: L.Loc)
    requires R.Plain(ls) && R.RuleChoice(ls, request, l)
    requires Shadowed(host, healthPath, l.path, l.pathType, request)
    ensures R.NginxSendsTo(L.Compile(ls) + Fixed(host, healthPath), request, NO_BACKEND)
  {
    var m := R.RulesToNginx(ls, request, l);
    FixedIsChosen(L.Compile(ls), host, healthPath, request, l, m);
  }

  lemma FixedIsChosen(c: seq<L.Loc>, host: string, healthPath: string, request: string, l: L.Loc, m: L.Loc)
    requires R.NginxChoice(c, request, m) && R.StandsFor(m, l, request)
    requires Shadowed(host, healthPath, l.path, l.pathType, request)
    ensures R.NginxSendsTo(c + Fixed(host, healthPath), request, NO_BACKEND)
  {
    var f := LongestFixed(host, healthPath, request, |m.path|);
    FixedIsNotExact(c, host, healthPath, request);
    assert R.NginxChoice(c + Fixed(host, healthPath), request, f);
  }

  lemma LongestFixed(host: string, healthPath: string, request: string, n: nat) returns (f: L.Loc)
    requires exists f | f in Fixed(host, healthPath) :: f.path <= request && |f.path| > n
    ensures f in Fixed(host, healthPath) && f.path <= request && |f.path| > n
    ensures f.pathType == Prefix && f.backend == NO_BACKEND
    ensures forall g | g in Fixed(host, healthPath) && g.path <= request :: |g.path| <= |f.path|
  {
    var fixed := Fixed(host, healthPath);
    f := if fixed[0].path <= request && (!(fixed[1].path <= request) || |fixed[0].path| >= |fixed[1].path|)
         then fixed[0] else fixed[1];
  }

  lemma FixedIsNotExact(c: seq<L.Loc>, host: string, healthPath: string, request: string)
    ensures R.HasExact(c + Fixed(host, healthPath), request) <==> R.HasExact(c, request)
  {
    var fixed := Fixed(host, healthPath);
    assert forall q :: q in c + fixed <==> q in c || q in fixed;
  }

  lemma ChoiceIsAnswer(ings: seq<Ingress>, host: string, request: string, ls: seq<L.Loc>)
    requires host in InitialServers(ings) && InitialServers(ings)[host] != []
    requires AreClaims(ings, host, ls)
    ensures forall l | l in ls :: R.RuleChoice(ls, request, l) <==> Answers(ings, host, request, l.path, l.pathType)
  {
    forall l | l in ls ensures R.RuleChoice(ls, request, l) <==> Answers(ings, host, request, l.path, l.pathType) {
      if R.RuleChoice(ls, request, l) {
        ChoiceAnswers(ings, host, request, ls, l);
      }
      if Answers(ings, host, request, l.path, l.pathType) {
        forall m | m in ls && R.MatchesRule(m, request)
          ensures m == l || l.pathType == Exact || (m.pathType == Prefix && |m.path| <= |l.path|)
        {
          assert Claimed(ings, host, m.path, m.pathType) == Some(m.backend);
        }
      }
    }
  }

  lemma ChoiceAnswers(ings: seq<Ingress>, host: string, request: string, ls: seq<L.Loc>, l: L.Loc)
    requires host in InitialServers(ings) && InitialServers(ings)[host] != []
    requires AreClaims(ings, host, ls)
    requires R.RuleChoice(ls, request, l)
    ensures Answers(ings, host, request, l.path, l.pathType)
  {
    if l.pathType == Prefix {
      if Claimed(ings, host, request, Exact).Some? {
        var m := L.Loc(request, Exact, "", Claimed(ings, host, request, Exact).value, "", false);
        assert m in ls && R.MatchesRule(m, request);
      }
      forall q | Claimed(ings, host, q, Prefix).Some? && PathMatches(q, Prefix, request) ensures |q| <= |l.path| {
        var m := L.Loc(q, Prefix, "", Claimed(ings, host, q, Prefix).value, "", false);
        assert m in ls && R.MatchesRule(m, request);
      }
    }
  }

  /** Every server that is handed over keeps a Prefix location for "/" through sorting and compiling. */
  lemma RootServed(ings: seq<Ingress>, host: string)
    requires host in BuiltServers(ings)
    ensures exists l | l in L.Compile(Handed(ings, host)) :: l.path == ROOT && l.pathType == Prefix
  {
    RootStays(ings, host);
    var root := AsLoc(BuiltServers(ings)[host][0]);
    HandedMembers(ings, host, root);
    R.RootKept(Handed(ings, host), root);
  }
}
