/** The builder that turns the list of Ingresses into upstreams and servers: it creates the upstreams, then the
    servers with their root locations, and then lets every rule path claim its location. */
module ServerBuilder {
  import opened Basics
  import opened Decimal
  import opened Paths

  const DEF_UPSTREAM := "upstream-default-backend"
  const DEF_SERVER := "_"

  datatype ServiceRef = ServiceRef(name: string, portNumber: int, portName: string)
  datatype PathRule = PathRule(path: string, pathType: PathType, service: Option<ServiceRef>)
  datatype Rule = Rule(host: string, http: Option<seq<PathRule>>)

  /** `defaultBackend` is None when the spec has none, and Some(None) when it has one that is no service. */
  datatype Ingress = Ingress(ns: string, canary: bool, defaultBackend: Option<Option<ServiceRef>>, rules: seq<Rule>)

  datatype Upstream = Upstream(name: string, noServer: bool, alternatives: seq<string>)

  /** `owner` is the position, in the input, of the Ingress that the location was generated from. */
  datatype Location = Location(path: string, pathType: PathType, isDefBackend: bool, backend: string,
                               owner: Option<nat>)

  type Upstreams = map<string, Upstream>
  type Servers = map<string, seq<Location>>

  /** The name of the upstream for a service port; a missing service or port has the one name INVALID. */
  function UpstreamName(ns: string, service: Option<ServiceRef>): string {
    match service
    case Some(s) =>
      if s.portNumber > 0 then ns + "-" + s.name + "-" + Print(s.portNumber)
      else if s.portName != "" then ns + "-" + s.name + "-" + s.portName
      else ns + "-INVALID"
    case None => ns + "-INVALID"
  }

  function HostOf(rule: Rule): string {
    if rule.host == "" then DEF_SERVER else rule.host
  }

  // ----- The service references of the Ingresses, in the order in which they are visited -----

  /** A rule path that names a service: where it is and which upstream it asks for. */
  datatype Ref = Ref(host: string, path: string, pathType: PathType, name: string, canary: bool, owner: nat)

  function RefOf(ing: Ingress, owner: nat, rule: Rule, p: PathRule): Ref {
    Ref(HostOf(rule), if p.path != "" then p.path else ROOT, p.pathType, UpstreamName(ing.ns, p.service), ing.canary,
        owner)
  }

  function PathRefs(ing: Ingress, owner: nat, rule: Rule, paths: seq<PathRule>): seq<Ref> {
    if paths == [] then []
    else
      var p := paths[|paths| - 1];
      PathRefs(ing, owner, rule, paths[..|paths| - 1]) + if p.service.None? then [] else [RefOf(ing, owner, rule, p)]
  }

  function RuleRefs(ing: Ingress, owner: nat, rules: seq<Rule>): seq<Ref> {
    if rules == [] then []
    else
      var rule := rules[|rules| - 1];
      RuleRefs(ing, owner, rules[..|rules| - 1]) +
      if rule.http.None? then [] else PathRefs(ing, owner, rule, rule.http.value)
  }

  function Refs(ings: seq<Ingress>): seq<Ref> {
    if ings == [] then []
    else
      var i := |ings| - 1;
      Refs(ings[..i]) + RuleRefs(ings[i], i, ings[i].rules)
  }

  // ----- Upstreams -----

  /** A use of an upstream name: as a default backend, which starts the upstream afresh, or by a path. */
  datatype Use = Use(name: string, canary: bool, isDefault: bool)

  function DefaultUses(ing: Ingress): seq<Use> {
    if ing.defaultBackend.Some? && ing.defaultBackend.value.Some?
    then [Use(UpstreamName(ing.ns, ing.defaultBackend.value), ing.canary, true)]
    else []
  }

  function PathUses(refs: seq<Ref>): (r: seq<Use>)
    ensures |r| == |refs|
    ensures forall k | 0 <= k < |refs| :: r[k] == Use(refs[k].name, refs[k].canary, false)
  {
    seq(|refs|, k requires 0 <= k < |refs| => Use(refs[k].name, refs[k].canary, false))
  }

  function Uses(ings: seq<Ingress>): seq<Use> {
    if ings == [] then []
    else
      var i := |ings| - 1;
      Uses(ings[..i]) + DefaultUses(ings[i]) + PathUses(RuleRefs(ings[i], i, ings[i].rules))
  }

  function UseUpstream(ups: Upstreams, u: Use): Upstreams {
    if !u.isDefault && u.name in ups then ups else ups[u.name := Upstream(u.name, u.canary, [])]
  }

  function UpstreamsOf(uses: seq<Use>): Upstreams {
    if uses == [] then map[DEF_UPSTREAM := Upstream(DEF_UPSTREAM, false, [])]
    else UseUpstream(UpstreamsOf(uses[..|uses| - 1]), uses[|uses| - 1])
  }

  // ----- Servers with their root locations -----

  /** A default backend takes over the root location of the catch-all server; one without rules also closes it
      to later claims. */
  function TakeDefault(s: Servers, ing: Ingress, owner: nat): Servers {
    if DEF_SERVER !in s || s[DEF_SERVER] == [] || DefaultUses(ing) == [] then s
    else
      var loc := s[DEF_SERVER][0].(backend := DefaultUses(ing)[0].name, owner := Some(owner));
      s[DEF_SERVER := s[DEF_SERVER][0 := if ing.rules == [] then loc.(isDefBackend := false) else loc]]
  }

  function DefaultName(ing: Ingress): string {
    if DefaultUses(ing) == [] then DEF_UPSTREAM else DefaultUses(ing)[0].name
  }

  function AddHosts(s: Servers, ing: Ingress, owner: nat, rules: seq<Rule>): Servers {
    if rules == [] then s
    else
      var s' := AddHosts(s, ing, owner, rules[..|rules| - 1]);
      var host := HostOf(rules[|rules| - 1]);
      if host in s' then s' else s'[host := [Location(ROOT, Prefix, true, DefaultName(ing), Some(owner))]]
  }

  function AddServers(s: Servers, ing: Ingress, owner: nat): Servers {
    if ing.canary then s else AddHosts(TakeDefault(s, ing, owner), ing, owner, ing.rules)
  }

  function InitialServers(ings: seq<Ingress>): Servers {
    if ings == [] then map[DEF_SERVER := [Location(ROOT, Prefix, true, DEF_UPSTREAM, None)]]
    else AddServers(InitialServers(ings[..|ings| - 1]), ings[|ings| - 1], |ings| - 1)
  }

  // ----- Claims -----

  /** The first location with the path decides: one of another type lets the claim add a location of its own,
      one of the same type is taken over if it is only a default and otherwise keeps the claim out. */
  function FirstAt(locs: seq<Location>, path: string): (k: nat)
    ensures k <= |locs|
    ensures k < |locs| ==> locs[k].path == path
    ensures forall j | 0 <= j < k :: locs[j].path != path
  {
    if locs == [] || locs[0].path == path then 0 else 1 + FirstAt(locs[1..], path)
  }

  function ClaimInto(locs: seq<Location>, path: string, pathType: PathType, name: string, owner: nat): seq<Location> {
    var k := FirstAt(locs, path);
    if k == |locs| || locs[k].pathType != pathType then locs + [Location(path, pathType, false, name, Some(owner))]
    else if !locs[k].isDefBackend then locs
    else locs[k := locs[k].(backend := name, isDefBackend := false, owner := Some(owner))]
  }

  function ServerFor(s: Servers, host: string): string {
    if host in s then host else DEF_SERVER
  }

  /** A path whose upstream has no server of its own claims nothing. */
  function Claim(s: Servers, ups: Upstreams, r: Ref): Servers {
    var host := ServerFor(s, r.host);
    if r.name !in ups || ups[r.name].noServer || host !in s then s
    else s[host := ClaimInto(s[host], r.path, r.pathType, r.name, r.owner)]
  }

  function ClaimAll(s: Servers, ups: Upstreams, refs: seq<Ref>): Servers {
    if refs == [] then s else Claim(ClaimAll(s, ups, refs[..|refs| - 1]), ups, refs[|refs| - 1])
  }

  // ----- The program -----

  class Builder {
    var upstreams: Upstreams
    var servers: Servers

    constructor ()
      ensures upstreams == map[] && servers == map[]
    {
      upstreams, servers := map[], map[];
    }

    /** Creates the upstreams of the paths of one rule that do not exist yet. */
    method CreateForPaths(ing: Ingress, owner: nat, rule: Rule, paths: seq<PathRule>, ghost done: seq<Use>)
      requires upstreams == UpstreamsOf(done)
      modifies `upstreams
      ensures upstreams == UpstreamsOf(done + PathUses(PathRefs(ing, owner, rule, paths)))
    {
      assert done + [] == done;
      for k := 0 to |paths|
        invariant upstreams == UpstreamsOf(done + PathUses(PathRefs(ing, owner, rule, paths[..k])))
      {
        var path := paths[k];
        PathRefsStep(ing, owner, rule, paths, k);
        if path.service.None? {
          // a path to a resource has no upstream
          continue;
        }
        var name := UpstreamName(ing.ns, path.service);
        UseStep(done, PathRefs(ing, owner, rule, paths[..k]), RefOf(ing, owner, rule, path));
        if name in upstreams {
          continue;
        }
        upstreams := upstreams[name := Upstream(name, ing.canary, [])];
      }
      WholePrefix(paths);
    }

    method CreateForRules(ing: Ingress, owner: nat, ghost done: seq<Use>)
      requires upstreams == UpstreamsOf(done)
      modifies `upstreams
      ensures upstreams == UpstreamsOf(done + PathUses(RuleRefs(ing, owner, ing.rules)))
    {
      assert done + [] == done;
      for j := 0 to |ing.rules|
        invariant upstreams == UpstreamsOf(done + PathUses(RuleRefs(ing, owner, ing.rules[..j])))
      {
        RuleRefsStep(ing, owner, ing.rules, j);
        if ing.rules[j].http.None? {
          continue;
        }
        ghost var before := RuleRefs(ing, owner, ing.rules[..j]);
        var paths := ing.rules[j].http.value;
        CreateForPaths(ing, owner, ing.rules[j], paths, done + PathUses(before));
        UsesConcat(done, before, PathRefs(ing, owner, ing.rules[j], paths));
      }
      WholePrefix(ing.rules);
    }

    /** Creates an upstream for every default backend and for every service path. */
    method CreateUpstreams(data: seq<Ingress>)
      modifies `upstreams
      ensures upstreams == UpstreamsOf(Uses(data))
    {
      upstreams := map[DEF_UPSTREAM := Upstream(DEF_UPSTREAM, false, [])];
      for i := 0 to |data|
        invariant upstreams == UpstreamsOf(Uses(data[..i]))
      {
        var ing := data[i];
        ghost var uses := Uses(data[..i]);
        if ing.defaultBackend.Some? && ing.defaultBackend.value.Some? {
          var defBackend := UpstreamName(ing.ns, ing.defaultBackend.value);
          UpstreamsSnoc(uses, Use(defBackend, ing.canary, true));
          upstreams := upstreams[defBackend := Upstream(defBackend, ing.canary, [])];
        } else {
          assert uses + [] == uses;
        }
        CreateForRules(ing, i, uses + DefaultUses(ing));
        UsesStep(data, i);
      }
      WholePrefix(data);
    }

    /** Gives the catch-all server the default backend of an Ingress; answers the upstream name for its rules. */
    method TakeDefaultBackend(ing: Ingress, owner: nat) returns (un: string)
      requires DEF_SERVER in servers && servers[DEF_SERVER] != []
      requires DefaultUses(ing) != [] ==>
                 var n := DefaultUses(ing)[0].name; n in upstreams && upstreams[n].name == n
      modifies `servers
      ensures servers == TakeDefault(old(servers), ing, owner) && un == DefaultName(ing)
    {
      un := DEF_UPSTREAM;
      if ing.defaultBackend.Some? && ing.defaultBackend.value.Some? {
        var defUpstream := UpstreamName(ing.ns, ing.defaultBackend.value);
        assert defUpstream == DefaultUses(ing)[0].name;
        if defUpstream in upstreams {
          un := upstreams[defUpstream].name;
          // only an Ingress without rules closes the catch-all root
          var defLoc := servers[DEF_SERVER][0].(backend := un, owner := Some(owner));
          if defLoc.isDefBackend && |ing.rules| == 0 {
            defLoc := defLoc.(isDefBackend := false);
          }
          servers := servers[DEF_SERVER := servers[DEF_SERVER][0 := defLoc]];
        }
      }
    }

    /** Builds a server for every host of an Ingress that is no canary, with its root location still to be claimed. */
    method CreateServers(data: seq<Ingress>)
      requires upstreams == UpstreamsOf(Uses(data))
      modifies `servers
      ensures servers == InitialServers(data)
    {
      servers := map[DEF_SERVER := [Location(ROOT, Prefix, true, DEF_UPSTREAM, None)]];
      for i := 0 to |data|
        invariant servers == InitialServers(data[..i])
      {
        var ing := data[i];
        PrefixDropsLast(data, i);
        RootFirst(data[..i], DEF_SERVER);
        if ing.canary {
          continue;
        }
        if DefaultUses(ing) != [] {
          DefaultIsCreated(data, i);
        }
        var un := TakeDefaultBackend(ing, i);
        ghost var s := servers;
        for j := 0 to |ing.rules|
          invariant servers == AddHosts(s, ing, i, ing.rules[..j])
        {
          PrefixDropsLast(ing.rules, j);
          var host := HostOf(ing.rules[j]);
          if host in servers {
            continue;
          }
          servers := servers[host := [Location(ROOT, Prefix, true, un, Some(i))]];
        }
        WholePrefix(ing.rules);
      }
      WholePrefix(data);
    }

    /** Looks for the location of one path and claims it: the inner loop of the builder. */
    method ClaimLocation(host: string, path: string, pathType: PathType, name: string, owner: nat)
      requires host in servers
      modifies `servers
      ensures servers == old(servers)[host := ClaimInto(old(servers)[host], path, pathType, name, owner)]
    {
      var locs := servers[host];
      var addLoc := true;
      for k := 0 to |locs|
        invariant addLoc && servers == old(servers)
        invariant forall j | 0 <= j < k :: locs[j].path != path
      {
        if locs[k].path != path {
          continue;
        }
        FirstAtIs(locs, path, k);
        // the first location with the path decides
        if locs[k].pathType != pathType {
          break;
        }
        addLoc := false;
        if !locs[k].isDefBackend {
          break;
        }
        servers := servers[host := locs[k := locs[k].(backend := name, isDefBackend := false, owner := Some(owner))]];
        break;
      }
      if addLoc {
        if forall j | 0 <= j < |locs| :: locs[j].path != path {
          FirstAtIs(locs, path, |locs|);
        }
        servers := servers[host := locs + [Location(path, pathType, false, name, Some(owner))]];
      }
    }

    /** Lets the paths of one rule claim their locations. */
    method ClaimPaths(ing: Ingress, owner: nat, rule: Rule, paths: seq<PathRule>, ghost start: Servers,
                      ghost done: seq<Ref>)
      requires servers == ClaimAll(start, upstreams, done) && DEF_SERVER in start
      requires forall r | r in PathRefs(ing, owner, rule, paths) :: r.name in upstreams
      modifies `servers
      ensures servers == ClaimAll(start, upstreams, done + PathRefs(ing, owner, rule, paths))
    {
      assert done + [] == done;
      for k := 0 to |paths|
        invariant servers == ClaimAll(start, upstreams, done + PathRefs(ing, owner, rule, paths[..k]))
      {
        var path := paths[k];
        ClaimPathsStep(start, upstreams, done, ing, owner, rule, paths, k);
        if path.service.None? {
          // a path to a resource has no upstream
          continue;
        }
        var upsName := UpstreamName(ing.ns, path.service);
        var ups := upstreams[upsName];
        // a canary's upstream claims no location
        if ups.noServer {
          continue;
        }
        var nginxPath := ROOT;
        if path.path != "" {
          nginxPath := path.path;
        }
        var host := HostOf(rule);
        if host !in servers {
          host := DEF_SERVER;
        }
        ClaimLocation(host, nginxPath, path.pathType, upsName, owner);
      }
      WholePrefix(paths);
    }

    /** The main loop: in input order every rule path of every Ingress claims its location. */
    method ClaimLocations(data: seq<Ingress>)
      requires upstreams == UpstreamsOf(Uses(data)) && DEF_SERVER in servers
      modifies `servers
      ensures servers == ClaimAll(old(servers), upstreams, Refs(data))
    {
      for i := 0 to |data|
        invariant servers == ClaimAll(old(servers), upstreams, Refs(data[..i]))
      {
        var ing := data[i];
        ghost var done := Refs(data[..i]);
        assert done + [] == done;
        for j := 0 to |ing.rules|
          invariant servers == ClaimAll(old(servers), upstreams, done + RuleRefs(ing, i, ing.rules[..j]))
        {
          RuleRefsStep(ing, i, ing.rules, j);
          if ing.rules[j].http.None? {
            continue;
          }
          ghost var before := RuleRefs(ing, i, ing.rules[..j]);
          var paths := ing.rules[j].http.value;
          PathsAreCreated(data, i, j);
          ClaimPaths(ing, i, ing.rules[j], paths, old(servers), done + before);
          Assoc(done, before, PathRefs(ing, i, ing.rules[j], paths));
        }
        WholePrefix(ing.rules);
        PrefixDropsLast(data, i);
      }
      WholePrefix(data);
    }

    /** The upstreams and the servers with their claimed locations. */
    method Build(data: seq<Ingress>)
      modifies this
      ensures upstreams == UpstreamsOf(Uses(data))
      ensures servers == ClaimAll(InitialServers(data), upstreams, Refs(data))
    {
      CreateUpstreams(data);
      CreateServers(data);
      RootFirst(data, DEF_SERVER);
      ClaimLocations(data);
    }
  }

  lemma ClaimSnoc(s: Servers, ups: Upstreams, done: seq<Ref>, refs: seq<Ref>, r: Ref)
    ensures ClaimAll(s, ups, done + (refs + [r])) == Claim(ClaimAll(s, ups, done + refs), ups, r)
  {
    assert (done + (refs + [r]))[..|done + refs|] == done + refs;
  }

  /** One round of the claims of a rule: nothing, or the claim of the path. */
  lemma ClaimPathsStep(start: Servers, ups: Upstreams, done: seq<Ref>, ing: Ingress, owner: nat, rule: Rule,
                       paths: seq<PathRule>, k: nat)
    requires k < |paths|
    ensures var s := ClaimAll(start, ups, done + PathRefs(ing, owner, rule, paths[..k]));
            && s.Keys == start.Keys
            && ClaimAll(start, ups, done + PathRefs(ing, owner, rule, paths[..k + 1])) ==
               if paths[k].service.None? then s else Claim(s, ups, RefOf(ing, owner, rule, paths[k]))
    ensures paths[k].service.Some? ==> RefOf(ing, owner, rule, paths[k]) in PathRefs(ing, owner, rule, paths)
  {
    PathRefsStep(ing, owner, rule, paths, k);
    ClaimKeepsHosts(start, ups, done + PathRefs(ing, owner, rule, paths[..k]));
    if paths[k].service.Some? {
      ClaimSnoc(start, ups, done, PathRefs(ing, owner, rule, paths[..k]), RefOf(ing, owner, rule, paths[k]));
      PathRefIn(ing, owner, rule, paths, k);
    }
  }

  lemma {:induction false} ClaimKeepsHosts(s: Servers, ups: Upstreams, refs: seq<Ref>)
    ensures s.Keys == ClaimAll(s, ups, refs).Keys
  {
    if refs != [] {
      ClaimKeepsHosts(s, ups, refs[..|refs| - 1]);
    }
  }

  lemma {:induction false} PathRefIn(ing: Ingress, owner: nat, rule: Rule, paths: seq<PathRule>, k: nat)
    requires k < |paths| && paths[k].service.Some?
    ensures RefOf(ing, owner, rule, paths[k]) in PathRefs(ing, owner, rule, paths)
  {
    if k < |paths| - 1 {
      PathRefIn(ing, owner, rule, paths[..|paths| - 1], k);
    }
  }

  lemma {:induction false} RuleRefIn(ing: Ingress, owner: nat, rules: seq<Rule>, j: nat)
    requires j < |rules| && rules[j].http.Some?
    ensures forall r | r in PathRefs(ing, owner, rules[j], rules[j].http.value) :: r in RuleRefs(ing, owner, rules)
  {
    if j < |rules| - 1 {
      RuleRefIn(ing, owner, rules[..|rules| - 1], j);
    }
  }

  lemma {:induction false} IngressUses(ings: seq<Ingress>, i: nat)
    requires i < |ings|
    ensures forall r | r in RuleRefs(ings[i], i, ings[i].rules) :: Use(r.name, r.canary, false) in Uses(ings)
  {
    if i < |ings| - 1 {
      IngressUses(ings[..|ings| - 1], i);
    } else {
      var refs := RuleRefs(ings[i], i, ings[i].rules);
      forall r | r in refs ensures Use(r.name, r.canary, false) in Uses(ings) {
        var k :| 0 <= k < |refs| && refs[k] == r;
        assert PathUses(refs)[k] in PathUses(refs);
      }
    }
  }

  /** The upstreams that the paths of a rule ask for have been created. */
  lemma PathsAreCreated(ings: seq<Ingress>, i: nat, j: nat)
    requires i < |ings| && j < |ings[i].rules| && ings[i].rules[j].http.Some?
    ensures forall r | r in PathRefs(ings[i], i, ings[i].rules[j], ings[i].rules[j].http.value) ::
              r.name in UpstreamsOf(Uses(ings))
  {
    RuleRefIn(ings[i], i, ings[i].rules, j);
    IngressUses(ings, i);
    forall u | u in Uses(ings) ensures u.name in UpstreamsOf(Uses(ings)) {
      var k :| 0 <= k < |Uses(ings)| && Uses(ings)[k] == u;
      UsedIsCreated(Uses(ings), k);
    }
  }

  lemma FirstAtIs(locs: seq<Location>, path: string, k: nat)
    requires k <= |locs| && (k < |locs| ==> locs[k].path == path) && forall j | 0 <= j < k :: locs[j].path != path
    ensures FirstAt(locs, path) == k
  {
  }

  lemma UpstreamsSnoc(uses: seq<Use>, u: Use)
    ensures UpstreamsOf(uses + [u]) == UseUpstream(UpstreamsOf(uses), u)
  {
    assert (uses + [u])[..|uses|] == uses;
  }

  /** One more path reference: the uses before it, and the upstream it may create. */
  lemma UseStep(done: seq<Use>, refs: seq<Ref>, r: Ref)
    ensures UpstreamsOf(done + PathUses(refs + [r])) ==
            UseUpstream(UpstreamsOf(done + PathUses(refs)), Use(r.name, r.canary, false))
  {
    var u := Use(r.name, r.canary, false);
    UpstreamsSnoc(done + PathUses(refs), u);
    assert done + PathUses(refs + [r]) == (done + PathUses(refs)) + [u];
  }

  lemma UsesConcat(done: seq<Use>, a: seq<Ref>, b: seq<Ref>)
    ensures done + PathUses(a + b) == (done + PathUses(a)) + PathUses(b)
  {
  }

  lemma PathRefsStep(ing: Ingress, owner: nat, rule: Rule, paths: seq<PathRule>, k: nat)
    requires k < |paths|
    ensures PathRefs(ing, owner, rule, paths[..k + 1]) ==
            if paths[k].service.None? then PathRefs(ing, owner, rule, paths[..k])
            else PathRefs(ing, owner, rule, paths[..k]) + [RefOf(ing, owner, rule, paths[k])]
  {
    assert paths[..k + 1][..k] == paths[..k];
  }

  lemma RuleRefsStep(ing: Ingress, owner: nat, rules: seq<Rule>, j: nat)
    requires j < |rules|
    ensures RuleRefs(ing, owner, rules[..j + 1]) ==
            if rules[j].http.None? then RuleRefs(ing, owner, rules[..j])
            else RuleRefs(ing, owner, rules[..j]) + PathRefs(ing, owner, rules[j], rules[j].http.value)
  {
    assert rules[..j + 1][..j] == rules[..j];
  }

  lemma UsesStep(ings: seq<Ingress>, i: nat)
    requires i < |ings|
    ensures Uses(ings[..i + 1]) ==
            Uses(ings[..i]) + DefaultUses(ings[i]) + PathUses(RuleRefs(ings[i], i, ings[i].rules))
  {
    PrefixDropsLast(ings, i);
  }

  lemma {:induction false} UsedIsCreated(uses: seq<Use>, k: nat)
    requires k < |uses|
    ensures uses[k].name in UpstreamsOf(uses)
  {
    if k < |uses| - 1 {
      UsedIsCreated(uses[..|uses| - 1], k);
    }
  }

  /** Every upstream is stored under its own name. */
  lemma {:induction false} NamesAreKeys(uses: seq<Use>)
    ensures DEF_UPSTREAM in UpstreamsOf(uses)
    ensures forall n | n in UpstreamsOf(uses) ::
              UpstreamsOf(uses)[n].name == n && UpstreamsOf(uses)[n].alternatives == []
  {
    if uses != [] {
      NamesAreKeys(uses[..|uses| - 1]);
    }
  }

  lemma {:induction false} DefaultIsUsed(ings: seq<Ingress>, i: nat)
    requires i < |ings|
    ensures forall u | u in DefaultUses(ings[i]) :: u in Uses(ings)
  {
    if i < |ings| - 1 {
      DefaultIsUsed(ings[..|ings| - 1], i);
    }
  }

  /** The upstream of a default backend is there, under its own name, when the servers are created. */
  lemma DefaultIsCreated(ings: seq<Ingress>, i: nat)
    requires i < |ings| && DefaultUses(ings[i]) != []
    ensures var n := DefaultUses(ings[i])[0].name;
            n in UpstreamsOf(Uses(ings)) && UpstreamsOf(Uses(ings))[n].name == n
  {
    var u := DefaultUses(ings[i])[0];
    DefaultIsUsed(ings, i);
    assert u in Uses(ings);
    var k :| 0 <= k < |Uses(ings)| && Uses(ings)[k] == u;
    UsedIsCreated(Uses(ings), k);
    NamesAreKeys(Uses(ings));
  }

  /** Every server starts with one location, for "/" as a Prefix; only that of the catch-all server may be closed
      to claims. */
  lemma {:induction false} RootFirst(ings: seq<Ingress>, host: string)
    ensures DEF_SERVER in InitialServers(ings)
    ensures host in InitialServers(ings) ==>
              var locs := InitialServers(ings)[host];
              && |locs| == 1 && locs[0].path == ROOT && locs[0].pathType == Prefix
              && (host != DEF_SERVER ==> locs[0].isDefBackend)
  {
    if ings != [] {
      var i := |ings| - 1;
      RootFirst(ings[..i], host);
      if !ings[i].canary {
        RootFirst(ings[..i], DEF_SERVER);
        var s := TakeDefault(InitialServers(ings[..i]), ings[i], i);
        AddHostsRoot(s, ings[i], i, ings[i].rules, host);
        AddHostsRoot(s, ings[i], i, ings[i].rules, DEF_SERVER);
      }
    }
  }

  /** Adding hosts keeps the servers that are there and gives a new one a single open root location. */
  lemma {:induction false} AddHostsRoot(s: Servers, ing: Ingress, owner: nat, rules: seq<Rule>, host: string)
    ensures host in s ==> host in AddHosts(s, ing, owner, rules) && AddHosts(s, ing, owner, rules)[host] == s[host]
    ensures host !in s && host in AddHosts(s, ing, owner, rules) ==>
              AddHosts(s, ing, owner, rules)[host] == [Location(ROOT, Prefix, true, DefaultName(ing), Some(owner))]
  {
    if rules != [] {
      AddHostsRoot(s, ing, owner, rules[..|rules| - 1], host);
    }
  }
}
