/** Merging canary Ingresses: their upstreams become alternatives of the upstreams that serve the same
    locations, and those that serve nothing are deleted. */
module CanaryMerge {
  import opened Basics
  import opened Paths
  import opened ServerBuilder

  /** A location that a canary rule path can match, or any location of the catch-all server. */
  datatype Target = CatchAll | At(path: string, pathType: PathType)

  /** One attempt to merge: the upstream of the canary and the server whose locations it looks at. */
  datatype MergeRef = MergeRef(name: string, host: string, target: Target)

  predicate Hit(l: Location, t: Target) {
    t.At? ==> l.path == t.path && l.pathType == t.pathType
  }

  // ----- Specification -----

  /** An upstream that can take the alternative: another one, not the default one, and one with a server. */
  predicate CanMerge(primary: Upstream, alternative: Upstream) {
    primary.name != alternative.name && primary.name != DEF_UPSTREAM && !primary.noServer
  }

  function AddAlternative(ups: Upstreams, key: string, name: string): Upstreams
    requires key in ups
  {
    if name in ups[key].alternatives then ups
    else ups[key := ups[key].(alternatives := ups[key].alternatives + [name])]
  }

  /** The walk over the locations.  None is a nil dereference: a location whose upstream does not exist. */
  datatype Scanned = Scanned(ups: Upstreams, altEqualsPri: bool, merged: bool)

  function Scan(ups: Upstreams, locs: seq<Location>, alt: Upstream, t: Target, merged: bool): Option<Scanned> {
    if locs == [] then Some(Scanned(ups, false, merged))
    else if locs[0].backend !in ups then None
    else
      var pri := ups[locs[0].backend];
      if alt.name == pri.name then Some(Scanned(ups, true, merged))
      else if CanMerge(pri, alt) && Hit(locs[0], t) then
        Scan(AddAlternative(ups, locs[0].backend, alt.name), locs[1..], alt, t, true)
      else Scan(ups, locs[1..], alt, t, merged)
  }

  function Merge(ups: Upstreams, servers: Servers, r: MergeRef): Option<Upstreams> {
    if r.name !in ups || r.host !in servers then Some(ups)
    else
      match Scan(ups, servers[r.host], ups[r.name], r.target, false)
      case None => None
      case Some(s) => Some(if !s.altEqualsPri && !s.merged then s.ups - {ups[r.name].name} else s.ups)
  }

  function MergeAll(ups: Upstreams, servers: Servers, refs: seq<MergeRef>): Option<Upstreams> {
    if refs == [] then Some(ups)
    else
      match MergeAll(ups, servers, refs[..|refs| - 1])
      case None => None
      case Some(u) => Merge(u, servers, refs[|refs| - 1])
  }

  function DefaultMerges(ing: Ingress): seq<MergeRef> {
    if ing.defaultBackend.None? then []
    else [MergeRef(UpstreamName(ing.ns, ing.defaultBackend.value), DEF_SERVER, CatchAll)]
  }

  function PathMerge(ing: Ingress, rule: Rule, p: PathRule): MergeRef {
    MergeRef(UpstreamName(ing.ns, p.service), HostOf(rule), At(p.path, p.pathType))
  }

  function PathMerges(ing: Ingress, rule: Rule, paths: seq<PathRule>): seq<MergeRef> {
    if paths == [] then []
    else
      var p := paths[|paths| - 1];
      var init := PathMerges(ing, rule, paths[..|paths| - 1]);
      if p.service.None? then init else init + [PathMerge(ing, rule, p)]
  }

  function RuleMerges(ing: Ingress, rules: seq<Rule>): seq<MergeRef> {
    if rules == [] then []
    else
      var rule := rules[|rules| - 1];
      var init := RuleMerges(ing, rules[..|rules| - 1]);
      if rule.http.None? then init else init + PathMerges(ing, rule, rule.http.value)
  }

  function Merges(ing: Ingress): seq<MergeRef> {
    DefaultMerges(ing) + RuleMerges(ing, ing.rules)
  }

  /** A canary rule without paths is dereferenced all the same. */
  predicate HasHttp(ing: Ingress) {
    forall r | r in ing.rules :: r.http.Some?
  }

  predicate NonCanaryExists(ings: seq<Ingress>) {
    exists i | 0 <= i < |ings| :: !ings[i].canary
  }

  function CanaryMerges(ings: seq<Ingress>): seq<MergeRef> {
    if ings == [] then []
    else
      var init, ing := CanaryMerges(ings[..|ings| - 1]), ings[|ings| - 1];
      if ing.canary then init + Merges(ing) else init
  }

  predicate CanariesHaveHttp(ings: seq<Ingress>) {
    forall ing | ing in ings :: ing.canary ==> HasHttp(ing)
  }

  // ----- The program -----

  class Merger {
    var upstreams: Upstreams
    const servers: Servers

    constructor (ups: Upstreams, servers: Servers)
      ensures upstreams == ups && this.servers == servers
    {
      upstreams, this.servers := ups, servers;
    }

    /** Walks the locations of a server; answers false where the program dereferences a nil upstream. */
    method MergeAt(locations: seq<Location>, altUps: Upstream, target: Target) returns (ok: bool)
      modifies `upstreams
      ensures match Scan(old(upstreams), locations, altUps, target, false)
              case None => !ok
              case Some(s) => ok && upstreams == if !s.altEqualsPri && !s.merged then s.ups - {altUps.name} else s.ups
    {
      var merged, altEqualsPri := false, false;
      var i := 0;
      assert locations[0..] == locations;
      while i < |locations|
        invariant 0 <= i <= |locations| && !altEqualsPri
        invariant Scan(old(upstreams), locations, altUps, target, false) ==
                  Scan(upstreams, locations[i..], altUps, target, merged)
      {
        var loc := locations[i];
        assert locations[i..][0] == loc && locations[i..][1..] == locations[i + 1..];
        if loc.backend !in upstreams {
          return false;
        }
        var priUps := upstreams[loc.backend];
        altEqualsPri := altUps.name == priUps.name;
        if altEqualsPri {
          break;
        }
        if CanMerge(priUps, altUps) && Hit(loc, target) {
          if altUps.name !in priUps.alternatives {
            upstreams := upstreams[loc.backend := priUps.(alternatives := priUps.alternatives + [altUps.name])];
          }
          merged := true;
        }
        i := i + 1;
      }
      if !altEqualsPri && !merged {
        upstreams := upstreams - {altUps.name};
      }
      return true;
    }

    /** Merges one reference, unless its upstream has been removed already or its server does not exist. */
    method MergeOne(r: MergeRef) returns (ok: bool)
      modifies `upstreams
      ensures match Merge(old(upstreams), servers, r)
              case None => !ok
              case Some(u) => ok && upstreams == u
    {
      if r.name !in upstreams || r.host !in servers {
        return true;
      }
      ok := MergeAt(servers[r.host], upstreams[r.name], r.target);
    }

    method MergePaths(ing: Ingress, rule: Rule, paths: seq<PathRule>, ghost start: Upstreams, ghost done: seq<MergeRef>)
      returns (ok: bool)
      requires MergeAll(start, servers, done) == Some(upstreams)
      modifies `upstreams
      ensures match MergeAll(start, servers, done + PathMerges(ing, rule, paths))
              case None => !ok
              case Some(u) => ok && upstreams == u
    {
      assert done + [] == done;
      for k := 0 to |paths|
        invariant MergeAll(start, servers, done + PathMerges(ing, rule, paths[..k])) == Some(upstreams)
      {
        PrefixDropsLast(paths, k);
        if paths[k].service.None? {
          // a path to a resource merges nothing
          continue;
        }
        var r := PathMerge(ing, rule, paths[k]);
        ghost var before := PathMerges(ing, rule, paths[..k]);
        MergeSnoc(start, servers, done, before, r);
        ok := MergeOne(r);
        if !ok {
          MergeStops(start, servers, done, ing, rule, paths, k + 1);
          return;
        }
      }
      WholePrefix(paths);
      return true;
    }

    method MergeRules(ing: Ingress, ghost start: Upstreams, ghost done: seq<MergeRef>) returns (ok: bool)
      requires MergeAll(start, servers, done) == Some(upstreams)
      modifies `upstreams
      ensures !HasHttp(ing) ==> !ok
      ensures HasHttp(ing) ==>
                match MergeAll(start, servers, done + RuleMerges(ing, ing.rules))
                case None => !ok
                case Some(u) => ok && upstreams == u
    {
      assert done + [] == done;
      for j := 0 to |ing.rules|
        invariant forall k | 0 <= k < j :: ing.rules[k].http.Some?
        invariant MergeAll(start, servers, done + RuleMerges(ing, ing.rules[..j])) == Some(upstreams)
      {
        assert ing.rules[j] in ing.rules;
        if ing.rules[j].http.None? {
          return false;
        }
        var paths := ing.rules[j].http.value;
        ghost var before := RuleMerges(ing, ing.rules[..j]);
        ok := MergePaths(ing, ing.rules[j], paths, start, done + before);
        RuleMergesStep(done, ing, j);
        if !ok {
          RulesStop(start, servers, done, ing, j + 1);
          return;
        }
      }
      WholePrefix(ing.rules);
      return true;
    }

    /** Merges the catch-all backend of a canary, then its rule paths. */
    method MergeAlternativeBackends(ing: Ingress, ghost start: Upstreams, ghost done: seq<MergeRef>) returns (ok: bool)
      requires MergeAll(start, servers, done) == Some(upstreams)
      modifies `upstreams
      ensures !HasHttp(ing) ==> !ok
      ensures HasHttp(ing) ==>
                match MergeAll(start, servers, done + Merges(ing))
                case None => !ok
                case Some(u) => ok && upstreams == u
    {
      assert done + [] == done;
      if ing.defaultBackend.Some? {
        var r := MergeRef(UpstreamName(ing.ns, ing.defaultBackend.value), DEF_SERVER, CatchAll);
        MergeSnoc(start, servers, done, [], r);
        assert [] + [r] == DefaultMerges(ing);
        ok := MergeOne(r);
        if !ok {
          MergeFails(start, servers, done + DefaultMerges(ing), RuleMerges(ing, ing.rules));
          Assoc(done, DefaultMerges(ing), RuleMerges(ing, ing.rules));
          return;
        }
      }
      ok := MergeRules(ing, start, done + DefaultMerges(ing));
      Assoc(done, DefaultMerges(ing), RuleMerges(ing, ing.rules));
    }

    /** Merges every canary Ingress, if there is anything to merge into. */
    method MergeCanaries(ings: seq<Ingress>) returns (ok: bool)
      modifies `upstreams
      ensures !NonCanaryExists(ings) ==> ok && upstreams == old(upstreams)
      ensures NonCanaryExists(ings) && !CanariesHaveHttp(ings) ==> !ok
      ensures NonCanaryExists(ings) && CanariesHaveHttp(ings) ==>
                match MergeAll(old(upstreams), servers, CanaryMerges(ings))
                case None => !ok
                case Some(u) => ok && upstreams == u
    {
      if forall i | 0 <= i < |ings| :: ings[i].canary {
        return true;
      }
      for i := 0 to |ings|
        invariant forall k | 0 <= k < i && ings[k].canary :: HasHttp(ings[k])
        invariant MergeAll(old(upstreams), servers, CanaryMerges(ings[..i])) == Some(upstreams)
      {
        PrefixDropsLast(ings, i);
        assert ings[i] in ings;
        if !ings[i].canary {
          continue;
        }
        ok := MergeAlternativeBackends(ings[i], old(upstreams), CanaryMerges(ings[..i]));
        if !ok {
          CanariesStop(old(upstreams), servers, ings, i + 1);
          return;
        }
      }
      WholePrefix(ings);
      return true;
    }
  }

  lemma MergeSnoc(ups: Upstreams, servers: Servers, done: seq<MergeRef>, refs: seq<MergeRef>, r: MergeRef)
    ensures MergeAll(ups, servers, done + (refs + [r])) ==
            match MergeAll(ups, servers, done + refs)
            case None => None
            case Some(u) => Merge(u, servers, r)
  {
    assert (done + (refs + [r]))[..|done + refs|] == done + refs;
  }

  /** Once a merge fails, the whole sequence fails. */
  lemma {:induction false} MergeFails(ups: Upstreams, servers: Servers, a: seq<MergeRef>, b: seq<MergeRef>)
    requires MergeAll(ups, servers, a) == None
    ensures MergeAll(ups, servers, a + b) == None
  {
    if b == [] {
      assert a + b == a;
    } else {
      MergeFails(ups, servers, a, b[..|b| - 1]);
      assert (a + b)[..|a + b| - 1] == a + b[..|b| - 1];
    }
  }

  lemma {:induction false} PathMergesPrefix(ing: Ingress, rule: Rule, paths: seq<PathRule>, k: nat)
    requires k <= |paths|
    ensures PathMerges(ing, rule, paths[..k]) <= PathMerges(ing, rule, paths)
    decreases |paths|
  {
    if k < |paths| {
      PathMergesPrefix(ing, rule, paths[..|paths| - 1], k);
      assert paths[..|paths| - 1][..k] == paths[..k];
    } else {
      WholePrefix(paths);
    }
  }

  lemma MergeStops(ups: Upstreams, servers: Servers, done: seq<MergeRef>, ing: Ingress, rule: Rule,
                   paths: seq<PathRule>, k: nat)
    requires k <= |paths| && MergeAll(ups, servers, done + PathMerges(ing, rule, paths[..k])) == None
    ensures MergeAll(ups, servers, done + PathMerges(ing, rule, paths)) == None
  {
    var a, b := PathMerges(ing, rule, paths[..k]), PathMerges(ing, rule, paths);
    PathMergesPrefix(ing, rule, paths, k);
    MergeFails(ups, servers, done + a, b[|a|..]);
    assert (done + a) + b[|a|..] == done + b;
  }

  lemma RuleMergesStep(done: seq<MergeRef>, ing: Ingress, j: nat)
    requires j < |ing.rules| && ing.rules[j].http.Some?
    ensures (done + RuleMerges(ing, ing.rules[..j])) + PathMerges(ing, ing.rules[j], ing.rules[j].http.value) ==
            done + RuleMerges(ing, ing.rules[..j + 1])
  {
    PrefixDropsLast(ing.rules, j);
    Assoc(done, RuleMerges(ing, ing.rules[..j]), PathMerges(ing, ing.rules[j], ing.rules[j].http.value));
  }

  lemma {:induction false} RuleMergesPrefix(ing: Ingress, rules: seq<Rule>, j: nat)
    requires j <= |rules|
    ensures RuleMerges(ing, rules[..j]) <= RuleMerges(ing, rules)
    decreases |rules|
  {
    if j < |rules| {
      RuleMergesPrefix(ing, rules[..|rules| - 1], j);
      assert rules[..|rules| - 1][..j] == rules[..j];
    } else {
      WholePrefix(rules);
    }
  }

  lemma RulesStop(ups: Upstreams, servers: Servers, done: seq<MergeRef>, ing: Ingress, j: nat)
    requires j <= |ing.rules| && MergeAll(ups, servers, done + RuleMerges(ing, ing.rules[..j])) == None
    ensures MergeAll(ups, servers, done + RuleMerges(ing, ing.rules)) == None
  {
    var a, b := RuleMerges(ing, ing.rules[..j]), RuleMerges(ing, ing.rules);
    RuleMergesPrefix(ing, ing.rules, j);
    MergeFails(ups, servers, done + a, b[|a|..]);
    assert (done + a) + b[|a|..] == done + b;
  }

  lemma {:induction false} CanaryMergesPrefix(ings: seq<Ingress>, i: nat)
    requires i <= |ings|
    ensures CanaryMerges(ings[..i]) <= CanaryMerges(ings)
    decreases |ings|
  {
    if i < |ings| {
      CanaryMergesPrefix(ings[..|ings| - 1], i);
      assert ings[..|ings| - 1][..i] == ings[..i];
    } else {
      WholePrefix(ings);
    }
  }

  lemma CanariesStop(ups: Upstreams, servers: Servers, ings: seq<Ingress>, i: nat)
    requires i <= |ings|
    ensures MergeAll(ups, servers, CanaryMerges(ings[..i])) == None ==>
              MergeAll(ups, servers, CanaryMerges(ings)) == None
  {
    var a, b := CanaryMerges(ings[..i]), CanaryMerges(ings);
    CanaryMergesPrefix(ings, i);
    if MergeAll(ups, servers, a) == None {
      MergeFails(ups, servers, a, b[|a|..]);
      assert a + b[|a|..] == b;
    }
  }
}
