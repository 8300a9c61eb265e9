/** The location compiler: it turns the Prefix and Exact paths of a server into the exact and
    string-prefix locations that nginx understands. */
module Locations {
  import opened Basics
  import opened Paths

  /** The fields of a location that the compiler and the renderer look at. */
  datatype Loc = Loc(path: string, pathType: PathType, ingressPath: string, backend: string,
                     rewriteTarget: string, useRegex: bool)

  class Location {
    var path: string
    var pathType: PathType
    var ingressPath: string
    var backend: string
    var rewriteTarget: string
    var useRegex: bool

    /** A new location holding the given values, as a struct copy makes it. */
    constructor (v: Loc)
      ensures Value() == v
    {
      path, pathType, ingressPath := v.path, v.pathType, v.ingressPath;
      backend, rewriteTarget, useRegex := v.backend, v.rewriteTarget, v.useRegex;
    }

    function Value(): Loc
      reads this
    {
      Loc(path, pathType, ingressPath, backend, rewriteTarget, useRegex)
    }
  }

  function Normalize(path: string): (r: string)
    ensures path <= r && |r| <= |path| + 1
    ensures path != [] ==> r[|r| - 1] == '/'
  {
    if path == ROOT then ROOT
    else if path == "" || path[|path| - 1] != '/' then path + "/"
    else path
  }

  predicate NeedsRewrite(l: Loc) {
    l.rewriteTarget != "" && l.rewriteTarget != l.path
  }

  // ----- What the compiler produces -----

  function ExactPaths(ls: seq<Loc>): set<string> {
    set l | l in ls && l.pathType == Exact :: l.path
  }

  /** What becomes of one location when Exact locations exist for the paths `exacts`. */
  function CompileOne(l: Loc, exacts: set<string>): seq<Loc> {
    if l.path == ROOT then [l]
    else
      var m := l.(ingressPath := l.path);
      if l.pathType != Prefix || NeedsRewrite(l) || l.useRegex then [m]
      else if l.path in exacts then [m.(path := Normalize(l.path))]
      else [m.(path := Normalize(l.path)), m.(pathType := Exact)]
  }

  function CompileWith(ls: seq<Loc>, exacts: set<string>): seq<Loc> {
    if ls == [] then [] else CompileWith(ls[..|ls| - 1], exacts) + CompileOne(ls[|ls| - 1], exacts)
  }

  function Compile(ls: seq<Loc>): seq<Loc> {
    CompileWith(ls, ExactPaths(ls))
  }

  // ----- The program -----

  ghost function Values(locations: seq<Location>): (r: seq<Loc>)
    reads locations
    ensures |r| == |locations|
    ensures forall k | 0 <= k < |r| :: r[k] == locations[k].Value()
  {
    seq(|locations|, i requires 0 <= i < |locations| reads locations => locations[i].Value())
  }

  ghost predicate Holds(locations: seq<Location>, vals: seq<Loc>)
    reads locations
  {
    |locations| == |vals| && forall k | 0 <= k < |vals| :: locations[k].Value() == vals[k]
  }

  lemma HoldsConcat(a: seq<Location>, b: seq<Location>, va: seq<Loc>, vb: seq<Loc>)
    requires Holds(a, va) && Holds(b, vb)
    ensures Holds(a + b, va + vb)
  {
  }

  /** Every one of `locations` stands somewhere in `result`. */
  ghost predicate Placed(locations: seq<Location>, result: seq<Location>) {
    forall k | 0 <= k < |locations| :: locations[k] in result
  }

  lemma PlacedConcat(locations: seq<Location>, result: seq<Location>, l: Location, added: seq<Location>)
    requires Placed(locations, result) && added != [] && added[0] == l
    ensures Placed(locations + [l], result + added)
  {
    assert l in added;
  }

  lemma CompileSnoc(ls: seq<Loc>, l: Loc, exacts: set<string>)
    ensures CompileWith(ls + [l], exacts) == CompileWith(ls, exacts) + CompileOne(l, exacts)
  {
    assert (ls + [l])[..|ls|] == ls;
  }

  /** The loop body for one location: updates it in place and returns what takes its place. */
  method UpdateLocation(location: Location, exactLocations: map<string, Location>) returns (added: seq<Location>)
    modifies location
    ensures Holds(added, CompileOne(old(location.Value()), exactLocations.Keys))
    ensures added != [] && added[0] == location
    ensures forall p | 0 < p < |added| :: fresh(added[p])
  {
    // the root stays as it is
    if location.path == ROOT {
      return [location];
    }
    location.ingressPath := location.path;

    // an Exact location keeps its path
    if location.pathType != Prefix {
      return [location];
    }
    // and so does one that is rendered as a regular expression
    if NeedsRewrite(location.Value()) || location.useRegex {
      return [location];
    }
    if location.path in exactLocations {
      location.path := Normalize(location.path);
      return [location];
    }
    var el := new Location(location.Value());
    location.path := Normalize(location.path);
    el.pathType := Exact;
    return [location, el];
  }

  /** The locations of type Exact, by path. */
  method IndexExact(locations: seq<Location>) returns (exactLocations: map<string, Location>)
    ensures exactLocations.Keys == ExactPaths(Values(locations))
  {
    exactLocations := map[];
    ghost var vals := Values(locations);
    for i := 0 to |locations|
      invariant exactLocations.Keys == ExactPaths(vals[..i])
    {
      assert vals[..i + 1] == vals[..i] + [vals[i]];
      if locations[i].pathType == Exact {
        exactLocations := exactLocations[locations[i].path := locations[i]];
      }
    }
    assert vals[..|locations|] == vals;
  }

  /** Rewrites the paths of the given locations in place and adds exact copies where nginx needs them. */
  method UpdateServerLocations(locations: seq<Location>) returns (newLocations: seq<Location>)
    requires NoDup(locations)
    modifies locations
    ensures Values(newLocations) == Compile(old(Values(locations)))
    ensures forall l | l in locations :: l in newLocations
    ensures forall l | l in newLocations :: l in locations || fresh(l)
  {
    newLocations := [];
    ghost var before, vals: seq<Loc> := Values(locations), [];
    ghost var done: set<Location> := {};
    var exactLocations := IndexExact(locations);

    for i := 0 to |locations|
      invariant forall k | i <= k < |locations| :: locations[k].Value() == before[k] && locations[k] !in done
      invariant forall l | l in done :: l in locations
      invariant forall p | 0 <= p < |newLocations| :: newLocations[p] in done || fresh(newLocations[p])
      invariant Placed(locations[..i], newLocations)
      invariant Holds(newLocations, vals) && vals == CompileWith(before[..i], exactLocations.Keys)
    {
      ghost var one := CompileOne(before[i], exactLocations.Keys);
      var added := UpdateLocation(locations[i], exactLocations);
      CompileSnoc(before[..i], before[i], exactLocations.Keys);
      HoldsConcat(newLocations, added, vals, one);
      PlacedConcat(locations[..i], newLocations, locations[i], added);
      PrefixStep(before, i);
      PrefixStep(locations, i);
      vals, done := vals + one, done + {locations[i]};
      newLocations := newLocations + added;
    }
    assert before[..|locations|] == before && locations[..|locations|] == locations;
    assert Values(newLocations) == vals;
  }
}
