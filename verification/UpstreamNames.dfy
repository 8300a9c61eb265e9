/** Which services get an upstream of their own: what the names of upstreams tell apart, and which upstreams there
    are. */
module UpstreamNames {
  import opened Basics
  import opened Decimal
  import opened ServerBuilder
  import opened FirstClaim
  import opened IngressOrder

  // ----- How a name is spelled -----

  lemma {:induction false} PrintHasNoZero(n: nat)
    requires n > 0
    ensures Print(n)[0] != '0'
  {
    if n >= 10 {
      PrintHasNoZero(n / 10);
    }
  }

  /** A port with a number is spelled by it, whatever the port's name: "namespace-service-" and the digits. */
  lemma NumberSpelled(ns: string, s: ServiceRef)
    requires s.portNumber > 0
    ensures var name, head := UpstreamName(ns, Some(s)), ns + "-" + s.name + "-";
            && head < name
            && var digits := name[|head|..];
               IsNumeral(digits) && Read(digits) == s.portNumber && digits[0] != '0'
  {
    var name, head := UpstreamName(ns, Some(s)), ns + "-" + s.name + "-";
    ReadPrint(s.portNumber);
    PrintHasNoZero(s.portNumber);
    assert name == head + Print(s.portNumber) && name[|head|..] == Print(s.portNumber);
  }

  /** A port with only a name is spelled by that; a missing service or port has one name in its namespace. */
  lemma NamedSpelled(ns: string, s: ServiceRef)
    requires s.portNumber <= 0
    ensures s.portName != "" ==> UpstreamName(ns, Some(s)) == ns + "-" + s.name + "-" + s.portName
    ensures s.portName == "" ==> UpstreamName(ns, Some(s)) == UpstreamName(ns, None) == ns + "-INVALID"
  {
  }

  // ----- What a name tells apart -----

  lemma SameHead(a: string, b: string, x: string, y: string)
    requires a + x == b + y && |a| == |b|
    ensures a == b && x == y
  {
    assert a == (a + x)[..|a|] && b == (b + y)[..|b|];
    assert x == (a + x)[|a|..] && y == (b + y)[|b|..];
  }

  /** What stands after the last dash of a string. */
  lemma LastDash(a: string, b: string, x: string, y: string)
    requires a + "-" + x == b + "-" + y && '-' !in x && '-' !in y
    ensures a == b && x == y
  {
    var s := a + "-" + x;
    assert s[|a|] == '-' && s[|b|] == '-';
    assert forall i | |a| < i < |s| :: s[i] == x[i - |a| - 1];
    assert forall i | |b| < i < |s| :: s[i] == y[i - |b| - 1];
    assert |a| == |b|;
    assert s == a + ("-" + x) && s == b + ("-" + y);
    SameHead(a, b, "-" + x, "-" + y);
    assert x == ("-" + x)[1..] && y == ("-" + y)[1..];
  }

  /** Between ports with numbers: names are the same exactly for the same number and the same "namespace-service". */
  lemma NumbersToldApart(ns1: string, s1: ServiceRef, ns2: string, s2: ServiceRef)
    requires s1.portNumber > 0 && s2.portNumber > 0
    ensures UpstreamName(ns1, Some(s1)) == UpstreamName(ns2, Some(s2)) <==>
            s1.portNumber == s2.portNumber && ns1 + "-" + s1.name == ns2 + "-" + s2.name
  {
    if UpstreamName(ns1, Some(s1)) == UpstreamName(ns2, Some(s2)) {
      LastDash(ns1 + "-" + s1.name, ns2 + "-" + s2.name, Print(s1.portNumber), Print(s2.portNumber));
      PrintInjective(s1.portNumber, s2.portNumber);
    }
  }

  /** The port of a reference: its number if that is positive, otherwise its name if that is given. */
  datatype Port = Number(n: int) | Name(name: string) | Missing

  function PortOf(s: ServiceRef): Port {
    if s.portNumber > 0 then Number(s.portNumber) else if s.portName != "" then Name(s.portName) else Missing
  }

  /** No port's name is a numeral, as Kubernetes demands. */
  predicate ProperPort(s: ServiceRef) {
    s.portName != "" ==> exists i | 0 <= i < |s.portName| :: !IsDigit(s.portName[i])
  }

  /** Within a namespace and a service the upstream is that of the port, and all references without a port share one. */
  lemma PortsToldApart(ns: string, s1: ServiceRef, s2: ServiceRef)
    requires s1.name == s2.name && ProperPort(s1) && ProperPort(s2)
    ensures UpstreamName(ns, Some(s1)) == UpstreamName(ns, Some(s2)) <==> PortOf(s1) == PortOf(s2)
    ensures UpstreamName(ns, Some(s1)) == UpstreamName(ns, None) <==> PortOf(s1) == Missing
  {
    NeverInvalid(ns, s1);
    NeverInvalid(ns, s2);
    if UpstreamName(ns, Some(s1)) == UpstreamName(ns, Some(s2)) && PortOf(s1) != Missing && PortOf(s2) != Missing {
      var head := ns + "-" + s1.name + "-";
      SameHead(head, head, Spelling(s1), Spelling(s2));
      if s1.portNumber > 0 && s2.portNumber > 0 {
        PrintInjective(s1.portNumber, s2.portNumber);
      }
    }
  }

  function Spelling(s: ServiceRef): string {
    if s.portNumber > 0 then Print(s.portNumber) else s.portName
  }

  /** A dash after the service's name tells a reference with a port from one without. */
  lemma NeverInvalid(ns: string, s: ServiceRef)
    ensures UpstreamName(ns, Some(s)) == UpstreamName(ns, None) <==> PortOf(s) == Missing
  {
    if PortOf(s) != Missing {
      var tail := s.name + "-" + Spelling(s);
      assert UpstreamName(ns, Some(s)) == (ns + "-") + tail && UpstreamName(ns, None) == (ns + "-") + "INVALID";
      assert tail[|s.name|] == '-' && '-' !in "INVALID";
      if (ns + "-") + tail == (ns + "-") + "INVALID" {
        SameHead(ns + "-", ns + "-", tail, "INVALID");
      }
    }
  }

  lemma SameTail(a: string, b: string, x: string)
    ensures a + x == b + x <==> a == b
  {
    if a + x == b + x {
      assert |a| + |x| == |b| + |x|;
      SameHead(a, b, x, x);
    }
  }

  /** References that differ in the namespace only have different names. */
  lemma NamespacesToldApart(ns1: string, ns2: string, service: Option<ServiceRef>)
    ensures UpstreamName(ns1, service) == UpstreamName(ns2, service) <==> ns1 == ns2
  {
    var tail := if service.None? || PortOf(service.value) == Missing then "-INVALID"
                else "-" + service.value.name + "-" + Spelling(service.value);
    assert forall ns :: UpstreamName(ns, service) == ns + tail;
    SameTail(ns1, ns2, tail);
  }

  /** And so have those that differ in the service only, if they have a port. */
  lemma ServicesToldApart(ns: string, s: ServiceRef, name: string)
    requires PortOf(s) != Missing
    ensures UpstreamName(ns, Some(s)) == UpstreamName(ns, Some(s.(name := name))) <==> s.name == name
  {
    var end := "-" + Spelling(s);
    assert forall n :: UpstreamName(ns, Some(s.(name := n))) == (ns + "-" + n) + end;
    assert s.(name := s.name) == s;
    SameTail(ns + "-" + s.name, ns + "-" + name, end);
    if ns + "-" + s.name == ns + "-" + name {
      assert |s.name| == |name|;
      SameHead(ns + "-", ns + "-", s.name, name);
    }
  }

  /** Different namespaces and services can share a name, because a dash can belong to either. */
  lemma DashesShareNames(a: string, b: string, c: string, port: int)
    requires port > 0
    ensures UpstreamName(a, Some(ServiceRef(b + "-" + c, port, ""))) ==
            UpstreamName(a + "-" + b, Some(ServiceRef(c, port, "")))
  {
    assert a + "-" + (b + "-" + c) == (a + "-" + b) + "-" + c;
    NumbersToldApart(a, ServiceRef(b + "-" + c, port, ""), a + "-" + b, ServiceRef(c, port, ""));
  }

  // ----- Which upstreams there are -----

  /** Ingress `i` has the default backend `service`. */
  predicate HasDefault(ings: seq<Ingress>, i: nat, service: ServiceRef) {
    i < |ings| && ings[i].defaultBackend == Some(Some(service))
  }

  lemma {:induction false} DefaultUsed(ings: seq<Ingress>, i: nat, service: ServiceRef)
    requires HasDefault(ings, i, service)
    ensures Use(UpstreamName(ings[i].ns, Some(service)), ings[i].canary, true) in Uses(ings)
  {
    if i < |ings| - 1 {
      DefaultUsed(ings[..|ings| - 1], i, service);
    }
  }

  /** The service of a use: a default backend's or a path's. */
  ghost predicate IsUsed(ings: seq<Ingress>, u: Use) {
    || (exists at :: ServicePath(ings, at) && u.name == UpstreamName(ings[at.i].ns, PathAt(ings, at).service)
                     && u.canary == ings[at.i].canary && !u.isDefault)
    || (exists i: nat, service :: HasDefault(ings, i, service) && u.name == UpstreamName(ings[i].ns, Some(service))
                     && u.canary == ings[i].canary && u.isDefault)
  }

  lemma {:induction false} UsesAre(ings: seq<Ingress>, u: Use)
    requires u in Uses(ings)
    ensures IsUsed(ings, u)
  {
    var n := |ings| - 1;
    var ing, refs := ings[n], RuleRefs(ings[n], n, ings[n].rules);
    if u in Uses(ings[..n]) {
      UsesAre(ings[..n], u);
      if at :| ServicePath(ings[..n], at) && u.name == UpstreamName(ings[..n][at.i].ns, PathAt(ings[..n], at).service)
               && u.canary == ings[..n][at.i].canary && !u.isDefault {
        assert ServicePath(ings, at) && PathAt(ings, at) == PathAt(ings[..n], at);
      } else {
        var i: nat, service :| HasDefault(ings[..n], i, service)
                               && u.name == UpstreamName(ings[..n][i].ns, Some(service))
                               && u.canary == ings[..n][i].canary && u.isDefault;
        assert HasDefault(ings, i, service);
      }
    } else if u in DefaultUses(ing) {
      assert HasDefault(ings, n, ing.defaultBackend.value.value);
    } else {
      var m :| 0 <= m < |refs| && PathUses(refs)[m] == u;
      assert refs[m] in refs;
      RefInRefs(ings, n, refs[m]);
      UsedByPath(ings, refs[m], u);
    }
  }

  lemma UsedByPath(ings: seq<Ingress>, r: Ref, u: Use)
    requires r in Refs(ings) && u == Use(r.name, r.canary, false)
    ensures IsUsed(ings, u)
  {
    RefsAt(ings);
    var m :| 0 <= m < |Refs(ings)| && Refs(ings)[m] == r;
    var at := Positions(ings)[m];
    assert ServicePath(ings, at) && r == RefAt(ings, at);
  }

  /** The upstreams are the default one and exactly those of the services that paths and default backends name. */
  lemma UpstreamsExact(ings: seq<Ingress>, n: string)
    ensures n in UpstreamsOf(Uses(ings)) <==>
            || n == "upstream-default-backend"
            || (exists at :: ServicePath(ings, at) && n == UpstreamName(ings[at.i].ns, PathAt(ings, at).service))
            || (exists i: nat, service :: HasDefault(ings, i, service) && n == UpstreamName(ings[i].ns, Some(service)))
  {
    NamesAreKeys(Uses(ings));
    if n in UpstreamsOf(Uses(ings)) && n != DEF_UPSTREAM {
      CreatedIsUsed(Uses(ings), n);
      var u :| u in Uses(ings) && u.name == n;
      UsesAre(ings, u);
    }
    if at :| ServicePath(ings, at) && n == UpstreamName(ings[at.i].ns, PathAt(ings, at).service) {
      RefAtIn(ings, at);
      RefIsUse(ings, RefAt(ings, at));
      UsedCreated(ings, Use(n, ings[at.i].canary, false));
    }
    if i: nat, service :| HasDefault(ings, i, service) && n == UpstreamName(ings[i].ns, Some(service)) {
      DefaultUsed(ings, i, service);
      UsedCreated(ings, Use(n, ings[i].canary, true));
    }
  }

  lemma UsedCreated(ings: seq<Ingress>, u: Use)
    requires u in Uses(ings)
    ensures u.name in UpstreamsOf(Uses(ings))
  {
    var k :| 0 <= k < |Uses(ings)| && Uses(ings)[k] == u;
    UsedIsCreated(Uses(ings), k);
  }

  /** Two paths of a namespace that name different ports of a service have two upstreams. */
  lemma PortsHaveUpstreams(ings: seq<Ingress>, a: Position, b: Position)
    requires ServicePath(ings, a) && ServicePath(ings, b) && ings[a.i].ns == ings[b.i].ns
    requires var s, t := PathAt(ings, a).service.value, PathAt(ings, b).service.value;
             s.name == t.name && ProperPort(s) && ProperPort(t) && PortOf(s) != PortOf(t)
    ensures var n, m := UpstreamName(ings[a.i].ns, PathAt(ings, a).service),
                        UpstreamName(ings[b.i].ns, PathAt(ings, b).service);
            n != m && n in UpstreamsOf(Uses(ings)) && m in UpstreamsOf(Uses(ings))
  {
    PortsToldApart(ings[a.i].ns, PathAt(ings, a).service.value, PathAt(ings, b).service.value);
    UpstreamsExact(ings, UpstreamName(ings[a.i].ns, PathAt(ings, a).service));
    UpstreamsExact(ings, UpstreamName(ings[b.i].ns, PathAt(ings, b).service));
  }

  /** So their locations, where they are the first to ask, have different backends. */
  lemma PortsHaveBackends(ings: seq<Ingress>, a: Position, b: Position, host: string, k: nat, l: nat)
    requires Disjoint(ings) && host in BuiltServers(ings)
    requires ServicePath(ings, a) && ServicePath(ings, b) && ings[a.i].ns == ings[b.i].ns
    requires var s, t := PathAt(ings, a).service.value, PathAt(ings, b).service.value;
             s.name == t.name && ProperPort(s) && ProperPort(t) && PortOf(s) != PortOf(t)
    requires AsksFirst(ings, a, host, RefAt(ings, a).path, PathAt(ings, a).pathType)
    requires AsksFirst(ings, b, host, RefAt(ings, b).path, PathAt(ings, b).pathType)
    requires RefAt(ings, a).path != "/" && RefAt(ings, b).path != "/"
    requires IsFirst(BuiltServers(ings)[host], k, RefAt(ings, a).path, PathAt(ings, a).pathType)
    requires IsFirst(BuiltServers(ings)[host], l, RefAt(ings, b).path, PathAt(ings, b).pathType)
    ensures BuiltServers(ings)[host][k].backend != BuiltServers(ings)[host][l].backend
  {
    PortsHaveUpstreams(ings, a, b);
    FirstPathWins(ings, host, RefAt(ings, a).path, PathAt(ings, a).pathType);
    FirstPathWins(ings, host, RefAt(ings, b).path, PathAt(ings, b).pathType);
  }
}
