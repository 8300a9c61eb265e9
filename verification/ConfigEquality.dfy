/** Structural comparison of two generated configurations.

    Each `...Equal` predicate is the Equal method of its type: it looks at the fields the program compares and
    at no others.  Annotation settings that are compared field by field are one opaque string. */
module ConfigEquality {
  import opened Basics
  import opened Matching

  /** A Go slice, which may be nil. */
  type List<T> = s: Slice<T> | !s.NotIterable? witness Nil

  datatype Service = Service(ns: string, name: string, spec: string)
  datatype Target = Target(uid: string, resourceVersion: string)
  datatype Endpoint = Endpoint(address: string, port: string, target: Option<Target>)
  datatype Cookie = Cookie(compared: string, locations: map<string, seq<string>>, changeOnFailure: bool)
  datatype Affinity = Affinity(affinityType: string, mode: string, cookie: Cookie)
  datatype Policy = Policy(weight: int, weightTotal: int, header: string, headerValue: string,
                           headerPattern: string, cookie: string)
  datatype Backend = Backend(name: string, service: Option<Service>, port: string, sslPassthrough: bool,
                             endpoints: List<Endpoint>, affinity: Affinity, hashBy: string, loadBalancing: string,
                             noServer: bool, policy: Policy, alternatives: List<string>)
  datatype Cert = Cert(uid: string, pem: string, fingerprint: string, cn: List<string>,
                       ns: string, name: string, pemFileName: string)
  datatype Location = Location(path: string, pathType: string, ingress: string, ingressPath: string,
                               isDefBackend: bool, defaultBackend: string,
                               backend: string, service: Option<Service>, port: string,
                               customErrors: List<int>, annotations: string)
  datatype Server = Server(hostname: string, sslPassthrough: bool, sslCert: Option<Cert>,
                           locations: seq<Location>, aliases: seq<string>, redirectFromToWWW: bool, settings: string)
  datatype Passthrough = Passthrough(backend: string, hostname: string, port: string, service: Option<Service>)
  datatype L4Service = L4Service(port: int, backend: string, endpoints: List<Endpoint>, service: Option<Service>)
  datatype Configuration = Configuration(backends: List<Backend>, servers: seq<Server>,
                                         tcp: List<L4Service>, udp: List<L4Service>,
                                         passthrough: seq<Passthrough>, backendConfigChecksum: string,
                                         configurationChecksum: string, defaultCert: Option<Cert>,
                                         streamSnippets: seq<string>)

  // ----- Comparison of the parts -----

  /** Services are told apart by namespace and name only. */
  predicate ServiceEqual(a: Option<Service>, b: Option<Service>) {
    match (a, b)
    case (None, None) => true
    case (Some(x), Some(y)) => x.ns == y.ns && x.name == y.name
    case _ => false
  }

  predicate StringEqual(a: string, b: string) { a == b }

  predicate IntEqual(a: int, b: int) { a == b }

  predicate EndpointEqual(a: Endpoint, b: Endpoint) {
    a.address == b.address && a.port == b.port && a.target == b.target
  }

  predicate AffinityEqual(a: Affinity, b: Affinity) {
    a.affinityType == b.affinityType && a.mode == b.mode && a.cookie.compared == b.cookie.compared
  }

  predicate PolicyEqual(a: Policy, b: Policy) {
    && a.weight == b.weight && a.header == b.header && a.headerValue == b.headerValue
    && a.headerPattern == b.headerPattern && a.cookie == b.cookie
  }

  predicate BackendEqual(a: Backend, b: Backend) {
    && a.name == b.name && a.noServer == b.noServer
    && ServiceEqual(a.service, b.service)
    && a.port == b.port && a.sslPassthrough == b.sslPassthrough
    && AffinityEqual(a.affinity, b.affinity)
    && a.hashBy == b.hashBy && a.loadBalancing == b.loadBalancing
    && Matches(a.endpoints, b.endpoints, EndpointEqual)
    && PolicyEqual(a.policy, b.policy)
    && Matches(a.alternatives, b.alternatives, StringEqual)
  }

  predicate CertEqual(a: Option<Cert>, b: Option<Cert>) {
    match (a, b)
    case (None, None) => true
    case (Some(x), Some(y)) =>
      x.uid == y.uid && x.pem == y.pem && x.fingerprint == y.fingerprint && Matches(x.cn, y.cn, StringEqual)
    case _ => false
  }

  predicate LocationEqual(a: Location, b: Location) {
    && a.path == b.path && a.isDefBackend == b.isDefBackend && a.backend == b.backend
    && ServiceEqual(a.service, b.service)
    && a.port == b.port && a.annotations == b.annotations
    && Matches(a.customErrors, b.customErrors, IntEqual)
  }

  predicate LocationsEqual(a: seq<Location>, b: seq<Location>) {
    |a| == |b| && forall i | 0 <= i < |a| :: LocationEqual(a[i], b[i])
  }

  /** Every alias of the first list occurs in the second. */
  predicate Included(a: seq<string>, b: seq<string>) {
    forall x | x in a :: x in b
  }

  /** Two servers up to their certificates. */
  predicate ServerShapeEqual(a: Server, b: Server) {
    && a.hostname == b.hostname && a.sslPassthrough == b.sslPassthrough
    && |a.aliases| == |b.aliases| && Included(a.aliases, b.aliases)
    && a.redirectFromToWWW == b.redirectFromToWWW && a.settings == b.settings
    && LocationsEqual(a.locations, b.locations)
  }

  predicate ServerEqual(a: Server, b: Server) {
    ServerShapeEqual(a, b) && CertEqual(a.sslCert, b.sslCert)
  }

  predicate PassthroughEqual(a: Passthrough, b: Passthrough) {
    && a.backend == b.backend && a.hostname == b.hostname && a.port == b.port
    && ServiceEqual(a.service, b.service)
  }

  predicate L4Equal(a: L4Service, b: L4Service) {
    a.port == b.port && a.backend == b.backend && Matches(a.endpoints, b.endpoints, EndpointEqual)
  }

  predicate ServersEqual(a: seq<Server>, b: seq<Server>) {
    |a| == |b| && forall i | 0 <= i < |a| :: ServerEqual(a[i], b[i])
  }

  predicate HasEqual(x: Passthrough, ps: seq<Passthrough>) {
    exists y | y in ps :: PassthroughEqual(x, y)
  }

  /** Every entry of the first list has an equal entry in the second, and the lists are as long. */
  predicate PassthroughsEqual(a: seq<Passthrough>, b: seq<Passthrough>) {
    |a| == |b| && forall x | x in a :: HasEqual(x, b)
  }

  predicate ConfigEqual(a: Configuration, b: Configuration) {
    && CertEqual(a.defaultCert, b.defaultCert)
    && Matches(a.backends, b.backends, BackendEqual)
    && ServersEqual(a.servers, b.servers)
    && Matches(a.tcp, b.tcp, L4Equal)
    && Matches(a.udp, b.udp, L4Equal)
    && PassthroughsEqual(a.passthrough, b.passthrough)
    && a.backendConfigChecksum == b.backendConfigChecksum
  }

  // ----- The comparisons that search with loops -----

  method CompareServers(s1: Server, s2: Server) returns (r: bool)
    ensures r == ServerEqual(s1, s2)
  {
    if s1.hostname != s2.hostname || s1.sslPassthrough != s2.sslPassthrough || !CertEqual(s1.sslCert, s2.sslCert) {
      return false;
    }
    if |s1.aliases| != |s2.aliases| {
      return false;
    }
    for i := 0 to |s1.aliases|
      invariant Included(s1.aliases[..i], s2.aliases)
    {
      assert s1.aliases[..i + 1] == s1.aliases[..i] + [s1.aliases[i]];
      var found := false;
      for j := 0 to |s2.aliases|
        invariant !found && s1.aliases[i] !in s2.aliases[..j]
      {
        assert s2.aliases[..j + 1] == s2.aliases[..j] + [s2.aliases[j]];
        if s1.aliases[i] == s2.aliases[j] {
          found := true;
          break;
        }
      }
      if !found {
        assert s1.aliases[i] in s1.aliases;
        return false;
      }
    }
    assert s1.aliases[..|s1.aliases|] == s1.aliases;
    if s1.redirectFromToWWW != s2.redirectFromToWWW || s1.settings != s2.settings || |s1.locations| != |s2.locations| {
      return false;
    }
    for i := 0 to |s1.locations|
      invariant forall k | 0 <= k < i :: LocationEqual(s1.locations[k], s2.locations[k])
    {
      if !LocationEqual(s1.locations[i], s2.locations[i]) {
        return false;
      }
    }
    return true;
  }

  method ComparePassthroughs(p1: seq<Passthrough>, p2: seq<Passthrough>) returns (r: bool)
    ensures r == PassthroughsEqual(p1, p2)
  {
    if |p1| != |p2| {
      return false;
    }
    for i := 0 to |p1|
      invariant forall k | 0 <= k < i :: HasEqual(p1[k], p2)
    {
      var found := false;
      for j := 0 to |p2|
        invariant !found && forall k | 0 <= k < j :: !PassthroughEqual(p1[i], p2[k])
      {
        if PassthroughEqual(p1[i], p2[j]) {
          found := true;
          break;
        }
      }
      if !found {
        assert p1[i] in p1 && !HasEqual(p1[i], p2);
        return false;
      }
    }
    return true;
  }

  method CompareConfigurations(c1: Configuration, c2: Configuration) returns (r: bool)
    ensures r == ConfigEqual(c1, c2)
  {
    if !CertEqual(c1.defaultCert, c2.defaultCert) {
      return false;
    }
    var backendsMatch := Compare(c1.backends, c2.backends, BackendEqual);
    if !backendsMatch || |c1.servers| != |c2.servers| {
      return false;
    }
    for i := 0 to |c1.servers|
      invariant forall k | 0 <= k < i :: ServerEqual(c1.servers[k], c2.servers[k])
    {
      var same := CompareServers(c1.servers[i], c2.servers[i]);
      if !same {
        return false;
      }
    }
    var tcpMatch := Compare(c1.tcp, c2.tcp, L4Equal);
    if !tcpMatch {
      return false;
    }
    var udpMatch := Compare(c1.udp, c2.udp, L4Equal);
    if !udpMatch {
      return false;
    }
    var passthroughMatch := ComparePassthroughs(c1.passthrough, c2.passthrough);
    return passthroughMatch && c1.backendConfigChecksum == c2.backendConfigChecksum;
  }

  // ----- Whether a change can be applied without a reload -----

  function ClearL4One(s: L4Service): L4Service {
    s.(endpoints := Items([]), service := None)
  }

  function ClearServer(s: Server): Server {
    s.(sslCert := None)
  }

  /** A nil slice to which the cleared services were appended: it stays nil when there are none. */
  function ClearL4(l: List<L4Service>): List<L4Service> {
    if l.Nil? || l.elems == [] then Nil
    else Items(seq(|l.elems|, i requires 0 <= i < |l.elems| => ClearL4One(l.elems[i])))
  }

  function ClearServers(servers: seq<Server>): (r: seq<Server>)
    ensures |r| == |servers|
  {
    seq(|servers|, i requires 0 <= i < |servers| => ClearServer(servers[i]))
  }

  /** A configuration without what the running nginx can be told while it runs. */
  function Erase(c: Configuration): Configuration {
    c.(backends := Items([]), servers := ClearServers(c.servers), tcp := ClearL4(c.tcp), udp := ClearL4(c.udp))
  }

  predicate DynamicEnough(running: Configuration, pcfg: Configuration) {
    ConfigEqual(Erase(running), Erase(pcfg))
  }
}
