/** The reload decision on the configuration objects themselves.  It copies both configurations shallowly, so the
    copies share their servers with the originals, and clears the copies. */
module ReloadDecision {
  import opened Basics
  import opened Matching
  import opened ConfigEquality

  class ServerObject {
    var hostname: string
    var sslPassthrough: bool
    var sslCert: Option<Cert>
    var locations: seq<Location>
    var aliases: seq<string>
    var redirectFromToWWW: bool
    var settings: string

    /** A new server holding the given values, as a struct copy makes it. */
    constructor (s: Server)
      ensures Value() == s
    {
      hostname, sslPassthrough, sslCert := s.hostname, s.sslPassthrough, s.sslCert;
      locations, aliases := s.locations, s.aliases;
      redirectFromToWWW, settings := s.redirectFromToWWW, s.settings;
    }

    function Value(): Server
      reads this
    {
      Server(hostname, sslPassthrough, sslCert, locations, aliases, redirectFromToWWW, settings)
    }
  }

  function ServerValues(servers: seq<ServerObject>): (r: seq<Server>)
    reads servers
    ensures |r| == |servers|
    ensures forall k | 0 <= k < |r| :: r[k] == servers[k].Value()
  {
    seq(|servers|, i requires 0 <= i < |servers| reads servers => servers[i].Value())
  }

  class ConfigurationObject {
    var backends: List<Backend>
    var servers: seq<ServerObject>
    var tcp: List<L4Service>
    var udp: List<L4Service>
    var passthrough: seq<Passthrough>
    var backendConfigChecksum: string
    var configurationChecksum: string
    var defaultCert: Option<Cert>
    var streamSnippets: seq<string>

    function Value(): Configuration
      reads this, servers
    {
      Configuration(backends, ServerValues(servers), tcp, udp, passthrough, backendConfigChecksum,
                    configurationChecksum, defaultCert, streamSnippets)
    }

    /** A shallow copy: another configuration with the same servers. */
    constructor Copy(c: ConfigurationObject)
      ensures servers == c.servers && Value() == c.Value()
    {
      backends, servers, tcp, udp := c.backends, c.servers, c.tcp, c.udp;
      passthrough, backendConfigChecksum := c.passthrough, c.backendConfigChecksum;
      configurationChecksum, defaultCert, streamSnippets := c.configurationChecksum, c.defaultCert, c.streamSnippets;
    }

    /** Replaces the servers by copies without certificates. */
    method ClearCertificates()
      modifies `servers
      ensures Value() == old(Value()).(servers := ClearServers(old(Value()).servers))
      ensures forall s | s in servers :: fresh(s)
    {
      var clearedServers: seq<ServerObject> := [];
      for i := 0 to |servers|
        invariant servers == old(servers) && |clearedServers| == i
        invariant forall s | s in clearedServers :: fresh(s)
        invariant forall k | 0 <= k < i :: clearedServers[k].Value() == ClearServer(servers[k].Value())
      {
        var copyOfServer := new ServerObject(servers[i].Value());
        copyOfServer.sslCert := None;
        clearedServers := clearedServers + [copyOfServer];
      }
      servers := clearedServers;
    }

    /** Replaces the stream services by copies without endpoints and Service. */
    method ClearL4ServiceEndpoints()
      modifies `tcp, `udp
      ensures Value() == old(Value()).(tcp := ClearL4(old(tcp)), udp := ClearL4(old(udp)))
    {
      var clearedTCP := ClearL4Services(tcp);
      var clearedUDP := ClearL4Services(udp);
      tcp, udp := clearedTCP, clearedUDP;
    }
  }

  method ClearL4Services(services: List<L4Service>) returns (cleared: List<L4Service>)
    ensures cleared == ClearL4(services)
  {
    cleared := Nil;
    var elems := if services.Nil? then [] else services.elems;
    for i := 0 to |elems|
      invariant cleared == ClearL4(Items(elems[..i]))
    {
      var copyOfService := L4Service(elems[i].port, elems[i].backend, Items([]), None);
      cleared := Items((if cleared.Nil? then [] else cleared.elems) + [copyOfService]);
    }
    assert elems[..|elems|] == elems;
  }

  /** A copy without what a running nginx can be told. */
  method ErasedCopy(c: ConfigurationObject) returns (copy: ConfigurationObject)
    ensures fresh(copy) && copy.Value() == Erase(c.Value())
  {
    copy := new ConfigurationObject.Copy(c);
    copy.backends := Items([]);
    copy.ClearL4ServiceEndpoints();
    copy.ClearCertificates();
  }

  /** Whether the configuration can be applied without a reload.  Neither configuration, nor any server of one,
      is modified. */
  method IsDynamicConfigurationEnough(running: ConfigurationObject, pcfg: ConfigurationObject) returns (r: bool)
    ensures r == DynamicEnough(running.Value(), pcfg.Value())
  {
    var copyOfRunning := ErasedCopy(running);
    var copyOfPcfg := ErasedCopy(pcfg);
    r := CompareConfigurations(copyOfRunning.Value(), copyOfPcfg.Value());
  }
}
