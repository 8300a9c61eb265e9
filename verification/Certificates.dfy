/** The certificates that nginx is told: the maps that are posted, and the dictionaries that the Lua code keeps and
    looks host names up in. */
module Certificates {
  import opened Basics
  import opened ConfigEquality
  import opened Redirects

  const EMPTY_UID := "-1"

  /** Certificates by identifier, and the identifier for every host name. */
  datatype SSLConfiguration = SSLConfiguration(certificates: map<string, string>, servers: map<string, string>)

  // ----- What is posted -----

  function UidOf(cert: Option<Cert>): string {
    if cert.Some? then cert.value.uid else EMPTY_UID
  }

  function WithPem(pems: map<string, string>, cert: Option<Cert>): map<string, string> {
    if cert.None? || cert.value.uid in pems then pems else pems[cert.value.uid := cert.value.pem]
  }

  function ConfigureHost(c: SSLConfiguration, host: string, cert: Option<Cert>): SSLConfiguration {
    SSLConfiguration(WithPem(c.certificates, cert), c.servers[host := UidOf(cert)])
  }

  /** An alias is told the certificate only if that is for the alias too. */
  function AliasUid(alias: string, cert: Option<Cert>): string {
    if cert.Some? && IsValidHostname(alias, cert.value.cn) then cert.value.uid else EMPTY_UID
  }

  function AliasUids(aliases: seq<string>, cert: Option<Cert>): map<string, string> {
    map a | a in aliases :: AliasUid(a, cert)
  }

  function PostServer(c: SSLConfiguration, s: Server): SSLConfiguration {
    var c' := ConfigureHost(c, s.hostname, s.sslCert);
    c'.(servers := c'.servers + AliasUids(s.aliases, s.sslCert))
  }

  function PostServers(servers: seq<Server>): SSLConfiguration {
    if servers == [] then SSLConfiguration(map[], map[])
    else PostServer(PostServers(servers[..|servers| - 1]), servers[|servers| - 1])
  }

  function PostRedirects(c: SSLConfiguration, rs: seq<Redirect>): SSLConfiguration {
    if rs == [] then c
    else
      var r := rs[|rs| - 1];
      ConfigureHost(PostRedirects(c, rs[..|rs| - 1]), r.from, r.sslCert)
  }

  function Posted(servers: seq<Server>): SSLConfiguration {
    PostRedirects(PostServers(servers), RedirectsOf(servers))
  }

  // ----- The programs -----

  /** Adds the aliases of one server. */
  method ConfigureAliases(servers: map<string, string>, aliases: seq<string>, cert: Option<Cert>)
    returns (r: map<string, string>)
    ensures r == servers + AliasUids(aliases, cert)
  {
    r := servers;
    for j := 0 to |aliases|
      invariant r == servers + AliasUids(aliases[..j], cert)
    {
      AliasUidsStep(servers, aliases, j, cert);
      if cert.Some? && IsValidHostname(aliases[j], cert.value.cn) {
        r := r[aliases[j] := cert.value.uid];
      } else {
        r := r[aliases[j] := EMPTY_UID];
      }
    }
    WholePrefix(aliases);
  }

  lemma AliasUidsStep(servers: map<string, string>, aliases: seq<string>, j: nat, cert: Option<Cert>)
    requires j < |aliases|
    ensures servers + AliasUids(aliases[..j + 1], cert) ==
            (servers + AliasUids(aliases[..j], cert))[aliases[j] := AliasUid(aliases[j], cert)]
  {
    PrefixStep(aliases, j);
  }

  /** Builds the configuration that is posted. */
  method ConfigureCertificates(rawServers: seq<Server>) returns (configuration: SSLConfiguration)
    ensures configuration == Posted(rawServers)
  {
    configuration := SSLConfiguration(map[], map[]);
    for i := 0 to |rawServers|
      invariant configuration == PostServers(rawServers[..i])
    {
      var rawServer := rawServers[i];
      PrefixDropsLast(rawServers, i);
      configuration := ConfigureHost(configuration, rawServer.hostname, rawServer.sslCert);
      var told := ConfigureAliases(configuration.servers, rawServer.aliases, rawServer.sslCert);
      configuration := configuration.(servers := told);
    }
    WholePrefix(rawServers);
    var redirects := BuildRedirects(rawServers);
    ghost var told := configuration;
    for i := 0 to |redirects|
      invariant configuration == PostRedirects(told, redirects[..i])
    {
      PrefixDropsLast(redirects, i);
      configuration := ConfigureHost(configuration, redirects[i].from, redirects[i].sslCert);
    }
    WholePrefix(redirects);
  }

  /** What a post makes of the host names: entries are replaced, and for the empty identifier deleted; everything
      else stays. */
  function ToldHosts(held: map<string, string>, post: map<string, string>): map<string, string> {
    map h | h in held.Keys + post.Keys && (h in post ==> post[h] != EMPTY_UID) :: if h in post then post[h] else held[h]
  }

  function Told(held: SSLConfiguration, post: SSLConfiguration): SSLConfiguration {
    SSLConfiguration(held.certificates + post.certificates, ToldHosts(held.servers, post.servers))
  }

  class Dictionaries {
    var held: SSLConfiguration

    constructor ()
      ensures held == SSLConfiguration(map[], map[])
    {
      held := SSLConfiguration(map[], map[]);
    }

    /** Takes in the posted host names; the map is walked in an arbitrary order. */
    method TakeHosts(post: map<string, string>)
      modifies this
      ensures held == old(held).(servers := ToldHosts(old(held).servers, post))
    {
      var servers, left := held.servers, post.Keys;
      while left != {}
        invariant left <= post.Keys
        invariant forall h :: h in servers <==>
                    if h in post && h !in left then post[h] != EMPTY_UID else h in held.servers
        invariant forall h | h in servers :: servers[h] == if h in post && h !in left then post[h] else held.servers[h]
        decreases left
      {
        var server :| server in left;
        left := left - {server};
        servers := if post[server] == EMPTY_UID then servers - {server} else servers[server := post[server]];
      }
      assert servers == ToldHosts(held.servers, post);
      held := held.(servers := servers);
    }

    /** Takes in the posted certificates. */
    method TakeCertificates(post: map<string, string>)
      modifies this
      ensures held == old(held).(certificates := old(held).certificates + post)
    {
      var certificates, left := held.certificates, post.Keys;
      while left != {}
        invariant left <= post.Keys
        invariant forall u :: u in certificates <==> u in held.certificates || (u in post && u !in left)
        invariant forall u | u in certificates ::
                    certificates[u] == if u in post && u !in left then post[u] else held.certificates[u]
        decreases left
      {
        var uid :| uid in left;
        left := left - {uid};
        certificates := certificates[uid := post[uid]];
      }
      assert certificates == held.certificates + post;
      held := held.(certificates := certificates);
    }

    method HandleServers(configuration: SSLConfiguration)
      modifies this
      ensures held == Told(old(held), configuration)
    {
      TakeHosts(configuration.servers);
      TakeCertificates(configuration.certificates);
    }

    /** The lookup of the status endpoint: the exact name only.  Under a held name in its normal form it answers what
        a client is presented. */
    method GetPemCert(hostname: string) returns (pem: Option<string>)
      ensures pem.Some? <==> hostname in held.servers && held.servers[hostname] in held.certificates
      ensures hostname in held.servers && NormalName(hostname) == hostname ==> pem == Presented(held, Some(hostname))
    {
      if hostname !in held.servers {
        return None;
      }
      var uid := held.servers[hostname];
      Lookup(held.servers, Some(hostname));
      return if uid in held.certificates then Some(held.certificates[uid]) else None;
    }

    /** The identifier for a name: held under the name itself, or under its wildcard. */
    method GetPemCertUid(rawHostname: string) returns (uid: Option<string>)
      ensures uid == FirstHeld(held.servers, NamesFor(rawHostname))
    {
      var hostname := LowerName(WithoutFinalDot(rawHostname));
      TwoNames(held.servers, hostname, WildcardName(hostname));
      if hostname in held.servers {
        return Some(held.servers[hostname]);
      }
      var wildcardHostname := WildcardName(hostname);
      uid := if wildcardHostname in held.servers then Some(held.servers[wildcardHostname]) else None;
    }

    /** The certificate presented in a handshake for the name that the client gives, if it gives one; None leaves the
        certificate that is configured as a fallback. */
    method Call(serverName: Option<string>) returns (pem: Option<string>)
      ensures pem == Presented(held, serverName)
    {
      var hostname := if serverName.Some? then serverName.value else DEFAULT_CERT_HOSTNAME;
      var uid := GetPemCertUid(hostname);
      if uid.None? {
        uid := GetPemCertUid(DEFAULT_CERT_HOSTNAME);
      }
      FirstHeldConcat(held.servers, NamesFor(hostname), NamesFor(DEFAULT_CERT_HOSTNAME));
      if uid.None? || uid.value !in held.certificates {
        return None;
      }
      return Some(held.certificates[uid.value]);
    }
  }

  // ----- What is presented -----

  const DEFAULT_CERT_HOSTNAME := "_"

  function LowerName(name: string): (r: string)
    ensures |r| == |name| && forall i | 0 <= i < |name| :: r[i] == Lower(name[i])
  {
    seq(|name|, i requires 0 <= i < |name| => Lower(name[i]))
  }

  function WithoutFinalDot(name: string): string {
    if name != "" && name[|name| - 1] == '.' then name[..|name| - 1] else name
  }

  /** The name under which a client's name is looked up. */
  function NormalName(name: string): string {
    LowerName(WithoutFinalDot(name))
  }

  /** The name with its first label replaced; a name of one label, or with an empty first one, has no other. */
  function WildcardName(name: string): string {
    var rest := AfterLabel(name);
    if rest != "" && |rest| < |name| then "*" + rest else name
  }

  function NamesFor(name: string): seq<string> {
    [NormalName(name), WildcardName(NormalName(name))]
  }

  /** The names that are looked up in a handshake, in this order: the client's name, its wildcard, and the name of the
      default certificate. */
  function Candidates(serverName: Option<string>): seq<string> {
    NamesFor(if serverName.Some? then serverName.value else DEFAULT_CERT_HOSTNAME) + NamesFor(DEFAULT_CERT_HOSTNAME)
  }

  /** The identifier under the first of the names that is held at all. */
  function FirstHeld(servers: map<string, string>, names: seq<string>): Option<string> {
    if names == [] then None
    else if names[0] in servers then Some(servers[names[0]])
    else FirstHeld(servers, names[1..])
  }

  lemma {:induction false} FirstHeldConcat(servers: map<string, string>, a: seq<string>, b: seq<string>)
    ensures FirstHeld(servers, a + b) ==
            if FirstHeld(servers, a).Some? then FirstHeld(servers, a) else FirstHeld(servers, b)
  {
    if a == [] {
      assert a + b == b;
    } else {
      assert (a + b)[1..] == a[1..] + b;
      FirstHeldConcat(servers, a[1..], b);
    }
  }

  /** The lookup in a handshake, name by name. */
  lemma Lookup(servers: map<string, string>, serverName: Option<string>)
    ensures var n := NormalName(if serverName.Some? then serverName.value else DEFAULT_CERT_HOSTNAME);
            FirstHeld(servers, Candidates(serverName)) ==
            if n in servers then Some(servers[n])
            else if WildcardName(n) in servers then Some(servers[WildcardName(n)])
            else if "_" in servers then Some(servers["_"])
            else None
  {
    var name := if serverName.Some? then serverName.value else DEFAULT_CERT_HOSTNAME;
    DefaultNames();
    TwoNames(servers, NormalName(name), WildcardName(NormalName(name)));
    TwoNames(servers, DEFAULT_CERT_HOSTNAME, DEFAULT_CERT_HOSTNAME);
    FirstHeldConcat(servers, NamesFor(name), NamesFor(DEFAULT_CERT_HOSTNAME));
  }

  lemma TwoNames(servers: map<string, string>, a: string, b: string)
    ensures FirstHeld(servers, [a, b]) ==
            if a in servers then Some(servers[a]) else if b in servers then Some(servers[b]) else None
  {
    assert [a, b][1..] == [b] && [b][1..] == [];
    assert FirstHeld(servers, [b]) == if b in servers then Some(servers[b]) else None;
  }

  lemma DefaultNames()
    ensures NamesFor(DEFAULT_CERT_HOSTNAME) == [DEFAULT_CERT_HOSTNAME, DEFAULT_CERT_HOSTNAME]
  {
    var name := DEFAULT_CERT_HOSTNAME;
    assert WithoutFinalDot(name) == name && LowerName(name) == name;
    assert name[1..] == "" && AfterLabel("") == "";
    assert NormalName(name) == name && WildcardName(name) == name;
    assert NamesFor(name) == [name, name];
  }

  /** The certificate that a client is presented.  The first held name decides, even if its certificate is not there. */
  function Presented(held: SSLConfiguration, serverName: Option<string>): Option<string> {
    var uid := FirstHeld(held.servers, Candidates(serverName));
    if uid.Some? && uid.value in held.certificates then Some(held.certificates[uid.value]) else None
  }
}
