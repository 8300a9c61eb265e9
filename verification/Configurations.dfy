/** The parts of a generated configuration that are computed from its server list: the aliases of the servers and the
    passthrough backends.  They make every generated configuration well-formed for the comparison. */
module Configurations {
  import opened Basics
  import opened Paths
  import opened Strings
  import opened ConfigEquality
  import opened ConfigEqualityProperties
  import opened CertificateProperties

  // ----- Aliases -----

  /** The aliases that one rule asks for, for its host. */
  datatype AliasRequest = AliasRequest(host: string, aliases: seq<string>)

  /** The first request that names any alias decides. */
  function FirstAliases(requests: seq<AliasRequest>, host: string): seq<string> {
    if requests == [] then []
    else if requests[0].host == host && requests[0].aliases != [] then requests[0].aliases
    else FirstAliases(requests[1..], host)
  }

  /** The aliases of a host are those of the first of its requests that names any; there are none if none does. */
  lemma {:induction false} FirstAliasesExact(requests: seq<AliasRequest>, host: string)
    ensures forall i | 0 <= i < |requests| && requests[i].host == host && requests[i].aliases != []
                       && forall j | 0 <= j < i :: requests[j].host != host || requests[j].aliases == [] ::
              FirstAliases(requests, host) == requests[i].aliases
    ensures (forall i | 0 <= i < |requests| :: requests[i].host != host || requests[i].aliases == []) ==>
              FirstAliases(requests, host) == []
  {
    if requests != [] {
      FirstAliasesExact(requests[1..], host);
      forall i | 0 <= i < |requests| && requests[i].host == host && requests[i].aliases != []
                 && forall j | 0 <= j < i :: requests[j].host != host || requests[j].aliases == []
        ensures FirstAliases(requests, host) == requests[i].aliases
      {
        if i > 0 {
          assert requests[1..][i - 1] == requests[i];
          assert forall j | 0 <= j < i - 1 :: requests[1..][j] == requests[j + 1];
        }
      }
      assert forall j | 0 <= j < |requests| - 1 :: requests[1..][j] == requests[j + 1];
    }
  }

  lemma {:induction false} FirstAliasesSnoc(requests: seq<AliasRequest>, r: AliasRequest, host: string)
    ensures FirstAliases(requests + [r], host) ==
            if FirstAliases(requests, host) != [] then FirstAliases(requests, host)
            else if r.host == host then r.aliases else []
  {
    if requests == [] {
      assert [] + [r] == [r];
    } else {
      assert (requests + [r])[1..] == requests[1..] + [r];
      FirstAliasesSnoc(requests[1..], r, host);
    }
  }

  lemma FirstAliasesStep(requests: seq<AliasRequest>, i: nat)
    requires i < |requests|
    ensures forall h :: FirstAliases(requests[..i + 1], h) ==
                        if FirstAliases(requests[..i], h) != [] then FirstAliases(requests[..i], h)
                        else if requests[i].host == h then requests[i].aliases else []
  {
    PrefixStep(requests, i);
    forall h {
      FirstAliasesSnoc(requests[..i], requests[i], h);
    }
  }

  /** An alias that names the host itself or another server is dropped. */
  predicate KeepsAlias(alias: string, host: string, hosts: set<string>) {
    alias != host && alias !in hosts
  }

  /** The aliases of a host, each once, as a sorted list. */
  method UniqueAliases(host: string, hostAliases: seq<string>, hosts: set<string>) returns (aliases: seq<string>)
    ensures AscendingStrings(aliases)
    ensures forall a :: a in aliases <==> a in hostAliases && KeepsAlias(a, host, hosts)
  {
    var uniqAliases: set<string> := {};
    for i := 0 to |hostAliases|
      invariant forall a :: a in uniqAliases <==> a in hostAliases[..i] && KeepsAlias(a, host, hosts)
    {
      var alias := hostAliases[i];
      PrefixStep(hostAliases, i);
      if alias == host || alias in hosts || alias in uniqAliases {
        continue;
      }
      uniqAliases := uniqAliases + {alias};
    }
    WholePrefix(hostAliases);
    aliases := ListOf(uniqAliases);
  }

  predicate Requested(requests: seq<AliasRequest>, host: string) {
    exists i | 0 <= i < |requests| :: requests[i].host == host
  }

  /** The map has every host that a rule names, with the first aliases asked for. */
  ghost predicate Collected(requests: seq<AliasRequest>, allAliases: map<string, seq<string>>) {
    && (forall h :: h in allAliases <==> Requested(requests, h))
    && forall h :: FirstAliases(requests, h) == if h in allAliases then allAliases[h] else []
  }

  function Collect(allAliases: map<string, seq<string>>, r: AliasRequest): map<string, seq<string>> {
    if r.host !in allAliases || allAliases[r.host] == [] then allAliases[r.host := r.aliases] else allAliases
  }

  lemma RequestedStep(requests: seq<AliasRequest>, i: nat, host: string)
    requires i < |requests|
    ensures Requested(requests[..i + 1], host) <==> Requested(requests[..i], host) || requests[i].host == host
  {
    var longer, shorter := requests[..i + 1], requests[..i];
    assert forall k | 0 <= k < i :: longer[k] == shorter[k];
    assert longer[i] == requests[i];
    if k: nat :| k < |longer| && longer[k].host == host {
      assert k == i || shorter[k].host == host;
    }
    if k: nat :| k < |shorter| && shorter[k].host == host {
      assert longer[k].host == host;
    }
  }

  function CollectAll(requests: seq<AliasRequest>): map<string, seq<string>> {
    if requests == [] then map[] else Collect(CollectAll(requests[..|requests| - 1]), requests[|requests| - 1])
  }

  lemma {:induction false} CollectedAll(requests: seq<AliasRequest>)
    ensures Collected(requests, CollectAll(requests))
  {
    if requests != [] {
      var i := |requests| - 1;
      CollectedAll(requests[..i]);
      CollectedStep(requests, i, CollectAll(requests[..i]));
      WholePrefix(requests);
    }
  }

  lemma CollectedStep(requests: seq<AliasRequest>, i: nat, allAliases: map<string, seq<string>>)
    requires i < |requests| && Collected(requests[..i], allAliases)
    ensures Collected(requests[..i + 1], Collect(allAliases, requests[i]))
  {
    FirstAliasesStep(requests, i);
    forall h ensures Requested(requests[..i + 1], h) <==> h in allAliases || h == requests[i].host {
      RequestedStep(requests, i, h);
    }
  }

  /** What the rules ask for, host by host. */
  method CollectAliases(requests: seq<AliasRequest>) returns (allAliases: map<string, seq<string>>)
    ensures Collected(requests, allAliases)
  {
    allAliases := map[];
    for i := 0 to |requests|
      invariant allAliases == CollectAll(requests[..i])
    {
      var r := requests[i];
      PrefixDropsLast(requests, i);
      if r.host !in allAliases || allAliases[r.host] == [] {
        allAliases := allAliases[r.host := r.aliases];
      }
    }
    WholePrefix(requests);
    CollectedAll(requests);
  }

  ghost predicate DistinctHostnames(servers: seq<Server>) {
    forall i, j | 0 <= i < j < |servers| :: servers[i].hostname != servers[j].hostname
  }

  function HostnameSet(servers: seq<Server>): set<string> {
    set s | s in servers :: s.hostname
  }

  /** The server with exactly the aliases that were first asked for and that name neither it nor another server. */
  ghost predicate HasAliases(s: Server, built: Server, requests: seq<AliasRequest>, hosts: set<string>) {
    && s == built.(aliases := s.aliases) && AscendingStrings(s.aliases)
    && forall a :: a in s.aliases <==> a in FirstAliases(requests, s.hostname) && KeepsAlias(a, s.hostname, hosts)
  }

  method AssignAliases(built: seq<Server>, requests: seq<AliasRequest>) returns (servers: seq<Server>)
    ensures |servers| == |built|
    ensures forall i | 0 <= i < |built| :: HasAliases(servers[i], built[i], requests, HostnameSet(built))
  {
    var allAliases := CollectAliases(requests);
    servers := [];
    for i := 0 to |built|
      invariant |servers| == i
      invariant forall k | 0 <= k < i :: HasAliases(servers[k], built[k], requests, HostnameSet(built))
    {
      var host := built[i].hostname;
      var aliases: seq<string> := [];
      if host in allAliases {
        aliases := UniqueAliases(host, allAliases[host], HostnameSet(built));
      } else {
        NoneAsked(requests, host);
      }
      servers := servers + [built[i].(aliases := aliases)];
    }
  }

  lemma {:induction false} NoneAsked(requests: seq<AliasRequest>, host: string)
    requires forall r | r in requests :: r.host != host
    ensures FirstAliases(requests, host) == []
  {
    if requests != [] {
      NoneAsked(requests[1..], host);
    }
  }

  /** The names of the servers are apart then, as the certificates need it. */
  lemma AssignedApart(built: seq<Server>, servers: seq<Server>, requests: seq<AliasRequest>)
    requires DistinctHostnames(built) && |servers| == |built|
    requires forall i | 0 <= i < |built| :: HasAliases(servers[i], built[i], requests, HostnameSet(built))
    ensures NamesApart(servers)
  {
    forall i, j | 0 <= i < |servers| && 0 <= j < |servers|
      ensures servers[j].hostname !in servers[i].aliases && (i != j ==> servers[i].hostname != servers[j].hostname)
    {
      assert HasAliases(servers[i], built[i], requests, HostnameSet(built));
      assert HasAliases(servers[j], built[j], requests, HostnameSet(built));
      assert built[j] in built && built[j].hostname in HostnameSet(built);
      assert i < j ==> built[i].hostname != built[j].hostname;
    }
  }

  // ----- TLS passthrough -----

  predicate IsFirstRoot(locs: seq<Location>, k: nat) {
    k < |locs| && locs[k].path == ROOT && forall j | 0 <= j < k :: locs[j].path != ROOT
  }

  function PassthroughOf(s: Server, l: Location): Passthrough {
    Passthrough(l.backend, s.hostname, l.port, l.service)
  }

  /** The entry of a passthrough server: from the first of its root locations. */
  predicate IsPassthrough(p: Passthrough, s: Server) {
    s.sslPassthrough &&
    exists k | 0 <= k < |s.locations| :: IsFirstRoot(s.locations, k) && p == PassthroughOf(s, s.locations[k])
  }

  method PassthroughBackends(servers: seq<Server>) returns (backends: seq<Passthrough>)
    requires DistinctHostnames(servers)
    ensures NoDup(Hostnames(backends))
    ensures forall p :: p in backends <==> exists s | s in servers :: IsPassthrough(p, s)
    ensures forall p | p in backends :: exists s, l | s in servers && l in s.locations ::
              && s.sslPassthrough && l.path == "/"
              && p.hostname == s.hostname && p.backend == l.backend && p.service == l.service && p.port == l.port
  {
    backends := [];
    for i := 0 to |servers|
      invariant NoDup(Hostnames(backends))
      invariant forall p :: p in backends <==> exists j | 0 <= j < i :: IsPassthrough(p, servers[j])
    {
      var server := servers[i];
      if !server.sslPassthrough {
        continue;
      }
      ghost var before := backends;
      for k := 0 to |server.locations|
        invariant backends == before && forall j | 0 <= j < k :: server.locations[j].path != ROOT
      {
        var loc := server.locations[k];
        if loc.path != ROOT {
          continue;
        }
        var entry := PassthroughOf(server, loc);
        OnlyEntry(server, k);
        NewHostname(servers, i, before);
        assert Hostnames(before + [entry]) == Hostnames(before) + [server.hostname];
        backends := backends + [entry];
        break;
      }
      assert forall p :: p in backends <==> p in before || IsPassthrough(p, server);
    }
  }

  /** The entries of other servers have other hostnames. */
  lemma NewHostname(servers: seq<Server>, i: nat, before: seq<Passthrough>)
    requires DistinctHostnames(servers) && i < |servers|
    requires forall p | p in before :: exists j | 0 <= j < i :: IsPassthrough(p, servers[j])
    ensures servers[i].hostname !in Hostnames(before)
  {
    forall q | 0 <= q < |before| ensures Hostnames(before)[q] != servers[i].hostname {
      assert before[q] in before;
    }
  }

  lemma OnlyEntry(s: Server, k: nat)
    requires s.sslPassthrough && IsFirstRoot(s.locations, k)
    ensures forall p :: IsPassthrough(p, s) <==> p == PassthroughOf(s, s.locations[k])
  {
    forall p ensures IsPassthrough(p, s) <==> p == PassthroughOf(s, s.locations[k]) {
      if IsPassthrough(p, s) {
        var j :| 0 <= j < |s.locations| && IsFirstRoot(s.locations, j) && p == PassthroughOf(s, s.locations[j]);
        assert j == k;
      }
    }
  }

  // ----- The configuration -----

  /** The configuration for the built servers: aliases assigned, passthrough entries computed, the rest as given. */
  method GetConfiguration(built: seq<Server>, requests: seq<AliasRequest>, rest: Configuration)
    returns (c: Configuration)
    requires DistinctHostnames(built)
    ensures WellFormed(c) && NamesApart(c.servers)
    ensures |c.servers| == |built|
    ensures forall i | 0 <= i < |built| :: HasAliases(c.servers[i], built[i], requests, HostnameSet(built))
    ensures forall i, a | 0 <= i < |built| ::
              a in c.servers[i].aliases <==>
              a in FirstAliases(requests, built[i].hostname) && forall s | s in built :: s.hostname != a
    ensures forall p :: p in c.passthrough <==> exists s | s in built :: IsPassthrough(p, s)
    ensures forall p | p in c.passthrough :: exists s, l | s in built && l in s.locations ::
              && s.sslPassthrough && l.path == "/"
              && p.hostname == s.hostname && p.backend == l.backend && p.service == l.service && p.port == l.port
    ensures c == rest.(servers := c.servers, passthrough := c.passthrough)
  {
    var passthrough := PassthroughBackends(built);
    var servers := AssignAliases(built, requests);
    forall s | s in servers ensures NoDup(s.aliases) {
      var i :| 0 <= i < |servers| && servers[i] == s;
      assert HasAliases(servers[i], built[i], requests, HostnameSet(built));
      AscendingIsNoDup(s.aliases);
    }
    AssignedApart(built, servers, requests);
    c := rest.(servers := servers, passthrough := passthrough);
  }
}
