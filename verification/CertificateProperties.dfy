/** What nginx presents in a handshake once it has been told: when it is what the last post asks for, whatever was held
    before, when an entry left behind shows through, and that servers which the comparison takes for equal post the
    same. */
module CertificateProperties {
  import opened Basics
  import opened Matching
  import opened MatchingProperties
  import opened ConfigEquality
  import opened ConfigEqualityProperties
  import opened Redirects
  import opened Certificates

  // ----- A post is taken in completely -----

  /** Every identifier that is posted for a host comes with its certificate. */
  ghost predicate Closed(c: SSLConfiguration) {
    forall h | h in c.servers && c.servers[h] != EMPTY_UID :: c.servers[h] in c.certificates
  }

  lemma ConfigureHostClosed(c: SSLConfiguration, host: string, cert: Option<Cert>)
    requires Closed(c)
    ensures Closed(ConfigureHost(c, host, cert))
  {
  }

  lemma {:induction false} PostServersClosed(servers: seq<Server>)
    ensures Closed(PostServers(servers))
  {
    if servers != [] {
      var s := servers[|servers| - 1];
      PostServersClosed(servers[..|servers| - 1]);
      ConfigureHostClosed(PostServers(servers[..|servers| - 1]), s.hostname, s.sslCert);
    }
  }

  lemma {:induction false} PostRedirectsClosed(c: SSLConfiguration, rs: seq<Redirect>)
    requires Closed(c)
    ensures Closed(PostRedirects(c, rs))
  {
    if rs != [] {
      PostRedirectsClosed(c, rs[..|rs| - 1]);
    }
  }

  lemma PostedClosed(servers: seq<Server>)
    ensures Closed(Posted(servers))
  {
    PostServersClosed(servers);
    PostRedirectsClosed(PostServers(servers), RedirectsOf(servers));
  }

  const NOTHING := SSLConfiguration(map[], map[])

  /** What a post asks to be presented to a client: what dictionaries present that were told nothing else. */
  function Asked(post: SSLConfiguration, serverName: Option<string>): Option<string> {
    Presented(Told(NOTHING, post), serverName)
  }

  /** The post settles the lookup: it names every candidate up to the first with a certificate. */
  predicate Decided(post: SSLConfiguration, names: seq<string>) {
    names == [] || (names[0] in post.servers && (post.servers[names[0]] != EMPTY_UID || Decided(post, names[1..])))
  }

  lemma {:induction false} DecidedLookup(held: SSLConfiguration, post: SSLConfiguration, names: seq<string>)
    requires Decided(post, names)
    ensures FirstHeld(Told(held, post).servers, names) == FirstHeld(Told(NOTHING, post).servers, names)
    ensures var uid := FirstHeld(Told(held, post).servers, names);
            uid.Some? ==> exists h :: h in post.servers && post.servers[h] == uid.value != EMPTY_UID
  {
    if names != [] && post.servers[names[0]] == EMPTY_UID {
      DecidedLookup(held, post, names[1..]);
    }
  }

  /** After a post a client is presented what the post asks for, whatever was held before, if the post settles the
      lookup of the client's name. */
  lemma PostIsPresented(held: SSLConfiguration, servers: seq<Server>, serverName: Option<string>)
    requires Decided(Posted(servers), Candidates(serverName))
    ensures Presented(Told(held, Posted(servers)), serverName) == Asked(Posted(servers), serverName)
  {
    PostedClosed(servers);
    DecidedLookup(held, Posted(servers), Candidates(serverName));
  }

  /** Names that the post does not settle do no harm either as long as they are not held. */
  lemma {:induction false} NotHeldLookup(held: SSLConfiguration, post: SSLConfiguration, names: seq<string>)
    requires forall n | n in names :: n in post.servers || n !in held.servers
    ensures FirstHeld(Told(held, post).servers, names) == FirstHeld(Told(NOTHING, post).servers, names)
    ensures var uid := FirstHeld(Told(held, post).servers, names);
            uid.Some? ==> exists h :: h in post.servers && post.servers[h] == uid.value != EMPTY_UID
  {
    if names != [] {
      assert names[0] in names;
      NotHeldLookup(held, post, names[1..]);
    }
  }

  lemma NothingStaleIsPresented(held: SSLConfiguration, servers: seq<Server>, serverName: Option<string>)
    requires forall n | n in Candidates(serverName) :: n in Posted(servers).servers || n !in held.servers
    ensures Presented(Told(held, Posted(servers)), serverName) == Asked(Posted(servers), serverName)
  {
    PostedClosed(servers);
    NotHeldLookup(held, Posted(servers), Candidates(serverName));
  }

  lemma {:induction false} FreshString(s: set<string>) returns (u: string)
    ensures u !in s && forall x | x in s :: |x| < |u|
    decreases |s|
  {
    if s == {} {
      u := "";
    } else {
      var x :| x in s;
      var v := FreshString(s - {x});
      u := seq(|v| + |x| + 1, _ => 'u');
      forall y | y in s ensures |y| < |u| {
        assert y == x || y in s - {x};
      }
    }
  }

  /** A lookup that the post does not settle finds an old entry under the first name that the post leaves open. */
  lemma {:induction false} OpenLookup(post: SSLConfiguration, names: seq<string>, uid: string) returns (open: string)
    requires !Decided(post, names)
    ensures open !in post.servers
    ensures FirstHeld(ToldHosts(map[open := uid], post.servers), names) == Some(uid)
  {
    if names[0] !in post.servers {
      open := names[0];
    } else {
      open := OpenLookup(post, names[1..], uid);
    }
  }

  /** What a client is presented after a post depends on nothing that was held before exactly when the post settles the
      lookup of the client's name. */
  lemma IndependentIffDecided(servers: seq<Server>, serverName: Option<string>)
    ensures (forall held ::
              Presented(Told(held, Posted(servers)), serverName) == Asked(Posted(servers), serverName)) <==>
            Decided(Posted(servers), Candidates(serverName))
  {
    var post, names := Posted(servers), Candidates(serverName);
    if Decided(post, names) {
      forall held ensures Presented(Told(held, post), serverName) == Asked(post, serverName) {
        PostIsPresented(held, servers, serverName);
      }
    } else {
      var held := DependsOnHeld(servers, serverName);
    }
  }

  lemma DependsOnHeld(servers: seq<Server>, serverName: Option<string>) returns (held: SSLConfiguration)
    requires !Decided(Posted(servers), Candidates(serverName))
    ensures Presented(Told(held, Posted(servers)), serverName) != Asked(Posted(servers), serverName)
  {
    var post := Posted(servers);
    var uid := FreshString(post.certificates.Keys);
    var open := OpenLookup(post, Candidates(serverName), uid);
    var pem := if Asked(post, serverName) == Some("x") then "y" else "x";
    held := SSLConfiguration(map[uid := pem], map[open := uid]);
    FoundIsPresented(held, post, serverName, uid);
  }

  lemma FoundIsPresented(held: SSLConfiguration, post: SSLConfiguration, serverName: Option<string>, uid: string)
    requires FirstHeld(ToldHosts(held.servers, post.servers), Candidates(serverName)) == Some(uid)
    requires uid in held.certificates && uid !in post.certificates
    ensures Presented(Told(held, post), serverName) == Some(held.certificates[uid])
  {
  }

  // ----- Equal servers post the same -----

  lemma SameNames(a: List<string>, b: List<string>, host: string)
    requires Matches(a, b, StringEqual)
    ensures IsValidHostname(host, a) <==> IsValidHostname(host, b)
  {
    if a.Items? {
      StringEqualIsEquivalence();
      MatchesSymmetric(a, b, StringEqual);
      Members(a.elems, b.elems);
      Members(b.elems, a.elems);
    }
  }

  lemma Members(a: seq<string>, b: seq<string>)
    requires Matches(Items(a), Items(b), StringEqual)
    ensures forall x | x in a :: x in b
  {
    var p := GreedyPairs(a, b, StringEqual);
    forall x | x in a ensures x in b {
      var i :| 0 <= i < |a| && a[i] == x;
      assert b[p[i]] == x;
    }
  }

  lemma ServerPostsSame(c: SSLConfiguration, a: Server, b: Server)
    requires PresentsEqual(a, b) && NoDup(a.aliases)
    ensures PostServer(c, a) == PostServer(c, b)
  {
    Pigeonhole(a.aliases, b.aliases);
    forall x ensures AliasUid(x, a.sslCert) == AliasUid(x, b.sslCert) {
      if a.sslCert.Some? {
        SameNames(a.sslCert.value.cn, b.sslCert.value.cn, x);
      }
    }
    assert ToSet(a.aliases) == ToSet(b.aliases);
    assert forall x :: x in a.aliases <==> x in ToSet(a.aliases);
    assert forall x :: x in b.aliases <==> x in ToSet(b.aliases);
    assert AliasUids(a.aliases, a.sslCert) == AliasUids(b.aliases, b.sslCert);
  }

  ghost predicate DistinctAliases(servers: seq<Server>) {
    forall s | s in servers :: NoDup(s.aliases)
  }

  lemma {:induction false} ServersPostSame(a: seq<Server>, b: seq<Server>)
    requires CertsEqual(a, b) && DistinctAliases(a)
    ensures PostServers(a) == PostServers(b)
  {
    if a != [] {
      var n := |a| - 1;
      assert CertsEqual(a[..n], b[..n]) && a[n] in a;
      ServersPostSame(a[..n], b[..n]);
      assert PresentsEqual(a[n], b[n]);
      ServerPostsSame(PostServers(a[..n]), a[n], b[n]);
    }
  }

  /** Redirects with the same names, and with certificates that are posted alike. */
  predicate SameRedirect(r: Redirect, q: Redirect) {
    && r.from == q.from && r.to == q.to && r.sslCert.Some? == q.sslCert.Some?
    && (r.sslCert.Some? ==> r.sslCert.value.uid == q.sslCert.value.uid && r.sslCert.value.pem == q.sslCert.value.pem)
  }

  predicate SameRedirects(rs: seq<Redirect>, qs: seq<Redirect>) {
    |rs| == |qs| && forall i | 0 <= i < |rs| :: SameRedirect(rs[i], qs[i])
  }

  lemma SameHosts(a: seq<Server>, b: seq<Server>, host: string)
    requires CertsEqual(a, b)
    ensures HasHost(a, host) <==> HasHost(b, host)
  {
    if HasHost(a, host) {
      var i :| 0 <= i < |a| && a[i].hostname == host;
      assert PresentsEqual(a[i], b[i]) && b[i] in b;
    }
    if HasHost(b, host) {
      var i :| 0 <= i < |b| && b[i].hostname == host;
      assert PresentsEqual(a[i], b[i]) && a[i] in a;
    }
  }

  lemma SameCreates(a: seq<Server>, b: seq<Server>, i: nat)
    requires CertsEqual(a, b) && i < |a|
    ensures Creates(a, i) <==> Creates(b, i)
    ensures SameRedirect(RedirectOf(a[i]), RedirectOf(b[i]))
  {
    SameHosts(a, b, RedirectSource(a[i].hostname));
    assert forall j | 0 <= j <= i :: PresentsEqual(a[j], b[j]);
    if a[i].sslCert.Some? {
      SameNames(a[i].sslCert.value.cn, b[i].sslCert.value.cn, RedirectSource(a[i].hostname));
    }
  }

  lemma {:induction false} RedirectsSame(a: seq<Server>, b: seq<Server>, k: nat)
    requires CertsEqual(a, b) && k <= |a|
    ensures SameRedirects(RedirectsUpTo(a, k), RedirectsUpTo(b, k))
  {
    if k > 0 {
      RedirectsSame(a, b, k - 1);
      SameCreates(a, b, k - 1);
    }
  }

  lemma {:induction false} RedirectsPostSame(c: SSLConfiguration, rs: seq<Redirect>, qs: seq<Redirect>)
    requires SameRedirects(rs, qs)
    ensures PostRedirects(c, rs) == PostRedirects(c, qs)
  {
    if rs != [] {
      RedirectsPostSame(c, rs[..|rs| - 1], qs[..|qs| - 1]);
    }
  }

  /** Servers whose certificates compare equal, host by host, post the very same maps. */
  lemma EqualPostSame(a: seq<Server>, b: seq<Server>)
    requires CertsEqual(a, b) && DistinctAliases(a)
    ensures Posted(a) == Posted(b)
  {
    ServersPostSame(a, b);
    RedirectsSame(a, b, |a|);
    RedirectsPostSame(PostServers(a), RedirectsOf(a), RedirectsOf(b));
  }

  /** So when nginx was last told the certificates of servers that fit, it presents to every client what the wanted
      servers ask for, whatever it was told before, if they settle the lookup of the client's name. */
  lemma FittingIsPresented(held: SSLConfiguration, told: seq<Server>, wanted: seq<Server>, serverName: Option<string>)
    requires CertsEqual(told, wanted) && DistinctAliases(told) && Decided(Posted(wanted), Candidates(serverName))
    ensures Presented(Told(held, Posted(told)), serverName) == Asked(Posted(wanted), serverName)
  {
    EqualPostSame(told, wanted);
    PostIsPresented(held, wanted, serverName);
  }

  // ----- Every host presents its own certificate -----

  function PemOf(cert: Option<Cert>): Option<string> {
    if cert.Some? then Some(cert.value.pem) else None
  }

  /** Host names are distinct and no alias is a host name. */
  ghost predicate NamesApart(servers: seq<Server>) {
    forall i, j | 0 <= i < |servers| && 0 <= j < |servers| ::
      servers[j].hostname !in servers[i].aliases && (i != j ==> servers[i].hostname != servers[j].hostname)
  }

  /** An identifier stands for one certificate, and never is the empty one. */
  ghost predicate UidsDetermine(servers: seq<Server>) {
    && (forall s | s in servers && s.sslCert.Some? :: s.sslCert.value.uid != EMPTY_UID)
    && forall s, t | s in servers && t in servers && s.sslCert.Some? && t.sslCert.Some? ::
         s.sslCert.value.uid == t.sslCert.value.uid ==> s.sslCert.value.pem == t.sslCert.value.pem
  }

  lemma {:induction false} HostKept(servers: seq<Server>, n: nat, i: nat)
    requires NamesApart(servers) && i < n <= |servers|
    ensures var m := PostServers(servers[..n]).servers;
            servers[i].hostname in m && m[servers[i].hostname] == UidOf(servers[i].sslCert)
  {
    PrefixDropsLast(servers, n - 1);
    if i < n - 1 {
      HostKept(servers, n - 1, i);
    }
  }

  /** The certificates posted so far are those of the servers. */
  ghost predicate PemsOf(pems: map<string, string>, servers: seq<Server>) {
    forall u | u in pems ::
      exists s | s in servers :: s.sslCert.Some? && s.sslCert.value.uid == u && s.sslCert.value.pem == pems[u]
  }

  lemma {:induction false} PostServersPems(servers: seq<Server>, n: nat)
    requires n <= |servers|
    ensures PemsOf(PostServers(servers[..n]).certificates, servers)
  {
    if n > 0 {
      PrefixDropsLast(servers, n - 1);
      PostServersPems(servers, n - 1);
      assert servers[n - 1] in servers;
    }
  }

  lemma {:induction false} PostRedirectsKeeps(c: SSLConfiguration, rs: seq<Redirect>, servers: seq<Server>,
                                              host: string)
    requires host in c.servers && PemsOf(c.certificates, servers)
    requires forall r | r in rs ::
               r.from != host && (r.sslCert.Some? ==> exists s :: s in servers && s.sslCert == r.sslCert)
    ensures var c' := PostRedirects(c, rs);
            host in c'.servers && c'.servers[host] == c.servers[host] && PemsOf(c'.certificates, servers)
  {
    if rs != [] {
      assert rs[|rs| - 1] in rs;
      PostRedirectsKeeps(c, rs[..|rs| - 1], servers, host);
    }
  }

  /** The entry that is posted for the host name of a server: that of its certificate, which is posted with it. */
  lemma HostEntry(servers: seq<Server>, i: nat)
    requires NamesApart(servers) && UidsDetermine(servers) && i < |servers|
    ensures var post, s := Posted(servers), servers[i];
            && s.hostname in post.servers && post.servers[s.hostname] == UidOf(s.sslCert)
            && (s.sslCert.Some? ==>
                  s.sslCert.value.uid != EMPTY_UID && s.sslCert.value.uid in post.certificates
                  && post.certificates[s.sslCert.value.uid] == s.sslCert.value.pem)
  {
    var host, rs := servers[i].hostname, RedirectsOf(servers);
    WholePrefix(servers);
    assert servers[i] in servers;
    HostKept(servers, |servers|, i);
    PostServersPems(servers, |servers|);
    RedirectsExact(servers, |servers|);
    forall r | r in rs
      ensures r.from != host && (r.sslCert.Some? ==> exists s :: s in servers && s.sslCert == r.sslCert)
    {
      assert HasHost(servers, host);
    }
    PostRedirectsKeeps(PostServers(servers), rs, servers, host);
    PostedClosed(servers);
  }

  /** A host with a certificate presents it, whatever was held before, to every client that names the host: in upper or
      lower case, with or without a final dot. */
  lemma HostPresentsItsCertificate(held: SSLConfiguration, servers: seq<Server>, i: nat, name: string)
    requires NamesApart(servers) && UidsDetermine(servers) && i < |servers| && servers[i].sslCert.Some?
    requires NormalName(name) == servers[i].hostname
    ensures Presented(Told(held, Posted(servers)), Some(name)) == Some(servers[i].sslCert.value.pem)
  {
    HostEntry(servers, i);
    Lookup(Told(held, Posted(servers)).servers, Some(name));
  }

  /** A host without a certificate presents that of the server for its wildcard name. */
  lemma BareHostPresentsWildcard(held: SSLConfiguration, servers: seq<Server>, i: nat, w: nat, name: string)
    requires NamesApart(servers) && UidsDetermine(servers) && i < |servers| && servers[i].sslCert.None?
    requires NormalName(name) == servers[i].hostname
    requires w < |servers| && servers[w].hostname == WildcardName(servers[i].hostname) && servers[w].sslCert.Some?
    ensures Presented(Told(held, Posted(servers)), Some(name)) == Some(servers[w].sslCert.value.pem)
  {
    HostEntry(servers, i);
    HostEntry(servers, w);
    Lookup(Told(held, Posted(servers)).servers, Some(name));
  }

  /** Without such a server it presents the default certificate, provided that no wildcard entry is left over: the
      wildcard name is posted without a certificate, or it was not held. */
  lemma BareHostPresentsDefault(held: SSLConfiguration, servers: seq<Server>, i: nat, d: nat, name: string)
    requires NamesApart(servers) && UidsDetermine(servers) && i < |servers| && servers[i].sslCert.None?
    requires NormalName(name) == servers[i].hostname
    requires d < |servers| && servers[d].hostname == DEFAULT_CERT_HOSTNAME
    requires var w := WildcardName(servers[i].hostname);
             if w in Posted(servers).servers then Posted(servers).servers[w] == EMPTY_UID else w !in held.servers
    ensures Presented(Told(held, Posted(servers)), Some(name)) == PemOf(servers[d].sslCert)
  {
    HostEntry(servers, i);
    HostEntry(servers, d);
    Lookup(Told(held, Posted(servers)).servers, Some(name));
  }

  /** What a post does not name stays. */
  lemma KeptEntry(held: SSLConfiguration, post: SSLConfiguration, host: string)
    requires host in held.servers && host !in post.servers
    requires held.servers[host] in held.certificates && held.servers[host] !in post.certificates
    ensures var told, uid := Told(held, post), held.servers[host];
            && host in told.servers && told.servers[host] == uid
            && uid in told.certificates && told.certificates[uid] == held.certificates[uid]
  {
  }

  /** Otherwise an entry that a server left behind is presented: the server for the wildcard name was posted, is gone,
      and is not named by the later post. */
  lemma LeftoverWildcardIsPresented(held: SSLConfiguration, before: seq<Server>, w: nat, servers: seq<Server>, i: nat,
                                    name: string)
    requires NamesApart(before) && UidsDetermine(before) && w < |before| && before[w].sslCert.Some?
    requires NamesApart(servers) && UidsDetermine(servers) && i < |servers| && servers[i].sslCert.None?
    requires NormalName(name) == servers[i].hostname && before[w].hostname == WildcardName(servers[i].hostname)
    requires before[w].hostname !in Posted(servers).servers
    requires before[w].sslCert.value.uid !in Posted(servers).certificates
    ensures var held' := Told(Told(held, Posted(before)), Posted(servers));
            Presented(held', Some(name)) == Some(before[w].sslCert.value.pem)
  {
    HostEntry(before, w);
    HostEntry(servers, i);
    KeptEntry(Told(held, Posted(before)), Posted(servers), before[w].hostname);
    Lookup(Told(Told(held, Posted(before)), Posted(servers)).servers, Some(name));
  }

  /** A server with nothing but a name and a certificate. */
  function Plain(hostname: string, cert: Option<Cert>): Server {
    Server(hostname, false, cert, [], [], false, "")
  }

  /** No post deletes a name that is no longer configured, so old entries can do harm: an Ingress for "*.x" is deleted,
      and clients of "a.x", which has no certificate of its own, are still presented its certificate instead of the
      default one. */
  lemma StaleWildcardIsPresented(d: Cert, w: Cert)
    requires d.uid != w.uid && d.pem != w.pem && d.uid != EMPTY_UID && w.uid != EMPTY_UID
    ensures var before := [Plain("_", Some(d)), Plain("*.x", Some(w))];
            var servers := [Plain("_", Some(d)), Plain("a.x", None)];
            var held := Told(Told(NOTHING, Posted(before)), Posted(servers));
            Presented(held, Some("a.x")) == Some(w.pem) && Asked(Posted(servers), Some("a.x")) == Some(d.pem)
  {
    var before := [Plain("_", Some(d)), Plain("*.x", Some(w))];
    var servers := [Plain("_", Some(d)), Plain("a.x", None)];
    NamesOfExample();
    PlainPost(Plain("_", Some(d)), Plain("a.x", None));
    LeftoverWildcardIsPresented(NOTHING, before, 1, servers, 1, "a.x");
    BareHostPresentsDefault(NOTHING, servers, 1, 0, "a.x");
  }

  lemma NamesOfExample()
    ensures NormalName("a.x") == "a.x" && WildcardName("a.x") == "*.x"
  {
    assert AfterLabel("a.x") == ".x" by {
      assert "a.x"[1..] == ".x";
    }
  }

  /** What two such servers post. */
  lemma PlainPost(s: Server, t: Server)
    requires s == Plain(s.hostname, s.sslCert) && t == Plain(t.hostname, t.sslCert)
    ensures Posted([s, t]).servers.Keys == {s.hostname, t.hostname}
    ensures forall u | u in Posted([s, t]).certificates ::
              (s.sslCert.Some? && s.sslCert.value.uid == u) || (t.sslCert.Some? && t.sslCert.value.uid == u)
  {
    var servers := [s, t];
    assert servers[..1] == [s] && [s][..0] == [];
    assert !Creates(servers, 0) && !Creates(servers, 1);
    assert RedirectsUpTo(servers, 0) == [] && RedirectsUpTo(servers, 1) == [] && RedirectsUpTo(servers, 2) == [];
    assert PostServers([s]) == PostServer(PostServers([]), s);
    assert PostServers(servers) == PostServer(PostServers([s]), t);
  }
}
