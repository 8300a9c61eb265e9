/** Which names certificates are for and what is posted for them, spelled out. */
module CertificateNames {
  import opened Basics
  import opened Matching
  import opened ConfigEquality
  import opened Redirects
  import opened Certificates
  import opened CertificateProperties

  // ----- Names that a certificate is valid for -----

  /** Two letters are the same but for case. */
  predicate SameLetter(a: char, b: char) {
    || a == b
    || ('A' <= a <= 'Z' && b as int == a as int + 32)
    || ('A' <= b <= 'Z' && a as int == b as int + 32)
  }

  predicate SameName(a: string, b: string) {
    |a| == |b| && forall i | 0 <= i < |a| :: SameLetter(a[i], b[i])
  }

  lemma FoldIsSameName(a: string, b: string)
    ensures EqualFold(a, b) <==> SameName(a, b)
  {
  }

  lemma {:induction false} AfterOneLabel(first: string, rest: string)
    requires '.' !in first && (rest == "" || rest[0] == '.')
    ensures AfterLabel(first + rest) == rest
  {
    if first == "" {
      assert first + rest == rest;
    } else {
      assert (first + rest)[1..] == first[1..] + rest;
      AfterOneLabel(first[1..], rest);
    }
  }

  /** A name is its first label and the rest from the first dot on.  A certificate is for it exactly if a common name
      is, but for case, the name itself or the rest after "*". */
  lemma ValidHostnameIff(first: string, rest: string, commonNames: seq<string>)
    requires '.' !in first && (rest == "" || rest[0] == '.')
    ensures IsValidHostname(first + rest, Items(commonNames)) <==>
            exists cn | cn in commonNames :: SameName(first + rest, cn) || SameName("*" + rest, cn)
    ensures !IsValidHostname(first + rest, Nil)
  {
    AfterOneLabel(first, rest);
    forall cn ensures EqualFold(first + rest, cn) <==> SameName(first + rest, cn)
      ensures EqualFold("*" + rest, cn) <==> SameName("*" + rest, cn)
    {
      FoldIsSameName(first + rest, cn);
      FoldIsSameName("*" + rest, cn);
    }
  }

  /** The wildcard of a domain is for a name with one label in front of it, and for no name with two. */
  lemma WildcardCoversOneLabel(first: string, inner: string, domain: string)
    requires '.' !in first && '.' !in inner && first != "*" && first != "" && inner != "" && domain != ""
    requires '.' != domain[0]
    ensures IsValidHostname(first + "." + domain, Items(["*." + domain]))
    ensures !IsValidHostname(first + "." + inner + "." + domain, Items(["*." + domain]))
  {
    var one, two := "." + domain, "." + inner + "." + domain;
    assert first + "." + domain == first + one && "*." + domain == "*" + one;
    assert first + "." + inner + "." + domain == first + two;
    assert "*." + domain in ["*." + domain];
    assert SameName("*" + one, "*." + domain);
    ValidHostnameIff(first, one, ["*." + domain]);
    ValidHostnameIff(first, two, ["*." + domain]);
    assert |two| > |one| && |first| >= 1;
  }

  // ----- Names that clients give -----

  /** A client's name is looked up letter by letter in lower case, without a dot at its end. */
  lemma NormalSpelled(name: string)
    requires name == "" || name[|name| - 1] != '.'
    ensures NormalName(name + ".") == NormalName(name) && |NormalName(name)| == |name|
    ensures forall i | 0 <= i < |name| ::
              NormalName(name)[i] == if 'A' <= name[i] <= 'Z' then (name[i] as int + 32) as char else name[i]
  {
    assert (name + ".")[..|name|] == name;
  }

  /** And then under its wildcard: "*" for the first of several labels. */
  lemma WildcardSpelled(first: string, domain: string)
    requires '.' !in first && first != ""
    ensures WildcardName(first + "." + domain) == "*." + domain && WildcardName(first) == first
  {
    assert first + "." + domain == first + ("." + domain) && first == first + "";
    AfterOneLabel(first, "." + domain);
    AfterOneLabel(first, "");
  }

  // ----- Redirects -----

  /** The other name: "www." is put in front, or taken away. */
  lemma OtherName(name: string)
    ensures RedirectSource("www." + name) == name
    ensures !("www." <= name) ==> RedirectSource(name) == "www." + name
  {
    assert ("www." + name)[4..] == name;
  }

  /** The certificate of the host is for the other name too. */
  predicate Covers(cert: Option<Cert>, name: string) {
    cert.Some? && IsValidHostname(name, cert.value.cn)
  }

  /** Every redirect goes to a redirecting host from its name with "www." put in front or taken away, which no server
      has, and carries the certificate of such a server exactly if that is for both names. */
  lemma RedirectsSpelled(servers: seq<Server>, r: Redirect)
    requires r in RedirectsOf(servers)
    ensures if "www." <= r.to then r.to == "www." + r.from else r.from == "www." + r.to
    ensures forall s | s in servers :: s.hostname != r.from
    ensures exists s | s in servers ::
              && s.redirectFromToWWW && s.hostname == r.to
              && r.sslCert == if Covers(s.sslCert, r.from) then s.sslCert else None
  {
    RedirectsExact(servers, |servers|);
    if "www." <= r.to {
      assert r.to == "www." + r.to[4..];
    }
    var s :| s in servers && s.redirectFromToWWW && s.hostname == r.to && r.sslCert == RedirectCert(s);
  }

  /** And every redirecting host whose other name no server has is redirected to. */
  lemma RedirectsComplete(servers: seq<Server>, s: Server, other: string)
    requires s in servers && s.redirectFromToWWW && forall t | t in servers :: t.hostname != other
    requires if "www." <= s.hostname then s.hostname == "www." + other else other == "www." + s.hostname
    ensures exists r | r in RedirectsOf(servers) :: r.to == s.hostname && r.from == other
  {
    RedirectsExact(servers, |servers|);
    WholePrefix(servers);
    OtherName(other);
    OtherName(s.hostname);
    assert RedirectSource(s.hostname) == other;
    assert HasTarget(RedirectsOf(servers), s.hostname);
  }

  // ----- What is posted -----

  /** For a host name the identifier of its certificate is posted, or "-1" if it has none. */
  lemma HostPosted(servers: seq<Server>, i: nat)
    requires NamesApart(servers) && UidsDetermine(servers) && i < |servers|
    ensures var post, cert := Posted(servers).servers, servers[i].sslCert;
            servers[i].hostname in post
            && post[servers[i].hostname] == if cert.Some? then cert.value.uid else "-1"
  {
    HostEntry(servers, i);
  }

  /** The alias is asked for by this server only. */
  ghost predicate OwnAlias(servers: seq<Server>, i: nat, alias: string) {
    && i < |servers| && alias in servers[i].aliases
    && (forall j | 0 <= j < |servers| && j != i :: alias !in servers[j].aliases)
    && (forall s | s in servers :: s.hostname != alias)
    && forall r | r in RedirectsOf(servers) :: r.from != alias
  }

  lemma {:induction false} AliasKept(servers: seq<Server>, n: nat, i: nat, alias: string)
    requires i < n <= |servers| && alias in servers[i].aliases
    requires forall j | 0 <= j < |servers| :: servers[j].hostname != alias && (j != i ==> alias !in servers[j].aliases)
    ensures var m := PostServers(servers[..n]).servers; alias in m && m[alias] == AliasUid(alias, servers[i].sslCert)
  {
    AliasSnoc(servers, n - 1, alias);
    if i < n - 1 {
      AliasKept(servers, n - 1, i, alias);
    }
  }

  lemma AliasSnoc(servers: seq<Server>, n: nat, alias: string)
    requires n < |servers| && servers[n].hostname != alias
    ensures var m, m' := PostServers(servers[..n]).servers, PostServers(servers[..n + 1]).servers;
            if alias in servers[n].aliases then alias in m' && m'[alias] == AliasUid(alias, servers[n].sslCert)
            else alias in m ==> alias in m' && m'[alias] == m[alias]
  {
    PrefixDropsLast(servers, n);
    AliasStep(PostServers(servers[..n]), servers[n], alias);
  }

  lemma AliasStep(c: SSLConfiguration, s: Server, alias: string)
    requires s.hostname != alias
    ensures var m := PostServer(c, s).servers;
            if alias in s.aliases then alias in m && m[alias] == AliasUid(alias, s.sslCert)
            else alias in c.servers ==> alias in m && m[alias] == c.servers[alias]
  {
  }

  lemma {:induction false} RedirectsKeepName(c: SSLConfiguration, rs: seq<Redirect>, name: string)
    requires name in c.servers && forall r | r in rs :: r.from != name
    ensures name in PostRedirects(c, rs).servers && PostRedirects(c, rs).servers[name] == c.servers[name]
  {
    if rs != [] {
      assert rs[|rs| - 1] in rs;
      RedirectsKeepName(c, rs[..|rs| - 1], name);
    }
  }

  /** For an alias the identifier of the server's certificate is posted if that is for the alias, and "-1" if not. */
  lemma AliasPosted(servers: seq<Server>, i: nat, alias: string)
    requires OwnAlias(servers, i, alias)
    ensures var post, cert := Posted(servers).servers, servers[i].sslCert;
            alias in post && post[alias] == if Covers(cert, alias) then cert.value.uid else "-1"
  {
    WholePrefix(servers);
    assert forall j | 0 <= j < |servers| :: servers[j] in servers;
    AliasKept(servers, |servers|, i, alias);
    RedirectsKeepName(PostServers(servers), RedirectsOf(servers), alias);
  }

  /** So a client that names an alias is presented the server's certificate if that is for the alias, whatever was held
      before. */
  lemma AliasPresents(held: SSLConfiguration, servers: seq<Server>, i: nat, alias: string, name: string)
    requires OwnAlias(servers, i, alias) && Covers(servers[i].sslCert, alias) && UidsDetermine(servers)
    requires NormalName(name) == alias
    ensures Presented(Told(held, Posted(servers)), Some(name)) == Some(servers[i].sslCert.value.pem)
  {
    var cert := servers[i].sslCert.value;
    AliasPosted(servers, i, alias);
    PostedClosed(servers);
    assert servers[i] in servers;
    PemPosted(servers, cert.uid, i);
    Lookup(Told(held, Posted(servers)).servers, Some(name));
  }

  /** The first server with a certificate of the identifier. */
  predicate FirstWith(servers: seq<Server>, i: nat, uid: string) {
    && i < |servers| && servers[i].sslCert.Some? && servers[i].sslCert.value.uid == uid
    && forall j | 0 <= j < i :: servers[j].sslCert.None? || servers[j].sslCert.value.uid != uid
  }

  lemma {:induction false} FirstPemUpTo(servers: seq<Server>, n: nat, i: nat, uid: string)
    requires n <= |servers| && FirstWith(servers, i, uid)
    ensures var pems := PostServers(servers[..n]).certificates;
            if i < n then uid in pems && pems[uid] == servers[i].sslCert.value.pem else uid !in pems
  {
    if n > 0 {
      PrefixDropsLast(servers, n - 1);
      FirstPemUpTo(servers, n - 1, i, uid);
    }
  }

  lemma {:induction false} RedirectsKeepPem(c: SSLConfiguration, rs: seq<Redirect>, uid: string)
    requires uid in c.certificates
    ensures uid in PostRedirects(c, rs).certificates && PostRedirects(c, rs).certificates[uid] == c.certificates[uid]
  {
    if rs != [] {
      RedirectsKeepPem(c, rs[..|rs| - 1], uid);
    }
  }

  /** Under an identifier the certificate of the first server with it is posted. */
  lemma FirstPemPosted(servers: seq<Server>, i: nat, uid: string)
    requires FirstWith(servers, i, uid)
    ensures uid in Posted(servers).certificates && Posted(servers).certificates[uid] == servers[i].sslCert.value.pem
  {
    WholePrefix(servers);
    FirstPemUpTo(servers, |servers|, i, uid);
    RedirectsKeepPem(PostServers(servers), RedirectsOf(servers), uid);
  }

  lemma {:induction false} PemPosted(servers: seq<Server>, uid: string, i: nat)
    requires UidsDetermine(servers) && i < |servers| && servers[i].sslCert.Some? && servers[i].sslCert.value.uid == uid
    ensures uid in Posted(servers).certificates && Posted(servers).certificates[uid] == servers[i].sslCert.value.pem
    decreases i
  {
    if j :| 0 <= j < i && servers[j].sslCert.Some? && servers[j].sslCert.value.uid == uid {
      assert servers[i] in servers && servers[j] in servers;
      PemPosted(servers, uid, j);
    } else {
      FirstPemPosted(servers, i, uid);
    }
  }
}
