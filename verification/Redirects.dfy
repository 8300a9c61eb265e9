/** The redirects between the names of a host with and without "www.", and the certificates they can reuse. */
module Redirects {
  import opened Basics
  import opened ConfigEquality

  const WWW := "www."

  // ----- Which names a certificate is for -----

  function Lower(c: char): char {
    if 'A' <= c <= 'Z' then (c as int + 32) as char else c
  }

  predicate EqualFold(a: string, b: string) {
    |a| == |b| && forall i | 0 <= i < |a| :: Lower(a[i]) == Lower(b[i])
  }

  /** The name from its first dot on. */
  function AfterLabel(host: string): string {
    if host == "" || host[0] == '.' then host else AfterLabel(host[1..])
  }

  /** One of the common names is the host name, or its wildcard. */
  predicate IsValidHostname(host: string, commonNames: List<string>) {
    commonNames.Items? &&
    exists cn | cn in commonNames.elems :: EqualFold(host, cn) || EqualFold("*" + AfterLabel(host), cn)
  }

  // ----- Redirects -----

  datatype Redirect = Redirect(from: string, to: string, sslCert: Option<Cert>)

  function RedirectSource(to: string): string {
    if WWW <= to then to[|WWW|..] else WWW + to
  }

  predicate HasHost(servers: seq<Server>, host: string) {
    exists s | s in servers :: s.hostname == host
  }

  predicate HasTarget(rs: seq<Redirect>, to: string) {
    exists r | r in rs :: r.to == to
  }

  /** The server's certificate, if it is also for the other name. */
  function RedirectCert(s: Server): Option<Cert> {
    if s.sslCert.Some? && IsValidHostname(RedirectSource(s.hostname), s.sslCert.value.cn) then s.sslCert else None
  }

  function RedirectOf(s: Server): Redirect {
    Redirect(RedirectSource(s.hostname), s.hostname, RedirectCert(s))
  }

  /** The server is the first redirecting one of its name, and no server has the other name. */
  predicate Creates(servers: seq<Server>, i: nat)
    requires i < |servers|
  {
    && servers[i].redirectFromToWWW && !HasHost(servers, RedirectSource(servers[i].hostname))
    && forall j | 0 <= j < i :: !(servers[j].redirectFromToWWW && servers[j].hostname == servers[i].hostname)
  }

  function RedirectsUpTo(servers: seq<Server>, k: nat): seq<Redirect>
    requires k <= |servers|
  {
    if k == 0 then []
    else RedirectsUpTo(servers, k - 1) + if Creates(servers, k - 1) then [RedirectOf(servers[k - 1])] else []
  }

  function RedirectsOf(servers: seq<Server>): seq<Redirect> {
    RedirectsUpTo(servers, |servers|)
  }

  /** A name is redirected to among the first `k` servers exactly if one of them redirects it and no server has the
      other name. */
  lemma {:induction false} TargetsUpTo(servers: seq<Server>, k: nat, to: string)
    requires k <= |servers|
    ensures HasTarget(RedirectsUpTo(servers, k), to) <==>
            !HasHost(servers, RedirectSource(to)) &&
            exists j | 0 <= j < k :: servers[j].redirectFromToWWW && servers[j].hostname == to
  {
    if k > 0 {
      var rs, s := RedirectsUpTo(servers, k - 1), servers[k - 1];
      TargetsUpTo(servers, k - 1, to);
      TargetsUpTo(servers, k - 1, s.hostname);
      if Creates(servers, k - 1) {
        AddTarget(rs, RedirectOf(s));
      }
    }
  }

  lemma AddTarget(rs: seq<Redirect>, r: Redirect)
    ensures forall n :: HasTarget(rs + [r], n) <==> HasTarget(rs, n) || n == r.to
  {
    assert r in rs + [r];
  }

  /** One redirect for every redirecting host whose other name no server has, made by the first server of that
      name, with its certificate if that is also for the other name. */
  method BuildRedirects(servers: seq<Server>) returns (redirects: seq<Redirect>)
    ensures redirects == RedirectsOf(servers)
  {
    var names: set<string> := {};
    redirects := [];
    for i := 0 to |servers|
      invariant redirects == RedirectsUpTo(servers, i)
      invariant forall n :: n in names <==> HasTarget(redirects, n)
    {
      var srv := servers[i];
      TargetsUpTo(servers, i, srv.hostname);
      if !srv.redirectFromToWWW {
        continue;
      }
      var to := srv.hostname;
      var from := RedirectSource(to);
      if to in names {
        continue;
      }
      var found := false;
      for j := 0 to |servers|
        invariant !found && forall k | 0 <= k < j :: servers[k].hostname != from
      {
        if servers[j].hostname == from {
          found := true;
          assert servers[j] in servers;
          break;
        }
      }
      if found {
        continue;
      }
      var r := Redirect(from, to, None);
      if srv.sslCert.Some? && IsValidHostname(from, srv.sslCert.value.cn) {
        r := r.(sslCert := srv.sslCert);
      }
      AddTarget(redirects, r);
      redirects := redirects + [r];
      names := names + {to};
    }
  }

  /** What the redirects are: each goes from the other name of a redirecting host, which no server has, to the host;
      every such host has one; and no host has two. */
  lemma {:induction false} RedirectsExact(servers: seq<Server>, k: nat)
    requires k <= |servers|
    ensures forall r | r in RedirectsUpTo(servers, k) ::
              && r.from == RedirectSource(r.to) && !HasHost(servers, r.from)
              && exists s | s in servers :: s.redirectFromToWWW && s.hostname == r.to && r.sslCert == RedirectCert(s)
    ensures forall s | s in servers[..k] && s.redirectFromToWWW && !HasHost(servers, RedirectSource(s.hostname)) ::
              HasTarget(RedirectsUpTo(servers, k), s.hostname)
    ensures forall i, j | 0 <= i < j < |RedirectsUpTo(servers, k)| ::
              RedirectsUpTo(servers, k)[i].to != RedirectsUpTo(servers, k)[j].to
  {
    if k > 0 {
      RedirectsExact(servers, k - 1);
      var s := servers[k - 1];
      assert s in servers;
      TargetsUpTo(servers, k - 1, s.hostname);
      forall s' | s' in servers[..k] && s'.redirectFromToWWW && !HasHost(servers, RedirectSource(s'.hostname))
        ensures HasTarget(RedirectsUpTo(servers, k), s'.hostname)
      {
        var j :| 0 <= j < k && servers[j] == s';
        TargetsUpTo(servers, k, s'.hostname);
      }
    }
  }
}
