/** What the synchronisation attempts guarantee together: with a fixed target, the first attempt that
    succeeds leaves nginx serving the target, whatever failed before it and however it failed. */
module SyncConvergence {
  import opened Basics
  import opened Matching
  import opened ConfigEquality
  import opened ConfigEqualityProperties
  import opened SyncLoop
  import opened Certificates
  import opened CertificateProperties

  // ----- nginx serves a configuration, part by part -----

  ghost predicate LoadedFits(s: Serving, c: Configuration) { DynamicEnough(s.loaded, c) }

  ghost predicate BackendsFit(s: Serving, c: Configuration) { Matches(s.backends, c.backends, BackendEqual) }

  ghost predicate StreamsFit(s: Serving, c: Configuration) {
    Matches(s.tcp, c.tcp, L4Equal) && Matches(s.udp, c.udp, L4Equal)
  }

  ghost predicate CertsFit(s: Serving, c: Configuration) { CertsEqual(s.certs, c.servers) }

  ghost predicate Serves(s: Serving, c: Configuration) {
    LoadedFits(s, c) && BackendsFit(s, c) && StreamsFit(s, c) && CertsFit(s, c)
  }

  /** Every part is that of the running configuration or already that of the target. */
  ghost predicate Between(s: Serving, running: Configuration, d: Configuration) {
    && (LoadedFits(s, running) || LoadedFits(s, d))
    && (BackendsFit(s, running) || BackendsFit(s, d))
    && (StreamsFit(s, running) || StreamsFit(s, d))
    && (CertsFit(s, running) || CertsFit(s, d))
  }

  /** The one configuration nginx is in effect serving. */
  function Assembled(s: Serving): Configuration
    requires |s.certs| == |s.loaded.servers|
  {
    s.loaded.(backends := s.backends, tcp := s.tcp, udp := s.udp,
              servers := seq(|s.certs|, i requires 0 <= i < |s.certs| =>
                s.loaded.servers[i].(sslCert := s.certs[i].sslCert)))
  }

  /** Serving a configuration part by part is serving one that the comparison equates with it. */
  lemma ServesMeansEqual(s: Serving, c: Configuration)
    requires Serves(s, c)
    ensures |s.certs| == |s.loaded.servers| && ConfigEqual(Assembled(s), c)
  {
    assert |ClearServers(s.loaded.servers)| == |ClearServers(c.servers)|;
    AssembledPresents(s, c);
    var a := Assembled(s);
    assert ClearServers(a.servers) == ClearServers(s.loaded.servers);
    ClearingL4Coarsens(s.tcp, c.tcp);
    ClearingL4Coarsens(s.udp, c.udp);
    assert DynamicEnough(a, c);
    EqualDecomposes(a, c);
  }

  /** The assembled servers have the names that are loaded and the certificates that were told for them. */
  lemma AssembledPresents(s: Serving, c: Configuration)
    requires LoadedFits(s, c) && CertsFit(s, c) && |s.certs| == |s.loaded.servers|
    ensures CertsEqual(Assembled(s).servers, c.servers)
  {
    forall i | 0 <= i < |s.certs| ensures PresentsEqual(Assembled(s).servers[i], c.servers[i]) {
      assert PresentsEqual(s.certs[i], c.servers[i]);
      assert ServerEqual(ClearServers(s.loaded.servers)[i], ClearServers(c.servers)[i]);
    }
  }

  // ----- Fits carries over along equal configurations -----

  lemma ServesEqual(s: Serving, running: Configuration, d: Configuration)
    requires ConfigEqual(running, d)
    ensures LoadedFits(s, running) ==> LoadedFits(s, d)
    ensures BackendsFit(s, running) ==> BackendsFit(s, d)
    ensures StreamsFit(s, running) ==> StreamsFit(s, d)
    ensures CertsFit(s, running) ==> CertsFit(s, d)
  {
    EqualDecomposes(running, d);
    BackendEqualIsEquivalence();
    L4EqualIsEquivalence();
    CertEqualIsEquivalence();
    ListsOfEquivalent(BackendEqual);
    ListsOfEquivalent(L4Equal);
    if LoadedFits(s, running) {
      DynamicEnoughTransitive(s.loaded, running, d);
    }
    if CertsFit(s, running) {
      forall i | 0 <= i < |s.certs| ensures PresentsEqual(s.certs[i], d.servers[i]) {
        assert PresentsEqual(s.certs[i], running.servers[i]) && PresentsEqual(running.servers[i], d.servers[i]);
      }
    }
  }

  /** A configuration fits itself, part by part. */
  lemma FitsItself(d: Configuration)
    ensures DynamicEnough(d, d) && Matches(d.backends, d.backends, BackendEqual)
    ensures Matches(d.tcp, d.tcp, L4Equal) && Matches(d.udp, d.udp, L4Equal) && CertsEqual(d.servers, d.servers)
  {
    ConfigEqualReflexive(d);
    EqualDecomposes(d, d);
  }

  // ----- One call of configureDynamically, and the retries -----

  lemma BackendsPosted(s: Serving, s1: Serving, running: Configuration, d: Configuration, applied: bool)
    requires Between(s, running, d) && LoadedFits(s, d)
    requires s1 == if running.backends != d.backends && applied then s.(backends := d.backends) else s
    ensures Between(s1, running, d) && LoadedFits(s1, d)
    ensures applied ==> BackendsFit(s1, d)
  {
    FitsItself(d);
    assert LoadedFits(s1, d) && CertsFit(s1, d) == CertsFit(s, d) && CertsFit(s1, running) == CertsFit(s, running);
  }

  lemma StreamsPosted(s: Serving, s1: Serving, running: Configuration, d: Configuration, applied: bool)
    requires Between(s, running, d) && LoadedFits(s, d)
    requires s1 == if (running.tcp != d.tcp || running.udp != d.udp) && applied
                   then s.(tcp := d.tcp, udp := d.udp) else s
    ensures Between(s1, running, d) && LoadedFits(s1, d) && (BackendsFit(s, d) ==> BackendsFit(s1, d))
    ensures applied ==> StreamsFit(s1, d)
  {
    FitsItself(d);
    assert LoadedFits(s1, d) && CertsFit(s1, d) == CertsFit(s, d) && CertsFit(s1, running) == CertsFit(s, running);
  }

  lemma CertsPosted(s: Serving, s1: Serving, running: Configuration, d: Configuration, applied: bool)
    requires Between(s, running, d) && LoadedFits(s, d)
    requires s1 == if running.servers != d.servers && applied then s.(certs := d.servers) else s
    ensures Between(s1, running, d) && LoadedFits(s1, d)
    ensures (BackendsFit(s, d) ==> BackendsFit(s1, d)) && (StreamsFit(s, d) ==> StreamsFit(s1, d))
    ensures applied ==> CertsFit(s1, d)
  {
    FitsItself(d);
    assert LoadedFits(s1, d) && BackendsFit(s1, d) == BackendsFit(s, d);
  }

  lemma ConfigureStep(running: Configuration, s: Serving, d: Configuration, p: Posts)
    requires Between(s, running, d) && LoadedFits(s, d)
    ensures var (s', ok) := Configure(running, s, d, p);
            Between(s', running, d) && LoadedFits(s', d) && (ok ==> Serves(s', d))
  {
    var backends := running.backends != d.backends;
    var s1 := if backends && p.backends.Applied() then s.(backends := d.backends) else s;
    BackendsPosted(s, s1, running, d, !backends || p.backends.Applied());
    if !backends || p.backends == Done {
      var streams := running.tcp != d.tcp || running.udp != d.udp;
      var s2 := if streams && p.streams.Applied() then s1.(tcp := d.tcp, udp := d.udp) else s1;
      StreamsPosted(s1, s2, running, d, !streams || p.streams.Applied());
      if !streams || p.streams == Done {
        var certs := running.servers != d.servers;
        var s3 := if certs && p.certificates.Applied() then s2.(certs := d.servers) else s2;
        CertsPosted(s2, s3, running, d, !certs || p.certificates.Applied());
      }
    }
  }

  lemma {:induction false} RetryStep(running: Configuration, s: Serving, d: Configuration, tries: seq<Posts>)
    requires Between(s, running, d) && LoadedFits(s, d)
    ensures var (s', ok) := Retry(running, s, d, tries);
            Between(s', running, d) && (ok ==> Serves(s', d))
    decreases |tries|
  {
    if tries != [] {
      ConfigureStep(running, s, d, tries[0]);
      var (s', ok) := Configure(running, s, d, tries[0]);
      if !ok {
        RetryStep(running, s', d, tries[1..]);
      }
    }
  }

  // ----- One attempt -----

  /** The checksum is written into the target before a reload and compared by nobody. */
  lemma ChecksumUnseen(s: Serving, running: Configuration, d: Configuration, hash: string)
    ensures var d' := d.(configurationChecksum := hash);
            && (Serves(s, d') <==> Serves(s, d))
            && (Between(s, running, d') <==> Between(s, running, d))
            && (ConfigEqual(running, d') <==> ConfigEqual(running, d))
  {
  }

  /** A failed attempt changes no record and stays between the running configuration and the target; a
      successful one serves the target and records it. */
  lemma SyncStep(running: Configuration, s: Serving, d: Configuration, a: Attempt)
    requires Between(s, running, d)
    ensures var (running', s', ok) := Sync(running, s, d, a);
            if ok then Serves(s', d) && ConfigEqual(running', d)
            else running' == running && Between(s', running, d)
  {
    ConfigEqualReflexive(d);
    if ConfigEqual(running, d) {
      ServesEqual(s, running, d);
    } else if DynamicEnough(running, d) {
      if LoadedFits(s, running) {
        DynamicEnoughTransitive(s.loaded, running, d);
      }
      RetryStep(running, s, d, a.tries);
    } else {
      var d' := d.(configurationChecksum := a.hash);
      var s1 := if a.reload.Applied() then s.(loaded := d') else s;
      FitsItself(d');
      ChecksumUnseen(s, running, d, a.hash);
      ChecksumUnseen(s1, running, d, a.hash);
      if a.reload == Done {
        RetryStep(running, s1, d', a.tries);
        ChecksumUnseen(Retry(running, s1, d', a.tries).0, running, d, a.hash);
        ChecksumUnseen(s, d', d, a.hash);
        ConfigEqualReflexive(d');
      }
    }
  }

  lemma SyncKeepsWellFormed(running: Configuration, s: Serving, d: Configuration, a: Attempt)
    requires WellFormed(running) && WellFormed(d)
    ensures WellFormed(Sync(running, s, d, a).0)
  {
  }

  // ----- Whole runs -----

  /** Attempts at one fixed target, up to and including the first that succeeds. */
  function Attempts(running: Configuration, s: Serving, d: Configuration, attempts: seq<Attempt>)
    : (Configuration, Serving, bool)
    decreases |attempts|
  {
    if attempts == [] then (running, s, false)
    else
      var (running', s', ok) := Sync(running, s, d, attempts[0]);
      if ok then (running', s', true) else Attempts(running', s', d, attempts[1..])
  }

  lemma {:induction false} AttemptsStep(running: Configuration, s: Serving, d: Configuration, attempts: seq<Attempt>)
    requires Between(s, running, d)
    ensures var (running', s', ok) := Attempts(running, s, d, attempts);
            if ok then Serves(s', d) && ConfigEqual(running', d)
            else running' == running && Between(s', running, d)
    decreases |attempts|
  {
    if attempts != [] {
      SyncStep(running, s, d, attempts[0]);
      var (running', s', ok) := Sync(running, s, d, attempts[0]);
      if !ok {
        AttemptsStep(running', s', d, attempts[1..]);
      }
    }
  }

  lemma {:induction false} AttemptsKeepWellFormed(running: Configuration, s: Serving, d: Configuration,
                                                  attempts: seq<Attempt>)
    requires WellFormed(running) && WellFormed(d)
    ensures WellFormed(Attempts(running, s, d, attempts).0)
    decreases |attempts|
  {
    if attempts != [] {
      SyncKeepsWellFormed(running, s, d, attempts[0]);
      var (running', s', ok) := Sync(running, s, d, attempts[0]);
      if !ok {
        AttemptsKeepWellFormed(running', s', d, attempts[1..]);
      }
    }
  }

  /** Retry convergence: nginx serves the running configuration; after any attempts at a fixed target the first
      success leaves nginx serving a configuration equal to the target, and until then the running
      configuration is untouched. */
  lemma RetryConverges(running: Configuration, s: Serving, d: Configuration, attempts: seq<Attempt>)
    requires Serves(s, running)
    ensures var (running', s', ok) := Attempts(running, s, d, attempts);
            if ok then Serves(s', d) && |s'.certs| == |s'.loaded.servers| && ConfigEqual(Assembled(s'), d)
                       && ConfigEqual(running', d)
            else running' == running
  {
    AttemptsStep(running, s, d, attempts);
    var (_, s', ok) := Attempts(running, s, d, attempts);
    if ok {
      ServesMeansEqual(s', d);
    }
  }

  datatype Episode = Episode(target: Configuration, attempts: seq<Attempt>)

  /** A history in which the target changes only after a success. */
  function History(running: Configuration, s: Serving, es: seq<Episode>): (Configuration, Serving, bool)
    decreases |es|
  {
    if es == [] then (running, s, true)
    else
      var (running', s', ok) := Attempts(running, s, es[0].target, es[0].attempts);
      if ok then History(running', s', es[1..]) else (running', s', false)
  }

  /** One episode that ends in success leaves nginx serving both the target and the record. */
  lemma EpisodeServes(running: Configuration, s: Serving, e: Episode)
    requires WellFormed(running) && WellFormed(e.target) && Serves(s, running)
    requires Attempts(running, s, e.target, e.attempts).2
    ensures var (running', s', _) := Attempts(running, s, e.target, e.attempts);
            WellFormed(running') && Serves(s', running') && Serves(s', e.target)
  {
    var d := e.target;
    AttemptsStep(running, s, d, e.attempts);
    AttemptsKeepWellFormed(running, s, d, e.attempts);
    var (running', s', _) := Attempts(running, s, d, e.attempts);
    ConfigEqualSymmetric(running', d);
    ServesEqual(s', d, running');
  }

  /** Over any such history that ends in success, nginx serves the recorded configuration.  The record is the
      target up to the comparison, and what is loaded may be many targets old, so this needs the comparison to
      be transitive and, on what the server builder produces, symmetric. */
  lemma {:induction false} HistoryServes(running: Configuration, s: Serving, es: seq<Episode>)
    requires WellFormed(running) && Serves(s, running) && forall e | e in es :: WellFormed(e.target)
    requires History(running, s, es).2
    ensures Serves(History(running, s, es).1, History(running, s, es).0)
    ensures es != [] ==> Serves(History(running, s, es).1, es[|es| - 1].target)
    decreases |es|
  {
    if es != [] {
      assert es[0] in es;
      EpisodeServes(running, s, es[0]);
      var (running', s', _) := Attempts(running, s, es[0].target, es[0].attempts);
      HistoryServes(running', s', es[1..]);
      assert |es| > 1 ==> es[1..][|es| - 2] == es[|es| - 1];
    }
  }

  /** The certificates nginx was last told are those it started with or those of the target. */
  lemma {:induction false} RetryTold(running: Configuration, s: Serving, d: Configuration, tries: seq<Posts>)
    ensures var certs := Retry(running, s, d, tries).0.certs; certs == s.certs || certs == d.servers
    decreases |tries|
  {
    if tries != [] {
      var (s', ok) := Configure(running, s, d, tries[0]);
      if !ok {
        RetryTold(running, s', d, tries[1..]);
      }
    }
  }

  lemma {:induction false} AttemptsTold(running: Configuration, s: Serving, d: Configuration, attempts: seq<Attempt>)
    ensures var certs := Attempts(running, s, d, attempts).1.certs; certs == s.certs || certs == d.servers
    decreases |attempts|
  {
    if attempts != [] {
      var a := attempts[0];
      var d' := d.(configurationChecksum := a.hash);
      RetryTold(running, s, d, a.tries);
      RetryTold(running, s, d', a.tries);
      RetryTold(running, s.(loaded := d'), d', a.tries);
      var (running', s', ok) := Sync(running, s, d, a);
      if !ok {
        AttemptsTold(running', s', d, attempts[1..]);
      }
    }
  }

  /** After the first success nginx presents to every client what the target asks for, whatever its dictionaries held
      before, if the target settles the lookup of the client's name. */
  lemma RetryPresents(running: Configuration, s: Serving, d: Configuration, attempts: seq<Attempt>,
                      held: SSLConfiguration, serverName: Option<string>)
    requires Serves(s, running) && DistinctAliases(s.certs) && DistinctAliases(d.servers)
    requires Attempts(running, s, d, attempts).2 && Decided(Posted(d.servers), Candidates(serverName))
    ensures var told := Attempts(running, s, d, attempts).1.certs;
            Presented(Told(held, Posted(told)), serverName) == Asked(Posted(d.servers), serverName)
  {
    AttemptsStep(running, s, d, attempts);
    AttemptsTold(running, s, d, attempts);
    FittingIsPresented(held, Attempts(running, s, d, attempts).1.certs, d.servers, serverName);
  }

  /** An attempt in which nothing fails succeeds. */
  lemma NothingFailsSucceeds(running: Configuration, s: Serving, d: Configuration, a: Attempt)
    requires a.reload == Done && a.tries != [] && a.tries[0] == Posts(Done, Done, Done)
    ensures Sync(running, s, d, a).2
  {
  }

  // ----- A target that moves between failing attempts -----

  /** What a run of tries leaves of each dynamic part: the part the target shares with the running
      configuration is never posted; every other part is posted by the time of a success. */
  lemma {:induction false} RetryParts(running: Configuration, s: Serving, d: Configuration, tries: seq<Posts>)
    ensures var (s', ok) := Retry(running, s, d, tries);
            && s'.loaded == s.loaded
            && (running.backends == d.backends ==> s'.backends == s.backends)
            && (running.tcp == d.tcp && running.udp == d.udp ==> s'.tcp == s.tcp && s'.udp == s.udp)
            && (running.servers == d.servers ==> s'.certs == s.certs)
            && (ok ==> (running.backends != d.backends ==> s'.backends == d.backends)
                       && (running.tcp != d.tcp || running.udp != d.udp ==> s'.tcp == d.tcp && s'.udp == d.udp)
                       && (running.servers != d.servers ==> s'.certs == d.servers))
    decreases |tries|
  {
    if tries != [] {
      var (s', ok) := Configure(running, s, d, tries[0]);
      if !ok {
        RetryParts(running, s', d, tries[1..]);
      }
    }
  }

  /** The parts that an attempt at `d` will not touch already fit `d`. */
  ghost predicate UntouchedFit(running: Configuration, s: Serving, d: Configuration) {
    if ConfigEqual(running, d) then Serves(s, d)
    else
      && (DynamicEnough(running, d) ==> LoadedFits(s, d))
      && (running.backends == d.backends ==> BackendsFit(s, d))
      && (running.tcp == d.tcp && running.udp == d.udp ==> StreamsFit(s, d))
      && (running.servers == d.servers ==> CertsFit(s, d))
  }

  /** Whatever happened before, a successful attempt leaves nginx serving its target exactly when the parts
      it does not touch already fitted. */
  lemma SuccessServesIff(running: Configuration, s: Serving, d: Configuration, a: Attempt)
    requires Sync(running, s, d, a).2
    ensures Serves(Sync(running, s, d, a).1, d) <==> UntouchedFit(running, s, d)
  {
    if !ConfigEqual(running, d) {
      var d' := if DynamicEnough(running, d) then d else d.(configurationChecksum := a.hash);
      var s1 := if DynamicEnough(running, d) then s else s.(loaded := d');
      FitsItself(d);
      ChecksumUnseen(Sync(running, s, d, a).1, running, d, a.hash);
      RetryParts(running, s1, d', a.tries);
      assert (Sync(running, s, d, a).1, true) == Retry(running, s1, d', a.tries);
      assert !DynamicEnough(running, d) ==> LoadedFits(s1, d);
    }
  }

  /** A target with one backend more and other stream services. */
  function Grown(c: Configuration, b: Backend, tcp: List<L4Service>): Configuration
    requires c.backends.Items?
  {
    c.(backends := Items(c.backends.elems + [b]), tcp := tcp)
  }

  lemma GrownDiffers(c: Configuration, b: Backend, tcp: List<L4Service>)
    requires c.backends.Items?
    ensures var d := Grown(c, b, tcp);
            d.backends != c.backends && !Matches(d.backends, c.backends, BackendEqual) && !ConfigEqual(c, d)
  {
    assert |c.backends.elems + [b]| == |c.backends.elems| + 1;
  }

  /** A fixed target is needed.  nginx serves any configuration; the first attempt is at a target with one backend
      more, posts the backends and fails at the stream services; then the target has the old backends again, with
      any change or none to the global settings.  The second attempt posts no backends, succeeds, and leaves nginx
      with the backends of the abandoned target. */
  lemma MovingTargetDiverges(c: Configuration, b: Backend, tcp: List<L4Service>, settings: string, hash: string)
    requires c.backends.Items? && tcp != c.tcp
    ensures var d1, d2 := Grown(c, b, tcp), c.(backendConfigChecksum := settings);
            var s := Serving(c, c.backends, c.tcp, c.udp, c.servers);
            var fails := Attempt(hash, Done, [Posts(Done, Lost, Done)]);
            var works := Attempt(hash, Done, [Posts(Done, Done, Done)]);
            var (running1, s1, ok1) := Sync(c, s, d1, fails);
            var (_, s2, ok2) := Sync(running1, s1, d2, works);
            Serves(s, c) && !ok1 && running1 == c && ok2 && s2.backends == d1.backends && !Serves(s2, d2)
  {
    var d1, d2 := Grown(c, b, tcp), c.(backendConfigChecksum := settings);
    var s := Serving(c, c.backends, c.tcp, c.udp, c.servers);
    FitsItself(c);
    GrownDiffers(c, b, tcp);
    FirstAttemptFails(c, s, d1, hash);
    var (_, s1, _) := Sync(c, s, d1, Attempt(hash, Done, [Posts(Done, Lost, Done)]));
    KeepsBackends(c, s1, d2, hash);
  }

  lemma FirstAttemptFails(c: Configuration, s: Serving, d: Configuration, hash: string)
    requires !ConfigEqual(c, d) && c.backends != d.backends && c.tcp != d.tcp
    ensures var (running', s', ok) := Sync(c, s, d, Attempt(hash, Done, [Posts(Done, Lost, Done)]));
            !ok && running' == c && s'.backends == d.backends
  {
    var p := Posts(Done, Lost, Done);
    var d' := if DynamicEnough(c, d) then d else d.(configurationChecksum := hash);
    var s0 := if DynamicEnough(c, d) then s else s.(loaded := d');
    assert Configure(c, s0, d', p) == (s0.(backends := d.backends), false);
    assert [p][1..] == [];
    assert Retry(c, s0, d', [p]) == (s0.(backends := d.backends), false);
  }

  /** An attempt in which nothing fails leaves the backends alone when they are those of the running configuration. */
  lemma KeepsBackends(c: Configuration, s: Serving, d: Configuration, hash: string)
    requires c.backends == d.backends
    ensures var (_, s', ok) := Sync(c, s, d, Attempt(hash, Done, [Posts(Done, Done, Done)]));
            ok && s'.backends == s.backends
  {
    NothingFailsSucceeds(c, s, d, Attempt(hash, Done, [Posts(Done, Done, Done)]));
  }
}
