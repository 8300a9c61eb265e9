/** Runs of synchronisation attempts from any state of nginx: exactly when the first success serves its target, from a
    cold start, and while the target moves. */
module SyncRuns {
  import opened Basics
  import opened Matching
  import opened ConfigEquality
  import opened ConfigEqualityProperties
  import opened SyncLoop
  import opened SyncConvergence

  // ----- One target, any start -----

  /** A failed attempt touches no part that the target shares with the running configuration. */
  lemma FailureKeepsUntouched(running: Configuration, s: Serving, d: Configuration, a: Attempt)
    requires !Sync(running, s, d, a).2
    ensures UntouchedFit(running, Sync(running, s, d, a).1, d) <==> UntouchedFit(running, s, d)
  {
    var d' := if DynamicEnough(running, d) then d else d.(configurationChecksum := a.hash);
    var s1 := if !DynamicEnough(running, d) && a.reload.Applied() then s.(loaded := d') else s;
    RetryParts(running, s1, d', a.tries);
  }

  /** Whatever nginx was serving before: the first success at a target leaves it serving the target exactly when the
      parts that the target shares with the running configuration already fitted. */
  lemma {:induction false} FirstSuccessServesIff(running: Configuration, s: Serving, d: Configuration,
                                                 attempts: seq<Attempt>)
    requires Attempts(running, s, d, attempts).2
    ensures Serves(Attempts(running, s, d, attempts).1, d) <==> UntouchedFit(running, s, d)
    decreases |attempts|
  {
    var (running', s', ok) := Sync(running, s, d, attempts[0]);
    if ok {
      SuccessServesIff(running, s, d, attempts[0]);
    } else {
      FailureKeepsUntouched(running, s, d, attempts[0]);
      FirstSuccessServesIff(running, s', d, attempts[1..]);
    }
  }

  /** The running configuration of a fresh controller. */
  const ZERO := Configuration(Nil, [], Nil, Nil, [], "", "", None, [])

  /** Cold start: a fresh controller takes over an nginx in any state that was told of no stream services, or has a
      target with some.  The first success at what the builder makes, which has servers and backends, serves it. */
  lemma ColdStartServes(s: Serving, d: Configuration, attempts: seq<Attempt>)
    requires Attempts(ZERO, s, d, attempts).2
    requires d.servers != [] && d.backends.Items?
    requires (s.tcp.Nil? && s.udp.Nil?) || d.tcp.Items? || d.udp.Items?
    ensures Serves(Attempts(ZERO, s, d, attempts).1, d)
  {
    assert !ConfigEqual(ZERO, d);
    assert |ClearServers(ZERO.servers)| == 0 && |ClearServers(d.servers)| > 0;
    assert !DynamicEnough(ZERO, d);
    FirstSuccessServesIff(ZERO, s, d, attempts);
  }

  // ----- A moving target -----

  /** One attempt and the target it was made for. */
  datatype Aim = Aim(target: Configuration, attempt: Attempt)

  predicate Reloads(running: Configuration, a: Aim) {
    !ConfigEqual(running, a.target) && !DynamicEnough(running, a.target) && a.attempt.reload.Applied()
  }

  /** The attempt comes as far as posting. */
  predicate Posting(running: Configuration, a: Aim) {
    !ConfigEqual(running, a.target) && (DynamicEnough(running, a.target) || a.attempt.reload == Done)
  }

  predicate PostsBackends(running: Configuration, a: Aim) {
    && Posting(running, a) && running.backends != a.target.backends
    && SomeBackends(a.attempt.tries)
  }

  predicate PastBackends(running: Configuration, d: Configuration, t: Posts) {
    running.backends == d.backends || t.backends == Done
  }

  predicate PostsStreams(running: Configuration, a: Aim) {
    && Posting(running, a) && (running.tcp != a.target.tcp || running.udp != a.target.udp)
    && SomeStreams(running, a.target, a.attempt.tries)
  }

  predicate PastStreams(running: Configuration, d: Configuration, t: Posts) {
    PastBackends(running, d, t) && ((running.tcp == d.tcp && running.udp == d.udp) || t.streams == Done)
  }

  predicate PostsCertificates(running: Configuration, a: Aim) {
    && Posting(running, a) && running.servers != a.target.servers
    && SomeCertificates(running, a.target, a.attempt.tries)
  }

  predicate SomeBackends(tries: seq<Posts>) { exists t | t in tries :: t.backends.Applied() }

  predicate SomeStreams(running: Configuration, d: Configuration, tries: seq<Posts>) {
    exists t | t in tries :: PastBackends(running, d, t) && t.streams.Applied()
  }

  predicate SomeCertificates(running: Configuration, d: Configuration, tries: seq<Posts>) {
    exists t | t in tries :: PastStreams(running, d, t) && t.certificates.Applied()
  }

  lemma SomeHead(running: Configuration, d: Configuration, tries: seq<Posts>)
    requires tries != []
    ensures SomeBackends(tries) <==> tries[0].backends.Applied() || SomeBackends(tries[1..])
    ensures SomeStreams(running, d, tries) <==>
            (PastBackends(running, d, tries[0]) && tries[0].streams.Applied()) || SomeStreams(running, d, tries[1..])
    ensures SomeCertificates(running, d, tries) <==>
            (PastStreams(running, d, tries[0]) && tries[0].certificates.Applied())
            || SomeCertificates(running, d, tries[1..])
  {
    assert tries == [tries[0]] + tries[1..];
    assert forall t :: t in tries <==> t == tries[0] || t in tries[1..];
  }

  /** A part posted by some of the tries is the target's, the others are as they were. */
  function Told(running: Configuration, s: Serving, d: Configuration, backends: bool, streams: bool, certs: bool)
    : Serving
  {
    var s1 := if running.backends != d.backends && backends then s.(backends := d.backends) else s;
    var s2 := if (running.tcp != d.tcp || running.udp != d.udp) && streams
              then s1.(tcp := d.tcp, udp := d.udp) else s1;
    if running.servers != d.servers && certs then s2.(certs := d.servers) else s2
  }

  lemma OneTry(running: Configuration, s: Serving, d: Configuration, t: Posts)
    requires !Configure(running, s, d, t).1
    ensures Configure(running, s, d, t).0 ==
            Told(running, s, d, t.backends.Applied(), PastBackends(running, d, t) && t.streams.Applied(),
                 PastStreams(running, d, t) && t.certificates.Applied())
  {
  }

  /** What a run of failing tries leaves: a part is the target's if one of the tries posted it. */
  lemma {:induction false} FailingTries(running: Configuration, s: Serving, d: Configuration, tries: seq<Posts>)
    requires !Retry(running, s, d, tries).1
    ensures Retry(running, s, d, tries).0 ==
            Told(running, s, d, SomeBackends(tries), SomeStreams(running, d, tries),
                 SomeCertificates(running, d, tries))
    decreases |tries|
  {
    if tries != [] {
      var t := tries[0];
      var s1 := Configure(running, s, d, t).0;
      OneTry(running, s, d, t);
      FailingTries(running, s1, d, tries[1..]);
      SomeHead(running, d, tries);
      ToldTwice(running, s, d, t.backends.Applied(), PastBackends(running, d, t) && t.streams.Applied(),
                PastStreams(running, d, t) && t.certificates.Applied(),
                SomeBackends(tries[1..]), SomeStreams(running, d, tries[1..]),
                SomeCertificates(running, d, tries[1..]));
    }
  }

  lemma ToldTwice(running: Configuration, s: Serving, d: Configuration, b: bool, t: bool, c: bool,
                  b': bool, t': bool, c': bool)
    ensures Told(running, Told(running, s, d, b, t, c), d, b', t', c') ==
            Told(running, s, d, b || b', t || t', c || c')
  {
  }

  /** What one failing attempt leaves. */
  function Leave(running: Configuration, s: Serving, a: Aim): Serving {
    var d := a.target;
    var s1 := if Reloads(running, a) then s.(loaded := d.(configurationChecksum := a.attempt.hash)) else s;
    var s2 := if PostsBackends(running, a) then s1.(backends := d.backends) else s1;
    var s3 := if PostsStreams(running, a) then s2.(tcp := d.tcp, udp := d.udp) else s2;
    if PostsCertificates(running, a) then s3.(certs := d.servers) else s3
  }

  lemma FailureLeaves(running: Configuration, s: Serving, a: Aim)
    requires !Sync(running, s, a.target, a.attempt).2
    ensures Sync(running, s, a.target, a.attempt).1 == Leave(running, s, a)
  {
    var d := a.target;
    var d' := if DynamicEnough(running, d) then d else d.(configurationChecksum := a.attempt.hash);
    var s1 := if Reloads(running, a) then s.(loaded := d') else s;
    if Posting(running, a) {
      FailingTries(running, s1, d', a.attempt.tries);
      assert SomeStreams(running, d', a.attempt.tries) == SomeStreams(running, d, a.attempt.tries) by {
        assert forall t :: PastBackends(running, d', t) == PastBackends(running, d, t);
      }
      assert SomeCertificates(running, d', a.attempt.tries) == SomeCertificates(running, d, a.attempt.tries) by {
        assert forall t :: PastStreams(running, d', t) == PastStreams(running, d, t);
      }
    }
  }

  /** What nginx serves after a run of attempts, and that all of them fail. */
  function After(running: Configuration, s: Serving, run: seq<Aim>): Serving {
    if run == [] then s
    else
      var a := run[|run| - 1];
      Sync(running, After(running, s, run[..|run| - 1]), a.target, a.attempt).1
  }

  predicate AllFail(running: Configuration, s: Serving, run: seq<Aim>) {
    run == [] ||
    (var a := run[|run| - 1];
     && AllFail(running, s, run[..|run| - 1])
     && !Sync(running, After(running, s, run[..|run| - 1]), a.target, a.attempt).2)
  }

  /** The last attempt of the run that did something. */
  function Last(run: seq<Aim>, did: Aim -> bool): Option<Aim> {
    if run == [] then None
    else if did(run[|run| - 1]) then Some(run[|run| - 1])
    else Last(run[..|run| - 1], did)
  }

  function LastReload(running: Configuration, run: seq<Aim>): Option<Aim> { Last(run, a => Reloads(running, a)) }

  function LastBackends(running: Configuration, run: seq<Aim>): Option<Aim> {
    Last(run, a => PostsBackends(running, a))
  }

  function LastStreams(running: Configuration, run: seq<Aim>): Option<Aim> { Last(run, a => PostsStreams(running, a)) }

  function LastCertificates(running: Configuration, run: seq<Aim>): Option<Aim> {
    Last(run, a => PostsCertificates(running, a))
  }

  /** Each part is that of the last attempt of the run that got it through. */
  predicate LeftBy(running: Configuration, s: Serving, run: seq<Aim>, left: Serving) {
    && left.loaded == (match LastReload(running, run)
                       case None => s.loaded
                       case Some(a) => a.target.(configurationChecksum := a.attempt.hash))
    && left.backends == (match LastBackends(running, run) case None => s.backends case Some(a) => a.target.backends)
    && (left.tcp, left.udp) == (match LastStreams(running, run)
                                case None => (s.tcp, s.udp)
                                case Some(a) => (a.target.tcp, a.target.udp))
    && left.certs == (match LastCertificates(running, run) case None => s.certs case Some(a) => a.target.servers)
  }

  lemma LeftBySnoc(running: Configuration, s: Serving, run: seq<Aim>, before: Serving)
    requires run != [] && LeftBy(running, s, run[..|run| - 1], before)
    ensures LeftBy(running, s, run, Leave(running, before, run[|run| - 1]))
  {
  }

  /** What nginx serves after a run of failures. */
  lemma {:induction false} RunLeaves(running: Configuration, s: Serving, run: seq<Aim>)
    requires AllFail(running, s, run)
    ensures LeftBy(running, s, run, After(running, s, run))
  {
    if run != [] {
      var init, a := run[..|run| - 1], run[|run| - 1];
      RunLeaves(running, s, init);
      var before := After(running, s, init);
      FailureLeaves(running, before, a);
      LeftBySnoc(running, s, run, before);
    }
  }

  /** The parts that a success at `d` leaves as they are. */
  predicate KeepsBackendsOf(running: Configuration, d: Configuration) {
    ConfigEqual(running, d) || running.backends == d.backends
  }

  predicate KeepsStreamsOf(running: Configuration, d: Configuration) {
    ConfigEqual(running, d) || (running.tcp == d.tcp && running.udp == d.udp)
  }

  predicate KeepsCertificatesOf(running: Configuration, d: Configuration) {
    ConfigEqual(running, d) || running.servers == d.servers
  }

  predicate ReloadStale(running: Configuration, run: seq<Aim>, d: Configuration) {
    var a := LastReload(running, run);
    DynamicEnough(running, d) && a.Some? && !DynamicEnough(a.value.target, d)
  }

  predicate BackendsStale(running: Configuration, run: seq<Aim>, d: Configuration) {
    var a := LastBackends(running, run);
    KeepsBackendsOf(running, d) && a.Some? && !Matches(a.value.target.backends, d.backends, BackendEqual)
  }

  predicate StreamsStale(running: Configuration, run: seq<Aim>, d: Configuration) {
    var a := LastStreams(running, run);
    && KeepsStreamsOf(running, d) && a.Some?
    && !(Matches(a.value.target.tcp, d.tcp, L4Equal) && Matches(a.value.target.udp, d.udp, L4Equal))
  }

  predicate CertificatesStale(running: Configuration, run: seq<Aim>, d: Configuration) {
    var a := LastCertificates(running, run);
    KeepsCertificatesOf(running, d) && a.Some? && !CertsEqual(a.value.target.servers, d.servers)
  }

  /** No attempt of the run left behind a part that a success at `d` keeps and that does not fit `d`. */
  predicate NothingStale(running: Configuration, run: seq<Aim>, d: Configuration) {
    && !ReloadStale(running, run, d)
    && !BackendsStale(running, run, d)
    && !StreamsStale(running, run, d)
    && !CertificatesStale(running, run, d)
  }

  /** The same with what was left. */
  ghost predicate KeptFit(running: Configuration, s: Serving, d: Configuration) {
    && (DynamicEnough(running, d) ==> LoadedFits(s, d))
    && (KeepsBackendsOf(running, d) ==> BackendsFit(s, d))
    && (KeepsStreamsOf(running, d) ==> StreamsFit(s, d))
    && (KeepsCertificatesOf(running, d) ==> CertsFit(s, d))
  }

  lemma UntouchedIsKept(running: Configuration, s: Serving, d: Configuration)
    ensures UntouchedFit(running, s, d) <==> KeptFit(running, s, d)
  {
    if ConfigEqual(running, d) {
      EqualNeverReloads(running, d);
    }
  }

  lemma KeptOfRunning(running: Configuration, s: Serving, d: Configuration)
    requires Serves(s, running)
    ensures KeptFit(running, s, d)
  {
    if DynamicEnough(running, d) {
      DynamicEnoughTransitive(s.loaded, running, d);
    }
    if ConfigEqual(running, d) {
      ServesEqual(s, running, d);
    }
  }

  lemma LoadedLeftFits(running: Configuration, s: Serving, run: seq<Aim>, left: Serving, d: Configuration)
    requires KeptFit(running, s, d) && LeftBy(running, s, run, left)
    ensures (DynamicEnough(running, d) ==> LoadedFits(left, d)) <==> !ReloadStale(running, run, d)
  {
    var a := LastReload(running, run);
    if a.Some? {
      ChecksumLoaded(left, a.value.target, a.value.attempt.hash, d);
    }
  }

  lemma ChecksumLoaded(s: Serving, c: Configuration, hash: string, d: Configuration)
    requires s.loaded == c.(configurationChecksum := hash)
    ensures LoadedFits(s, d) <==> DynamicEnough(c, d)
  {
  }

  lemma BackendsLeftFit(running: Configuration, s: Serving, run: seq<Aim>, left: Serving, d: Configuration)
    requires KeptFit(running, s, d) && LeftBy(running, s, run, left)
    ensures (KeepsBackendsOf(running, d) ==> BackendsFit(left, d)) <==> !BackendsStale(running, run, d)
  {
  }

  lemma StreamsLeftFit(running: Configuration, s: Serving, run: seq<Aim>, left: Serving, d: Configuration)
    requires KeptFit(running, s, d) && LeftBy(running, s, run, left)
    ensures (KeepsStreamsOf(running, d) ==> StreamsFit(left, d)) <==> !StreamsStale(running, run, d)
  {
  }

  lemma CertificatesLeftFit(running: Configuration, s: Serving, run: seq<Aim>, left: Serving, d: Configuration)
    requires KeptFit(running, s, d) && LeftBy(running, s, run, left)
    ensures (KeepsCertificatesOf(running, d) ==> CertsFit(left, d)) <==> !CertificatesStale(running, run, d)
  {
  }

  lemma UntouchedIffNothingStale(running: Configuration, s: Serving, run: seq<Aim>, d: Configuration)
    requires Serves(s, running) && AllFail(running, s, run)
    ensures UntouchedFit(running, After(running, s, run), d) <==> NothingStale(running, run, d)
  {
    RunLeaves(running, s, run);
    KeptOfRunning(running, s, d);
    var left := After(running, s, run);
    LoadedLeftFits(running, s, run, left, d);
    BackendsLeftFit(running, s, run, left, d);
    StreamsLeftFit(running, s, run, left, d);
    CertificatesLeftFit(running, s, run, left, d);
    UntouchedIsKept(running, left, d);
  }

  /** With a target that moves: nginx serves the running configuration, then attempts at any targets fail, then one
      succeeds.  It leaves nginx serving its target exactly when nothing stale was left behind that it does not
      replace. */
  lemma MovingTargetServesIff(running: Configuration, s: Serving, run: seq<Aim>, d: Configuration, a: Attempt)
    requires Serves(s, running) && AllFail(running, s, run)
    requires Sync(running, After(running, s, run), d, a).2
    ensures Serves(Sync(running, After(running, s, run), d, a).1, d) <==> NothingStale(running, run, d)
  {
    SuccessServesIff(running, After(running, s, run), d, a);
    UntouchedIffNothingStale(running, s, run, d);
  }
}
