/** The synchronisation attempt: it reloads nginx when it must, posts what changed to the running nginx, and
    records the new configuration only when everything succeeded. */
module SyncLoop {
  import opened ConfigEquality
  import opened ReloadDecision

  /** How a request to nginx can end: it took effect; it failed and had no effect; it reported a failure
      although it took effect. */
  datatype Outcome = Done | Lost | Misreported {
    predicate Applied() { Done? || Misreported? }
  }

  /** The outcomes of the three posts of one dynamic configuration. */
  datatype Posts = Posts(backends: Outcome, streams: Outcome, certificates: Outcome)

  /** What nginx is serving: the configuration it was last loaded with, and the backends, the stream services
      and the servers whose certificates it was last told. */
  datatype Serving = Serving(loaded: Configuration, backends: List<Backend>,
                             tcp: List<L4Service>, udp: List<L4Service>, certs: seq<Server>)

  // ----- Specification -----

  /** One call of configureDynamically: posts what differs from the running configuration, in order, and stops
      at the first failure. */
  function Configure(running: Configuration, s: Serving, d: Configuration, p: Posts): (Serving, bool) {
    var s1 := if running.backends != d.backends && p.backends.Applied() then s.(backends := d.backends) else s;
    if running.backends != d.backends && p.backends != Done then (s1, false)
    else
      var streams := running.tcp != d.tcp || running.udp != d.udp;
      var s2 := if streams && p.streams.Applied() then s1.(tcp := d.tcp, udp := d.udp) else s1;
      if streams && p.streams != Done then (s2, false)
      else
        var certs := running.servers != d.servers;
        (if certs && p.certificates.Applied() then s2.(certs := d.servers) else s2,
         !certs || p.certificates == Done)
  }

  /** Repeated calls until one succeeds or the attempts are used up. */
  function Retry(running: Configuration, s: Serving, d: Configuration, tries: seq<Posts>): (Serving, bool)
    decreases |tries|
  {
    if tries == [] then (s, false)
    else
      var (s', ok) := Configure(running, s, d, tries[0]);
      if ok then (s', true) else Retry(running, s', d, tries[1..])
  }

  datatype Attempt = Attempt(hash: string, reload: Outcome, tries: seq<Posts>)

  /** One synchronisation attempt: the new running configuration, what nginx serves, and success. */
  function Sync(running: Configuration, s: Serving, d: Configuration, a: Attempt): (Configuration, Serving, bool) {
    if ConfigEqual(running, d) then (running, s, true)
    else if DynamicEnough(running, d) then
      var (s', ok) := Retry(running, s, d, a.tries);
      (if ok then d else running, s', ok)
    else
      var d' := d.(configurationChecksum := a.hash);
      var s1 := if a.reload.Applied() then s.(loaded := d') else s;
      if a.reload != Done then (running, s1, false)
      else
        var (s', ok) := Retry(running, s1, d', a.tries);
        (if ok then d' else running, s', ok)
  }

  // ----- The program -----

  class Nginx {
    var serving: Serving

    constructor (s: Serving)
      ensures serving == s
    {
      serving := s;
    }

    method Reload(d: Configuration, outcome: Outcome) returns (ok: bool)
      modifies this
      ensures ok == (outcome == Done)
      ensures serving == if outcome.Applied() then old(serving).(loaded := d) else old(serving)
    {
      if outcome.Applied() {
        serving := serving.(loaded := d);
      }
      return outcome == Done;
    }

    method PostBackends(backends: List<Backend>, outcome: Outcome) returns (ok: bool)
      modifies this
      ensures ok == (outcome == Done)
      ensures serving == if outcome.Applied() then old(serving).(backends := backends) else old(serving)
    {
      if outcome.Applied() {
        serving := serving.(backends := backends);
      }
      return outcome == Done;
    }

    method PostStreams(tcp: List<L4Service>, udp: List<L4Service>, outcome: Outcome) returns (ok: bool)
      modifies this
      ensures ok == (outcome == Done)
      ensures serving == if outcome.Applied() then old(serving).(tcp := tcp, udp := udp) else old(serving)
    {
      if outcome.Applied() {
        serving := serving.(tcp := tcp, udp := udp);
      }
      return outcome == Done;
    }

    method PostCertificates(servers: seq<Server>, outcome: Outcome) returns (ok: bool)
      modifies this
      ensures ok == (outcome == Done)
      ensures serving == if outcome.Applied() then old(serving).(certs := servers) else old(serving)
    {
      if outcome.Applied() {
        serving := serving.(certs := servers);
      }
      return outcome == Done;
    }
  }

  class Controller {
    var runningConfig: ConfigurationObject
    const nginx: Nginx

    constructor (running: ConfigurationObject, n: Nginx)
      ensures runningConfig == running && nginx == n
    {
      runningConfig, nginx := running, n;
    }

    method ConfigureDynamically(pcfg: ConfigurationObject, posts: Posts) returns (ok: bool)
      modifies nginx
      ensures (nginx.serving, ok) == Configure(runningConfig.Value(), old(nginx.serving), pcfg.Value(), posts)
    {
      var running, d := runningConfig.Value(), pcfg.Value();
      var backendsChanged := running.backends != d.backends;
      if backendsChanged {
        ok := nginx.PostBackends(d.backends, posts.backends);
        if !ok {
          return;
        }
      }
      var streamConfigurationChanged := running.tcp != d.tcp || running.udp != d.udp;
      if streamConfigurationChanged {
        ok := nginx.PostStreams(d.tcp, d.udp, posts.streams);
        if !ok {
          return;
        }
      }
      var serversChanged := running.servers != d.servers;
      if serversChanged {
        ok := nginx.PostCertificates(d.servers, posts.certificates);
        if !ok {
          return;
        }
      }
      return true;
    }

    /** Repeats the dynamic configuration until it succeeds or the tries are used up. */
    method RetryDynamically(pcfg: ConfigurationObject, tries: seq<Posts>) returns (ok: bool)
      modifies nginx
      ensures (nginx.serving, ok) == Retry(runningConfig.Value(), old(nginx.serving), pcfg.Value(), tries)
    {
      ok := false;
      ghost var running, d := runningConfig.Value(), pcfg.Value();
      var i := 0;
      assert tries[0..] == tries;
      while i < |tries| && !ok
        invariant 0 <= i <= |tries|
        invariant Retry(running, old(nginx.serving), d, tries) ==
                  if ok then (nginx.serving, true) else Retry(running, nginx.serving, d, tries[i..])
      {
        ok := ConfigureDynamically(pcfg, tries[i]);
        i := i + 1;
      }
    }

    /** Loads the configuration, marked with its checksum, into nginx. */
    method LoadNginx(pcfg: ConfigurationObject, hash: string, outcome: Outcome) returns (ok: bool)
      modifies nginx, pcfg`configurationChecksum
      ensures pcfg.Value() == old(pcfg.Value()).(configurationChecksum := hash)
      ensures ok == (outcome == Done)
      ensures nginx.serving ==
              if outcome.Applied() then old(nginx.serving).(loaded := pcfg.Value()) else old(nginx.serving)
    {
      pcfg.configurationChecksum := hash;
      ok := nginx.Reload(pcfg.Value(), outcome);
    }

    /** One attempt at a newly built configuration; `attempt` tells how the requests to nginx would end.  The
        back-off gives up after as many tries as there are entries in `attempt.tries`. */
    method SyncIngress(pcfg: ConfigurationObject, attempt: Attempt) returns (ok: bool)
      requires pcfg != runningConfig
      modifies this, nginx, pcfg`configurationChecksum
      ensures (runningConfig.Value(), nginx.serving, ok) ==
              Sync(old(runningConfig.Value()), old(nginx.serving), old(pcfg.Value()), attempt)
      ensures runningConfig == pcfg || runningConfig == old(runningConfig)
    {
      var same := CompareConfigurations(runningConfig.Value(), pcfg.Value());
      if same {
        return true;
      }
      var dynamicEnough := IsDynamicConfigurationEnough(runningConfig, pcfg);
      if !dynamicEnough {
        var reloaded := LoadNginx(pcfg, attempt.hash, attempt.reload);
        if !reloaded {
          return false;
        }
      }
      ok := RetryDynamically(pcfg, attempt.tries);
      if !ok {
        return;
      }
      runningConfig := pcfg;
    }
  }
}
