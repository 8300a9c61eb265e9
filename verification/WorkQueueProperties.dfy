/** No enqueue is lost: over every run with one worker, a clock that never goes back and no shutdown. */
module WorkQueueProperties {
  import opened Basics
  import opened WorkQueue

  /** Processing the element will cover an enqueue whose time stamp is `t`. */
  predicate Covers(e: Element, t: int) {
    e.timestamp == 0 || e.timestamp >= t
  }

  /** The enqueue stamped at reading `at` still has an element that will cover it. */
  ghost predicate Pending(s: State, at: nat)
    requires at < |s.clock|
  {
    || (exists e | e in s.store.dirty + s.store.waiting :: Covers(e, s.clock[at]))
    || (s.worker.Holding? && Covers(s.worker.item, s.clock[at]))
    || (s.worker.Syncing? && s.worker.at >= at)
  }

  /** A sync that began no earlier than the enqueue took its stamp has succeeded. */
  ghost predicate Covered(s: State, at: nat) {
    exists d | d in s.succeeded :: d >= at
  }

  function WorkerItems(w: Worker): set<Element> {
    if w == Idle then {} else {w.item}
  }

  /** The bookkeeping of the work queue: what is queued is exactly what is dirty and not handed out. */
  ghost predicate StoreValid(s: State) {
    && s.store.processing == WorkerItems(s.worker)
    && (forall e :: e in s.store.queue <==> e in s.store.dirty && e !in s.store.processing)
    && NoDup(s.store.queue)
  }

  /** The clock readings are positive and never go back. */
  ghost predicate Forward(clock: seq<int>) {
    clock != [] && forall i, j | 0 <= i <= j < |clock| :: 0 < clock[i] <= clock[j]
  }

  ghost predicate ClockValid(s: State) {
    && Forward(s.clock)
    && (forall at | at in s.accepted :: at < |s.clock|)
    && (forall d | d in s.succeeded :: d < |s.clock|)
    && (s.worker.Syncing? ==> s.worker.at < |s.clock|)
    && (s.lastSync == 0 || exists d | d in s.succeeded :: s.clock[d] == s.lastSync)
    && TimesValid(s)
  }

  ghost predicate Invariant(s: State) {
    && StoreValid(s) && ClockValid(s) && !s.store.shuttingDown
    && forall at | at in s.accepted :: Pending(s, at) || Covered(s, at)
  }

  /** The steps the guarantee speaks about: the clock does not go back and nobody shuts the queue down. */
  predicate Benign(s: State, step: Step) {
    Enabled(s, step) && !step.ShutDownStep? && (step.Tick? ==> s.clock[|s.clock| - 1] <= step.to)
  }

  // ----- Every step keeps the bookkeeping -----

  lemma AddKeepsStore(s: State, e: Element)
    requires StoreValid(s)
    ensures StoreValid(s.(store := s.store.Add(e)))
  {
  }

  lemma GetKeepsStore(s: State)
    requires StoreValid(s) && s.worker == Idle && s.store.queue != []
    ensures StoreValid(Get(s))
  {
    var q := s.store.queue;
    assert q == [q[0]] + q[1..];
    forall e | e in q[1..] ensures e != q[0] {
      var i :| 0 <= i < |q[1..]| && q[1..][i] == e;
      assert q[i + 1] == e;
    }
  }

  lemma DoneKeepsStore(s: State)
    requires StoreValid(s) && s.worker != Idle
    ensures StoreValid(s.(store := s.store.Done(s.worker.item), worker := Idle))
  {
  }

  lemma StepKeepsStore(s: State, step: Step)
    requires StoreValid(s) && Enabled(s, step)
    ensures StoreValid(Next(s, step))
  {
    match step
    case EnqueueStep(key, skippable, read, reread) =>
      if key.Some? {
        AddKeepsStore(s, Element(key.value, if skippable then s.clock[read] else s.clock[reread] + DAY));
      }
    case ReleaseStep(e) =>
      AddKeepsStore(s.(store := s.store.(waiting := s.store.waiting - {e})), e);
    case GetStep => GetKeepsStore(s);
    case BeginStep => DoneKeepsStore(s);
    case FinishStep(ok) =>
      DoneKeepsStore(s);
      DoneKeepsStore(s.(store := s.store.AddRateLimited(Element(s.worker.item.key, 0))));
    case _ =>
  }

  ghost predicate TimesValid(s: State) {
    forall e | e in s.store.dirty + s.store.waiting + WorkerItems(s.worker) :: e.timestamp >= 0
  }

  lemma StepKeepsTimes(s: State, step: Step)
    requires TimesValid(s) && StoreValid(s) && Forward(s.clock) && Benign(s, step)
    ensures TimesValid(Next(s, step))
  {
  }

  lemma StepKeepsForward(s: State, step: Step)
    requires Forward(s.clock) && Benign(s, step)
    ensures Forward(Next(s, step).clock)
  {
  }

  lemma StepKeepsClock(s: State, step: Step)
    requires ClockValid(s) && StoreValid(s) && Benign(s, step)
    ensures ClockValid(Next(s, step))
  {
    var s' := Next(s, step);
    StepKeepsTimes(s, step);
    StepKeepsForward(s, step);
    assert forall i | 0 <= i < |s.clock| :: s'.clock[i] == s.clock[i];
    if step.FinishStep? && step.ok {
      assert s.worker.at in s'.succeeded && s'.clock[s.worker.at] == s'.lastSync;
    }
  }

  /** A skipped element covers nothing that is not covered: a sync with a later time stamp began later. */
  lemma SkipCovers(s: State, item: Element, at: nat)
    requires ClockValid(s) && at in s.accepted && Covers(item, s.clock[at]) && Skips(s, item) && item.timestamp >= 0
    ensures Covered(s, at)
  {
    var d :| d in s.succeeded && s.clock[d] == s.lastSync;
    assert s.clock[d] > s.clock[at];
  }

  lemma PendingBy(s: State, at: nat, e: Element)
    requires at < |s.clock| && (e in s.store.dirty || e in s.store.waiting) && Covers(e, s.clock[at])
    ensures Pending(s, at)
  {
    assert e in s.store.dirty + s.store.waiting;
  }

  /** What was pending stays pending, or is covered by a sync that succeeded. */
  lemma StepKeepsPending(s: State, step: Step, at: nat)
    requires Invariant(s) && Benign(s, step) && at in s.accepted && Pending(s, at)
    ensures Pending(Next(s, step), at) || Covered(Next(s, step), at)
  {
    var s' := Next(s, step);
    assert s'.clock[at] == s.clock[at];
    if s.worker.Syncing? && s.worker.at >= at {
      if step.FinishStep? {
        if step.ok {
          assert s.worker.at in s'.succeeded;
        } else {
          PendingBy(s', at, Element(s.worker.item.key, 0));
        }
      }
    } else if s.worker.Holding? && Covers(s.worker.item, s.clock[at]) {
      if step.BeginStep? && Skips(s, s.worker.item) {
        SkipCovers(s, s.worker.item, at);
      }
    } else {
      var e :| e in s.store.dirty + s.store.waiting && Covers(e, s.clock[at]);
      if !(step.GetStep? && e == s.store.queue[0]) {
        PendingBy(s', at, e);
      }
    }
  }

  /** An accepted enqueue leaves an element that covers it. */
  lemma EnqueueIsPending(s: State, step: Step)
    requires Invariant(s) && Benign(s, step) && step.EnqueueStep? && step.key.Some?
    ensures Pending(Next(s, step), step.read)
  {
    var e := Element(step.key.value, if step.skippable then s.clock[step.read] else s.clock[step.reread] + DAY);
    assert e in Next(s, step).store.dirty && Covers(e, Next(s, step).clock[step.read]);
  }

  lemma StepKeepsInvariant(s: State, step: Step)
    requires Invariant(s) && Benign(s, step)
    ensures Invariant(Next(s, step))
  {
    var s' := Next(s, step);
    StepKeepsStore(s, step);
    StepKeepsClock(s, step);
    forall at | at in s'.accepted ensures Pending(s', at) || Covered(s', at) {
      if at !in s.accepted {
        EnqueueIsPending(s, step);
      } else if Pending(s, at) {
        StepKeepsPending(s, step, at);
      } else {
        var d :| d in s.succeeded && d >= at;
        assert d in s'.succeeded;
      }
    }
  }

  // ----- Whole runs -----

  ghost predicate IsRun(run: seq<State>, steps: seq<Step>, now: int) {
    && |run| == |steps| + 1 && run[0] == Start(now)
    && forall i | 0 <= i < |steps| :: Enabled(run[i], steps[i]) && run[i + 1] == Next(run[i], steps[i])
  }

  ghost predicate BenignRun(run: seq<State>, steps: seq<Step>, now: int) {
    now > 0 && IsRun(run, steps, now) && forall i | 0 <= i < |steps| :: Benign(run[i], steps[i])
  }

  lemma {:induction false} RunKeepsInvariant(run: seq<State>, steps: seq<Step>, now: int, i: nat)
    requires BenignRun(run, steps, now) && i < |run|
    ensures Invariant(run[i])
  {
    if i > 0 {
      RunKeepsInvariant(run, steps, now, i - 1);
      StepKeepsInvariant(run[i - 1], steps[i - 1]);
    }
  }

  /** No lost update: at every point of every run each accepted enqueue is still pending or is covered by a
      successful sync that began no earlier than the enqueue. */
  lemma NoLostUpdate(run: seq<State>, steps: seq<Step>, now: int, i: nat, at: nat)
    requires BenignRun(run, steps, now) && i < |run| && at in run[i].accepted
    ensures at < |run[i].clock| && (Pending(run[i], at) || Covered(run[i], at))
  {
    RunKeepsInvariant(run, steps, now, i);
  }

  predicate Drained(s: State) {
    s.store.queue == [] && s.store.waiting == {} && s.worker == Idle
  }

  /** A queue with nothing queued, waiting or in process has covered every enqueue. */
  lemma DrainedCoversAll(run: seq<State>, steps: seq<Step>, now: int, i: nat, at: nat)
    requires BenignRun(run, steps, now) && i < |run| && Drained(run[i]) && at in run[i].accepted
    ensures Covered(run[i], at)
  {
    RunKeepsInvariant(run, steps, now, i);
    var s := run[i];
    forall e ensures e !in s.store.dirty + s.store.waiting {
      assert e !in s.store.queue;
    }
  }

  // ----- The hypotheses are needed -----

  ghost predicate LosesUpdate(s: State) {
    Drained(s) && exists at | at in s.accepted :: !Covered(s, at)
  }

  /** One skippable enqueue that the worker took and began to sync at time `t`. */
  function SyncBegun(t: int): State
    requires t > 0
  {
    var e := Next(Start(t), EnqueueStep(Some("a"), true, 0, 0));
    assert e.store.queue == [Element("a", t)];
    Next(Next(e, GetStep), BeginStep)
  }

  lemma SyncBegunState(t: int)
    requires t > 0
    ensures SyncBegun(t) == State(Store([], {}, {Element("a", t)}, {}, false), Syncing(Element("a", t), 2), 0,
                                  [t, t, t, t], {0}, {})
  {
    var e := Next(Start(t), EnqueueStep(Some("a"), true, 0, 0));
    assert e.store.queue == [Element("a", t)];
    assert e.store.queue[1..] == [];
  }

  /** When the clock is set back between two syncs, the second enqueue is skipped and never covered. */
  lemma ClockSetBackLoses(t: int, earlier: int)
    requires 0 < earlier < t
    ensures Enabled(SyncBegun(t), FinishStep(true))
    ensures var s := Next(Next(SyncBegun(t), FinishStep(true)), Tick(earlier));
            var e := Next(s, EnqueueStep(Some("a"), true, 5, 5));
            && e.worker == Idle && e.store.queue != []
            && LosesUpdate(Next(Next(e, GetStep), BeginStep))
  {
    SyncBegunState(t);
    var s := Next(Next(SyncBegun(t), FinishStep(true)), Tick(earlier));
    assert s == State(Store([], {}, {}, {}, false), Idle, t, [t, t, t, t, t, earlier], {0}, {2});
    var e := Next(s, EnqueueStep(Some("a"), true, 5, 5));
    assert e.store.queue == [Element("a", earlier)];
    var last := Next(Next(e, GetStep), BeginStep);
    assert 5 in last.accepted && last.succeeded == {2};
  }

  /** When the queue is shut down during a sync that fails, the retry is dropped and the enqueue never covered. */
  lemma ShutDownLoses(t: int)
    requires t > 0
    ensures var s := Next(SyncBegun(t), ShutDownStep);
            Enabled(s, FinishStep(false)) && LosesUpdate(Next(s, FinishStep(false)))
  {
    SyncBegunState(t);
    var last := Next(Next(SyncBegun(t), ShutDownStep), FinishStep(false));
    assert 0 in last.accepted && last.succeeded == {};
  }
}
