/** Exactly which elements the worker skips, over every run with a clock that never goes back and no shutdown. */
module SkippedElements {
  import opened Basics
  import opened WorkQueue
  import opened WorkQueueProperties

  // ----- lastSync is the start of the latest successful sync -----

  ghost predicate LastSyncValid(s: State) {
    && (forall d | d in s.succeeded :: d < |s.clock| && s.clock[d] <= s.lastSync)
    && (s.worker.Syncing? ==> forall d | d in s.succeeded :: d <= s.worker.at)
  }

  lemma StepKeepsLastSync(s: State, step: Step)
    requires ClockValid(s) && LastSyncValid(s) && Benign(s, step)
    ensures LastSyncValid(Next(s, step))
  {
    var s' := Next(s, step);
    assert forall i | 0 <= i < |s.clock| :: s'.clock[i] == s.clock[i];
    if step.FinishStep? && step.ok {
      forall d | d in s'.succeeded ensures s'.clock[d] <= s'.lastSync {
        assert d <= s.worker.at;
      }
    }
  }

  lemma {:induction false} RunKeepsLastSync(run: seq<State>, steps: seq<Step>, now: int, i: nat)
    requires BenignRun(run, steps, now) && i < |run|
    ensures Invariant(run[i]) && LastSyncValid(run[i])
  {
    RunKeepsInvariant(run, steps, now, i);
    if i > 0 {
      RunKeepsLastSync(run, steps, now, i - 1);
      StepKeepsLastSync(run[i - 1], steps[i - 1]);
    }
  }

  /** At any point of a run an element is skipped exactly if it is no retry and a sync has succeeded that began after
      its time stamp. */
  lemma SkipsIff(run: seq<State>, steps: seq<Step>, now: int, i: nat, item: Element)
    requires BenignRun(run, steps, now) && i < |run| && item.timestamp >= 0
    ensures Skips(run[i], item) <==>
            item.timestamp != 0 &&
            exists d | d in run[i].succeeded :: d < |run[i].clock| && run[i].clock[d] > item.timestamp
  {
    RunKeepsLastSync(run, steps, now, i);
    var s := run[i];
    if s.lastSync > item.timestamp {
      var d :| d in s.succeeded && s.clock[d] == s.lastSync;
    }
  }

  // ----- What an enqueue puts into the queue -----

  /** Step `i` enqueues under the key; for an element that must not be skipped the stamp is a day ahead: 24 hours of
      3600 seconds of 10^9 nanoseconds. */
  predicate Enqueues(run: seq<State>, steps: seq<Step>, i: nat, key: string, skippable: bool, stamp: int) {
    && i < |steps| < |run| && steps[i].EnqueueStep? && steps[i].key == Some(key) && steps[i].skippable == skippable
    && steps[i].read < |run[i].clock| && steps[i].reread < |run[i].clock|
    && stamp == if skippable then run[i].clock[steps[i].read]
                else run[i].clock[steps[i].reread] + 24 * 3600 * 1_000_000_000
  }

  lemma EnqueuedIsDirty(run: seq<State>, steps: seq<Step>, now: int, i: nat, key: string, skippable: bool, stamp: int)
    requires BenignRun(run, steps, now) && Enqueues(run, steps, i, key, skippable, stamp)
    ensures Element(key, stamp) in run[i + 1].store.dirty && steps[i].read in run[i + 1].accepted && stamp > 0
  {
    RunKeepsInvariant(run, steps, now, i);
  }

  /** The element of a skippable enqueue is skipped exactly if a sync that began after it took its stamp has succeeded;
      that of any other, exactly if one has that began more than a day after. */
  lemma EnqueuedSkippedIff(run: seq<State>, steps: seq<Step>, now: int, i: nat, key: string, skippable: bool,
                           stamp: int, j: nat)
    requires BenignRun(run, steps, now) && Enqueues(run, steps, i, key, skippable, stamp) && j < |run|
    ensures Skips(run[j], Element(key, stamp)) <==>
            exists d | d in run[j].succeeded :: d < |run[j].clock| && run[j].clock[d] > stamp
  {
    EnqueuedIsDirty(run, steps, now, i, key, skippable, stamp);
    SkipsIff(run, steps, now, j, Element(key, stamp));
  }

  // ----- What must not be skipped is synced -----

  /** The latest reading of the clock. */
  function Now(s: State): int
    requires s.clock != []
  {
    s.clock[|s.clock| - 1]
  }

  ghost predicate SyncedBetween(run: seq<State>, i: nat, j: nat, e: Element) {
    exists k: nat :: i < k <= j < |run| && run[k].worker.Syncing? && run[k].worker.item == e
  }

  /** Until the clock has passed its stamp, an element is not skipped: it stays until the worker syncs it. */
  lemma StepKeepsElement(s: State, step: Step, e: Element)
    requires Invariant(s) && LastSyncValid(s) && Benign(s, step) && Now(Next(s, step)) <= e.timestamp
    requires e in s.store.dirty || s.worker == Holding(e)
    ensures var s' := Next(s, step);
            e in s'.store.dirty || s'.worker == Holding(e) || (s'.worker.Syncing? && s'.worker.item == e)
  {
    assert forall i | 0 <= i < |s.clock| :: Next(s, step).clock[i] == s.clock[i];
    if step.BeginStep? && s.worker == Holding(e) {
      assert s.lastSync <= Now(s);
    }
  }

  /** The element is still to be synced, or has been taken into a sync since step `i`. */
  ghost predicate Stays(run: seq<State>, i: nat, j: nat, e: Element)
    requires j < |run|
  {
    e in run[j].store.dirty || run[j].worker == Holding(e) || SyncedBetween(run, i, j, e)
  }

  /** An accepted enqueue that must not be skipped: as long as the clock is not more than a day past it, its element
      is still there or has been taken into a sync since. */
  lemma {:induction false} StaysUntilSynced(run: seq<State>, steps: seq<Step>, now: int, i: nat, key: string,
                                            stamp: int, j: nat)
    requires BenignRun(run, steps, now) && Enqueues(run, steps, i, key, false, stamp) && i < j < |run|
    requires run[j].clock != [] && Now(run[j]) <= run[i].clock[steps[i].reread] + 86_400_000_000_000
    ensures Stays(run, i, j, Element(key, stamp))
    decreases j
  {
    if j == i + 1 {
      EnqueuedIsDirty(run, steps, now, i, key, false, stamp);
    } else {
      RunKeepsLastSync(run, steps, now, j - 1);
      StaysUntilSynced(run, steps, now, i, key, stamp, j - 1);
      NextStays(run, steps, now, i, Element(key, stamp), j - 1);
    }
  }

  lemma NextStays(run: seq<State>, steps: seq<Step>, now: int, i: nat, e: Element, j: nat)
    requires BenignRun(run, steps, now) && i < j < |steps| && Stays(run, i, j, e)
    requires run[j + 1].clock != [] && Now(run[j + 1]) <= e.timestamp
    ensures Stays(run, i, j + 1, e)
  {
    if SyncedBetween(run, i, j, e) {
      var k: nat :| i < k <= j && run[k].worker.Syncing? && run[k].worker.item == e;
      assert i < k <= j + 1;
    } else {
      RunKeepsLastSync(run, steps, now, j);
      StepKeepsElement(run[j], steps[j], e);
      if run[j + 1].worker.Syncing? && run[j + 1].worker.item == e {
        assert i < j + 1 <= j + 1;
      }
    }
  }

  /** It is never skipped within the day: when the worker holds it and reads its start time, a sync begins. */
  lemma NeverSkippedWithinDay(run: seq<State>, steps: seq<Step>, now: int, i: nat, key: string, stamp: int, j: nat)
    requires BenignRun(run, steps, now) && Enqueues(run, steps, i, key, false, stamp) && i < j < |steps|
    requires run[j].clock != [] && Now(run[j]) <= run[i].clock[steps[i].reread] + 86_400_000_000_000
    requires run[j].worker == Holding(Element(key, stamp)) && steps[j] == BeginStep
    ensures run[j + 1].worker == Syncing(Element(key, stamp), |run[j].clock| - 1)
  {
    RunKeepsLastSync(run, steps, now, j);
  }

  /** So a queue that is drained within the day has synced it. */
  lemma DrainedHasSynced(run: seq<State>, steps: seq<Step>, now: int, i: nat, key: string, stamp: int, j: nat)
    requires BenignRun(run, steps, now) && Enqueues(run, steps, i, key, false, stamp) && i < j < |run|
    requires run[j].clock != [] && Now(run[j]) <= run[i].clock[steps[i].reread] + 86_400_000_000_000
    requires Drained(run[j])
    ensures SyncedBetween(run, i, j, Element(key, stamp))
  {
    StaysUntilSynced(run, steps, now, i, key, stamp, j);
    RunKeepsLastSync(run, steps, now, j);
    assert Element(key, stamp) !in run[j].store.queue;
  }

  // ----- Order of service -----

  /** Elements are taken in the order in which they were queued: a step takes the front or leaves the queue as a
      beginning of what it becomes. */
  lemma ServedInOrder(s: State, step: Step)
    requires Enabled(s, step)
    ensures var s' := Next(s, step);
            if step.GetStep? then s'.worker == Holding(s.store.queue[0]) && s'.store.queue == s.store.queue[1..]
            else s.store.queue <= s'.store.queue
  {
  }
}
