/** The timestamped work queue: producers enqueue elements, one worker takes them, skips those that a later
    successful sync has already covered, and puts failed ones back for a retry. */
module WorkQueue {
  import opened Basics

  const DAY: int := 24 * 3600 * 1_000_000_000

  /** An element carries the time it was enqueued (a day later for one that must not be skipped), or 0
      for a retry. */
  datatype Element = Element(key: string, timestamp: int)

  // ----- The Kubernetes work queue -----

  /** `queue` is the order of service, `dirty` what still has to be processed, `processing` what was handed
      out, `waiting` the rate-limited additions whose delay has not run out. */
  datatype Store = Store(queue: seq<Element>, dirty: set<Element>, processing: set<Element>,
                         waiting: set<Element>, shuttingDown: bool)
  {
    function Add(e: Element): Store {
      if shuttingDown || e in dirty then this
      else if e in processing then this.(dirty := dirty + {e})
      else this.(dirty := dirty + {e}, queue := queue + [e])
    }

    function Take(): Store
      requires queue != []
    {
      this.(queue := queue[1..], dirty := dirty - {queue[0]}, processing := processing + {queue[0]})
    }

    function Done(e: Element): Store {
      this.(processing := processing - {e}, queue := if e in dirty then queue + [e] else queue)
    }

    function AddRateLimited(e: Element): Store {
      if shuttingDown then this else this.(waiting := waiting + {e})
    }

    /** The delay of a waiting element runs out. */
    function Release(e: Element): Store
      requires e in waiting
    {
      this.(waiting := waiting - {e}).Add(e)
    }
  }

  /** Where the worker stands: asking for work, holding an element whose start time is not yet read, or inside
      the sync that read its start time as reading `at` of the clock. */
  datatype Worker = Idle | Holding(item: Element) | Syncing(item: Element, at: nat)

  /** The queue with its worker.  `clock` lists the readings of the clock, one per step, the current one last;
      `accepted` and `succeeded` say at which readings the accepted enqueues took their time stamp and the
      syncs that returned no error began. */
  datatype State = State(store: Store, worker: Worker, lastSync: int, clock: seq<int>,
                         accepted: set<nat>, succeeded: set<nat>)

  // ----- The steps -----

  /** An enqueue that read the clock at `read` and, for an element that must not be skipped, again at `reread`. */
  function Enqueue(s: State, key: Option<string>, skippable: bool, read: nat, reread: nat): State
    requires read <= reread < |s.clock|
  {
    if s.store.shuttingDown || key.None? then s
    else s.(store := s.store.Add(Element(key.value, if skippable then s.clock[read] else s.clock[reread] + DAY)),
            accepted := s.accepted + {read})
  }

  function Get(s: State): State
    requires s.worker == Idle && s.store.queue != []
  {
    s.(store := s.store.Take(), worker := Holding(s.store.queue[0]))
  }

  predicate Skips(s: State, item: Element) {
    item.timestamp != 0 && s.lastSync > item.timestamp
  }

  /** The worker reads its start time, then skips the element or begins to sync. */
  function Begin(s: State): State
    requires s.worker.Holding? && s.clock != []
  {
    var item := s.worker.item;
    if Skips(s, item) then s.(store := s.store.Done(item), worker := Idle)
    else s.(worker := Syncing(item, |s.clock| - 1))
  }

  function Finish(s: State, ok: bool): State
    requires s.worker.Syncing? && s.worker.at < |s.clock|
  {
    var item := s.worker.item;
    if ok then
      s.(store := s.store.Done(item), worker := Idle, lastSync := s.clock[s.worker.at],
         succeeded := s.succeeded + {s.worker.at})
    else s.(store := s.store.AddRateLimited(Element(item.key, 0)).Done(item), worker := Idle)
  }

  datatype Step =
    | Tick(to: int)
    | EnqueueStep(key: Option<string>, skippable: bool, read: nat, reread: nat)
    | ReleaseStep(e: Element)
    | GetStep
    | BeginStep
    | FinishStep(ok: bool)
    | ShutDownStep

  predicate Enabled(s: State, step: Step) {
    s.clock != [] &&
    match step
    case EnqueueStep(_, _, read, reread) => read <= reread < |s.clock|
    case ReleaseStep(e) => e in s.store.waiting
    case GetStep => s.worker == Idle && s.store.queue != []
    case BeginStep => s.worker.Holding?
    case FinishStep(_) => s.worker.Syncing? && s.worker.at < |s.clock|
    case _ => true
  }

  /** What the step does to the queue and the worker. */
  function Effect(s: State, step: Step): State
    requires Enabled(s, step)
  {
    match step
    case Tick(_) => s
    case EnqueueStep(key, skippable, read, reread) => Enqueue(s, key, skippable, read, reread)
    case ReleaseStep(e) => s.(store := s.store.Release(e))
    case GetStep => Get(s)
    case BeginStep => Begin(s)
    case FinishStep(ok) => Finish(s, ok)
    case ShutDownStep => s.(store := s.store.(shuttingDown := true))
  }

  function Next(s: State, step: Step): State
    requires Enabled(s, step)
  {
    Effect(s, step).(clock := s.clock + [if step.Tick? then step.to else s.clock[|s.clock| - 1]])
  }

  function Start(now: int): State {
    State(Store([], {}, {}, {}, false), Idle, 0, [now], {}, {})
  }

  // ----- The program -----

  class Queue {
    var store: Store
    var lastSync: int
    var current: Option<Element>
    var started: int
    ghost var startedAt: nat
    ghost var clock: seq<int>
    ghost var accepted: set<nat>
    ghost var succeeded: set<nat>

    ghost predicate Valid()
      reads this
    {
      clock != [] && (current.Some? ==> startedAt < |clock| && clock[startedAt] == started)
    }

    ghost function AsState(): State
      reads this
    {
      State(store, if current.None? then Idle else Syncing(current.value, startedAt), lastSync,
            clock, accepted, succeeded)
    }

    constructor (ghost now: int)
      ensures Valid() && AsState() == Start(now)
    {
      store, lastSync, current, started := Store([], {}, {}, {}, false), 0, None, 0;
      startedAt, clock, accepted, succeeded := 0, [now], {}, {};
    }

    /** `key` is None when no key can be made of the object; `ts` and `later` are two readings of the clock. */
    method EnqueueObject(key: Option<string>, skippable: bool, ts: int, later: int,
                         ghost read: nat, ghost reread: nat)
      requires Valid() && read <= reread < |clock| && clock[read] == ts && clock[reread] == later
      modifies this
      ensures Valid() && AsState() == Next(old(AsState()), EnqueueStep(key, skippable, read, reread))
    {
      clock := clock + [clock[|clock| - 1]];
      if store.shuttingDown {
        return;
      }
      var stamp := ts;
      if !skippable {
        // a day ahead, no sync within it can make the element skippable
        stamp := later + DAY;
      }
      if key.None? {
        return;
      }
      store := store.Add(Element(key.value, stamp));
      accepted := accepted + {read};
    }

    /** The first half of the worker's round: takes an element and reads the clock; answers whether the
        sync function is to be called. */
    method TakeNext(now: int) returns (sync: bool)
      requires Valid() && current == None && store.queue != [] && clock[|clock| - 1] == now
      modifies this
      ensures Valid() && AsState() == Next(Next(old(AsState()), GetStep), BeginStep)
      ensures sync == current.Some?
    {
      var item := store.queue[0];
      store := store.Take();
      clock := clock + [now];
      startedAt := |clock| - 1;
      clock := clock + [now];
      if item.timestamp != 0 && lastSync > item.timestamp {
        store := store.Done(item);
        return false;
      }
      current, started := Some(item), now;
      return true;
    }

    /** The second half, when the sync function has returned. */
    method SyncReturned(ok: bool)
      requires Valid() && current.Some?
      modifies this
      ensures Valid() && AsState() == Next(old(AsState()), FinishStep(ok))
    {
      if !ok {
        store := store.AddRateLimited(Element(current.value.key, 0));
      } else {
        lastSync := started;
        succeeded := succeeded + {startedAt};
      }
      store := store.Done(current.value);
      current := None;
      clock := clock + [clock[|clock| - 1]];
    }
  }
}
