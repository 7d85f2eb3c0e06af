/**
 The audit log queue: a bounded FIFO fed by blocking producers, drained by a fixed pool of workers and stopped with one
 poison pill per worker. Its behaviours are the runs of a transition system with one action per stretch of code between
 two awaits; `LogQueue` is the object that performs the actions.
 */
module LogQueue {
  import opened Text
  import opened Chunking

  datatype LogItem = LogItem(requestId: nat, direction: Direction, data: Bytes, index: nat)
  datatype Slot = Item(item: LogItem) | Pill
  datatype Worker = Waiting | Publishing(item: LogItem) | Exited

  /** `Stopping(left)`: `stop()` has `left` pills still to put; with none left it waits for the workers. */
  datatype Phase = Running | Stopping(left: nat) | Stopped

  /** `put`, `taken` and `finished` record every slot put, every slot got and every item whose publishing has ended. */
  datatype State = State(
    queue: seq<Slot>, maxsize: int, poolSize: nat, workers: seq<Worker>, phase: Phase,
    put: seq<Slot>, taken: seq<Slot>, finished: seq<LogItem>)

  datatype Action =
    | Put(item: LogItem)      // a producer's put goes through; until then it is blocked
    | Get(worker: nat)        // a worker's get goes through
    | Finish(worker: nat)     // publishing returned or raised
    | BeginStop
    | PutPill                 // the stopper's put goes through
    | Return                  // every worker task is done

  function Init(poolSize: nat, maxsize: int): State {
    State([], maxsize, poolSize, seq(poolSize, _ => Waiting), Running, [], [], [])
  }

  /** `asyncio.Queue.full`: a size of zero or less means unbounded. */
  predicate Full(s: State) {
    0 < s.maxsize <= |s.queue|
  }

  predicate Enabled(s: State, a: Action) {
    match a
    case Put(_) => !Full(s)
    case Get(w) => w < |s.workers| && s.workers[w].Waiting? && s.queue != []
    case Finish(w) => w < |s.workers| && s.workers[w].Publishing?
    case BeginStop => s.phase.Running?
    case PutPill => s.phase.Stopping? && s.phase.left > 0 && !Full(s)
    case Return => s.phase == Stopping(0) && forall w | 0 <= w < |s.workers| :: s.workers[w].Exited?
  }

  function Append(s: State, slot: Slot): State {
    s.(queue := s.queue + [slot], put := s.put + [slot])
  }

  function Apply(s: State, a: Action): State
    requires Enabled(s, a)
  {
    match a
    case Put(item) => Append(s, Item(item))
    case Get(w) =>
      var next := if s.queue[0].Pill? then Exited else Publishing(s.queue[0].item);
      s.(queue := s.queue[1..], taken := s.taken + [s.queue[0]], workers := s.workers[w := next])
    case Finish(w) => s.(workers := s.workers[w := Waiting], finished := s.finished + [s.workers[w].item])
    case BeginStop => s.(phase := Stopping(|s.workers|))
    case PutPill => Append(s, Pill).(phase := Stopping(s.phase.left - 1))
    case Return => s.(phase := Stopped, workers := [])
  }

  ghost predicate IsRun(s: State, acts: seq<Action>, t: State)
    decreases |acts|
  {
    if acts == [] then s == t else Enabled(s, acts[0]) && IsRun(Apply(s, acts[0]), acts[1..], t)
  }

  // ---- what every step keeps ----

  ghost function PillsIn(slots: seq<Slot>): nat { multiset(slots)[Pill] }

  /** Pills not yet put, queued, or swallowed by a worker add up to the pool, and no item is dropped or duplicated. */
  ghost predicate Inv(s: State) {
    && s.put == s.taken + s.queue
    && (s.maxsize > 0 ==> |s.queue| <= s.maxsize)
    && |s.workers| == (if s.phase.Stopped? then 0 else s.poolSize)
    && PillsIn(s.taken) == (if s.phase.Stopped? then s.poolSize else multiset(s.workers)[Exited])
    && (match s.phase
        case Running => PillsIn(s.put) == 0
        case Stopping(left) => left + PillsIn(s.queue) + PillsIn(s.taken) == s.poolSize
        case Stopped => PillsIn(s.queue) == 0)
    && (PillsIn(s.taken) == s.poolSize ==> s.taken == [] || s.taken[|s.taken| - 1] == Pill)
    && forall x: LogItem ::
         multiset(s.taken)[Item(x)] == multiset(s.finished)[x] + multiset(s.workers)[Publishing(x)]
  }

  lemma AllWorkersAre(ws: seq<Worker>, state: Worker)
    ensures (forall w | 0 <= w < |ws| :: ws[w] == state) <==> multiset(ws)[state] == |ws|
  {
    if ws != [] {
      AllWorkersAre(ws[1..], state);
      assert ws == [ws[0]] + ws[1..];
    }
  }

  lemma InitInv(poolSize: nat, maxsize: int)
    ensures Inv(Init(poolSize, maxsize))
  {
    var s := Init(poolSize, maxsize);
    assert forall w | 0 <= w < |s.workers| :: s.workers[w] == Waiting;
  }

  lemma StepInv(s: State, a: Action)
    requires Inv(s) && Enabled(s, a)
    ensures Inv(Apply(s, a))
  {
    hide Inv;
    match a
    case Put(item) => PutInv(s, item);
    case PutPill => PutPillInv(s);
    case BeginStop => BeginInv(s);
    case Finish(w) => FinishInv(s, w);
    case Get(w) => GetInv(s, w);
    case Return => ReturnInv(s);
  }

  lemma PutInv(s: State, item: LogItem)
    requires Inv(s) && Enabled(s, Put(item))
    ensures Inv(Apply(s, Put(item)))
  {
    OneMoreSlot(s.queue, Item(item));
    OneMoreSlot(s.put, Item(item));
    AppendKeepsOrder(s, Item(item));
    hide PillsIn;
  }

  lemma PutPillInv(s: State)
    requires Inv(s) && Enabled(s, PutPill)
    ensures Inv(Apply(s, PutPill))
  {
    OneMoreSlot(s.queue, Pill);
    AppendKeepsOrder(s, Pill);
    hide PillsIn;
  }

  lemma AppendKeepsOrder(s: State, slot: Slot)
    requires s.put == s.taken + s.queue
    ensures s.put + [slot] == s.taken + (s.queue + [slot])
  {
  }

  lemma OneMoreSlot(slots: seq<Slot>, slot: Slot)
    ensures PillsIn(slots + [slot]) == PillsIn(slots) + if slot.Pill? then 1 else 0
  {
  }

  lemma BeginInv(s: State)
    requires Inv(s) && Enabled(s, BeginStop)
    ensures Inv(Apply(s, BeginStop))
  {
    assert PillsIn(s.put) == PillsIn(s.taken) + PillsIn(s.queue);
  }

  lemma FinishInv(s: State, w: nat)
    requires Inv(s) && Enabled(s, Finish(w))
    ensures Inv(Apply(s, Finish(w)))
  {
  }

  lemma GetInv(s: State, w: nat)
    requires Inv(s) && Enabled(s, Get(w))
    ensures Inv(Apply(s, Get(w)))
  {
    GetKeepsItems(s, w);
    GetKeepsPills(s, w);
    assert s.queue == [s.queue[0]] + s.queue[1..];
    hide PillsIn;
  }

  lemma GetKeepsItems(s: State, w: nat)
    requires Inv(s) && Enabled(s, Get(w))
    ensures var t := Apply(s, Get(w));
            forall x: LogItem :: multiset(t.taken)[Item(x)] == multiset(t.finished)[x] + multiset(t.workers)[Publishing(x)]
  {
  }

  lemma GetKeepsPills(s: State, w: nat)
    requires Inv(s) && Enabled(s, Get(w))
    ensures var t := Apply(s, Get(w));
            && PillsIn(t.taken) == multiset(t.workers)[Exited] <= s.poolSize
            && PillsIn(t.taken) + PillsIn(t.queue) == PillsIn(s.taken) + PillsIn(s.queue)
            && (s.queue[0].Item? ==> PillsIn(t.taken) == PillsIn(s.taken) < s.poolSize)
            && (s.phase.Running? ==> s.queue[0].Item?)
  {
    assert s.queue == [s.queue[0]] + s.queue[1..];
    OneMoreSlot(s.taken, s.queue[0]);
    AllWorkersAre(s.workers, Exited);
    AllWorkersAre(s.workers[w := Exited], Exited);
    if s.phase.Running? { assert PillsIn(s.put) == PillsIn(s.taken) + PillsIn(s.queue); }
  }

  lemma ReturnInv(s: State)
    requires Inv(s) && Enabled(s, Return)
    ensures Inv(Apply(s, Return))
  {
    AllWorkersAre(s.workers, Exited);
    assert forall x: LogItem :: Publishing(x) !in multiset(s.workers);
  }

  /** The invariant holds in every reachable state, whatever the interleaving. */
  lemma {:induction false} RunInv(s: State, acts: seq<Action>, t: State)
    requires Inv(s) && IsRun(s, acts, t)
    ensures Inv(t)
    decreases |acts|
  {
    if acts != [] {
      StepInv(s, acts[0]);
      RunInv(Apply(s, acts[0]), acts[1..], t);
    }
  }

  /** From `stop()` on: pills unsent + pills queued + workers exited is the size of the pool. */
  lemma PillAccounting(poolSize: nat, maxsize: int, acts: seq<Action>, s: State)
    requires IsRun(Init(poolSize, maxsize), acts, s) && s.phase.Stopping?
    ensures s.phase.left + PillsIn(s.queue) + multiset(s.workers)[Exited] == poolSize
  {
    InitInv(poolSize, maxsize);
    RunInv(Init(poolSize, maxsize), acts, s);
    PoolSizeFixed(Init(poolSize, maxsize), acts, s);
  }

  lemma {:induction false} PoolSizeFixed(s: State, acts: seq<Action>, t: State)
    requires IsRun(s, acts, t)
    ensures t.poolSize == s.poolSize && t.maxsize == s.maxsize
    decreases |acts|
  {
    if acts != [] { PoolSizeFixed(Apply(s, acts[0]), acts[1..], t); }
  }

  /**
   When `stop()` has returned: what was put splits at the last pill into what was taken and what is still queued; every
   item ahead of that pill was handed to publishing exactly once and its publishing has ended; the queue holds exactly
   the items put after it, in order, and no worker will take them.
   */
  lemma AfterStop(poolSize: nat, maxsize: int, acts: seq<Action>, s: State)
    requires IsRun(Init(poolSize, maxsize), acts, s) && s.phase.Stopped?
    ensures s.put == s.taken + s.queue
    ensures poolSize > 0 ==> s.taken != [] && s.taken[|s.taken| - 1] == Pill
    ensures poolSize == 0 ==> s.taken == []
    ensures PillsIn(s.taken) == poolSize && Pill !in s.queue
    ensures forall x: LogItem :: multiset(s.finished)[x] == multiset(s.taken)[Item(x)]
    ensures forall w :: !Enabled(s, Get(w))
  {
    hide IsRun, Inv;
    InitInv(poolSize, maxsize);
    RunInv(Init(poolSize, maxsize), acts, s);
    PoolSizeFixed(Init(poolSize, maxsize), acts, s);
    StoppedMeans(s);
  }

  lemma StoppedMeans(s: State)
    requires Inv(s) && s.phase.Stopped?
    ensures s.put == s.taken + s.queue
    ensures s.poolSize > 0 ==> s.taken != [] && s.taken[|s.taken| - 1] == Pill
    ensures s.poolSize == 0 ==> s.taken == []
    ensures PillsIn(s.taken) == s.poolSize && Pill !in s.queue
    ensures forall x: LogItem :: multiset(s.finished)[x] == multiset(s.taken)[Item(x)]
    ensures s.workers == []
  {
    assert Pill in s.queue ==> Pill in multiset(s.queue);
    assert s.taken == [] ==> PillsIn(s.taken) == 0;
    assert s.taken != [] ==> s.taken[|s.taken| - 1] in multiset(s.taken);
  }

  /** A put that goes through once the last pill is queued is accepted and never published. */
  lemma LateItemStaysQueued(item: LogItem) returns (acts: seq<Action>, s: State)
    ensures IsRun(Init(1, 10_000), acts, s) && s.phase.Stopped? && s.queue == [Item(item)] && s.finished == []
  {
    acts := [BeginStop, PutPill, Put(item), Get(0), Return];
    var s0 := Init(1, 10_000);
    var s1 := Apply(s0, acts[0]);
    var s2 := Apply(s1, acts[1]);
    var s3 := Apply(s2, acts[2]);
    var s4 := Apply(s3, acts[3]);
    s := Apply(s4, acts[4]);
    assert forall i | 0 <= i < 5 :: acts[i..][1..] == acts[i + 1..];
    assert acts[0..] == acts && IsRun(s, acts[5..], s);
    assert IsRun(s4, acts[4..], s);
    assert IsRun(s3, acts[3..], s);
    assert IsRun(s2, acts[2..], s);
    assert IsRun(s1, acts[1..], s);
  }

  // ---- deadlock freedom ----

  /**
   Until `stop()` returns some step other than a producer's is enabled, even with the queue full and every producer
   blocked on it.
   */
  lemma StopNeverStuck(s: State) returns (a: Action)
    requires Inv(s) && s.phase.Stopping?
    ensures !a.Put? && !a.BeginStop? && Enabled(s, a)
  {
    if s.phase.left > 0 && !Full(s) {
      a := PutPill;
    } else if busy: nat :| busy < |s.workers| && s.workers[busy].Publishing? {
      a := Finish(busy);
    } else if idle: nat :| idle < |s.workers| && s.workers[idle].Waiting? {
      AllWorkersAre(s.workers, Exited);
      assert multiset(s.workers)[Exited] <= |multiset(s.workers)|;
      assert PillsIn(s.queue) > 0 || s.queue != [];
      a := Get(idle);
    } else {
      AllWorkersAre(s.workers, Exited);
      a := Return;
    }
  }

  // ---- termination ----

  ghost function Busy(ws: seq<Worker>): int {
    |ws| - multiset(ws)[Waiting] - multiset(ws)[Exited]
  }

  /** What is left to do. A put adds two; every other step takes at least one. */
  ghost function Measure(s: State): int {
    2 * |s.queue| + Busy(s.workers)
    + match s.phase
      case Running => 3 * s.poolSize + 2
      case Stopping(left) => 3 * left + 1
      case Stopped => 0
  }

  lemma {:induction false} BusyNonNegative(ws: seq<Worker>)
    ensures Busy(ws) >= 0
  {
    if ws != [] {
      BusyNonNegative(ws[1..]);
      assert ws == [ws[0]] + ws[1..];
    }
  }

  lemma StepMeasure(s: State, a: Action)
    requires Inv(s) && Enabled(s, a)
    ensures Measure(Apply(s, a)) <= Measure(s) + (if a.Put? then 2 else -1)
  {
    assert s.phase.Running? ==> |s.workers| == s.poolSize;
    hide Inv;
    BusyNonNegative(s.workers);
    match a
    case Get(w) => BusyUpdate(s.workers, w, if s.queue[0].Pill? then Exited else Publishing(s.queue[0].item));
    case Finish(w) => BusyUpdate(s.workers, w, Waiting);
    case _ =>
    hide Busy;
  }

  lemma BusyUpdate(ws: seq<Worker>, w: nat, next: Worker)
    requires w < |ws|
    ensures Busy(ws[w := next]) ==
            Busy(ws) - (if ws[w].Publishing? then 1 else 0) + (if next.Publishing? then 1 else 0)
  {
  }

  lemma MeasureNonNegative(s: State)
    ensures Measure(s) >= 0
  {
    BusyNonNegative(s.workers);
  }

  function Puts(acts: seq<Action>): nat {
    if acts == [] then 0 else (if acts[0].Put? then 1 else 0) + Puts(acts[1..])
  }

  /** Every run with finitely many puts is finite: its length is bounded by the measure of where it starts. */
  lemma {:induction false} RunLength(s: State, acts: seq<Action>, t: State)
    requires Inv(s) && IsRun(s, acts, t)
    ensures |acts| + Measure(t) <= Measure(s) + 3 * Puts(acts) && Measure(t) >= 0
    decreases |acts|
  {
    if acts == [] {
      BusyNonNegative(t.workers);
    } else {
      StepInv(s, acts[0]);
      StepMeasure(s, acts[0]);
      RunLength(Apply(s, acts[0]), acts[1..], t);
    }
  }

  lemma {:induction false} StoppingStays(s: State, acts: seq<Action>, t: State)
    requires IsRun(s, acts, t) && !s.phase.Running?
    ensures !t.phase.Running?
    decreases |acts|
  {
    if acts != [] { StoppingStays(Apply(s, acts[0]), acts[1..], t); }
  }

  /**
   `stop()` returns: once it has begun, a run in which only producers could still move has ended with it returned, and
   no run with k further puts is longer than the measure plus 3k. Neither the pool, nor the queue's capacity, nor the
   schedule matters.
   */
  lemma StopReturns(s: State, acts: seq<Action>, t: State)
    requires Inv(s) && s.phase.Stopping? && IsRun(s, acts, t)
    requires forall a: Action :: Enabled(t, a) ==> a.Put?
    ensures t.phase.Stopped? && |acts| <= Measure(s) + 3 * Puts(acts)
  {
    RunInv(s, acts, t);
    StoppingStays(s, acts, t);
    RunLength(s, acts, t);
    if t.phase.Stopping? {
      var a := StopNeverStuck(t);
    }
  }

  /** And there is always such a schedule, needing no help from any producer. */
  lemma {:induction false} StopCanReturn(s: State) returns (acts: seq<Action>, t: State)
    requires Inv(s) && s.phase.Stopping?
    ensures IsRun(s, acts, t) && t.phase.Stopped? && Puts(acts) == 0
    decreases Measure(s)
  {
    var a := StopNeverStuck(s);
    StepInv(s, a);
    StepMeasure(s, a);
    MeasureNonNegative(s);
    hide Inv, Measure;
    var next := Apply(s, a);
    if next.phase.Stopped? {
      acts, t := [a], next;
      assert IsRun(next, [], next);
    } else {
      var rest;
      rest, t := StopCanReturn(next);
      acts := [a] + rest;
      assert acts[1..] == rest;
    }
  }

  // ---- how much the queue holds ----

  function PutAll(items: seq<LogItem>): seq<Action> {
    seq(|items|, i requires 0 <= i < |items| => Put(items[i]))
  }

  function AsSlots(items: seq<LogItem>): seq<Slot> {
    seq(|items|, i requires 0 <= i < |items| => Item(items[i]))
  }

  lemma PutAllStep(items: seq<LogItem>)
    requires items != []
    ensures PutAll(items)[0] == Put(items[0]) && PutAll(items)[1..] == PutAll(items[1..])
    ensures AsSlots(items) == [Item(items[0])] + AsSlots(items[1..])
  {
  }

  lemma {:induction false} FittingItemsGoIn(s: State, items: seq<LogItem>) returns (t: State)
    requires s.maxsize <= 0 || items == [] || |s.queue| + |items| <= s.maxsize
    ensures IsRun(s, PutAll(items), t)
    decreases |items|
  {
    if items == [] {
      t := s;
    } else {
      PutAllStep(items);
      t := FittingItemsGoIn(Apply(s, Put(items[0])), items[1..]);
    }
  }

  lemma {:induction false} OnlyFittingItemsGoIn(s: State, items: seq<LogItem>, t: State)
    requires IsRun(s, PutAll(items), t)
    ensures s.maxsize <= 0 || items == [] || |s.queue| + |items| <= s.maxsize
    ensures t.queue == s.queue + AsSlots(items) && t.workers == s.workers
    decreases |items|
  {
    if items != [] {
      PutAllStep(items);
      OnlyFittingItemsGoIn(Apply(s, Put(items[0])), items[1..], t);
    }
  }

  /**
   Producers can put any number of items in a row, before, during and after a stop, exactly as long as they fit the configured
   size, where zero and less mean no limit. They queue up in order.
   */
  lemma HoldsExactly(s: State, items: seq<LogItem>)
    ensures (exists t :: IsRun(s, PutAll(items), t)) <==> s.maxsize <= 0 || items == [] || |s.queue| + |items| <= s.maxsize
    ensures forall t | IsRun(s, PutAll(items), t) :: t.queue == s.queue + AsSlots(items) && t.workers == s.workers
  {
    hide IsRun, PutAll;
    forall t | IsRun(s, PutAll(items), t)
      ensures s.maxsize <= 0 || items == [] || |s.queue| + |items| <= s.maxsize
      ensures t.queue == s.queue + AsSlots(items) && t.workers == s.workers
    {
      OnlyFittingItemsGoIn(s, items, t);
    }
    if s.maxsize <= 0 || items == [] || |s.queue| + |items| <= s.maxsize {
      var t := FittingItemsGoIn(s, items);
      assert exists u :: IsRun(s, PutAll(items), u);
    }
  }

  // ---- reachable states ----

  /** The end of some run of a queue whose workers have been started. */
  ghost predicate Reachable(s: State) {
    exists acts :: IsRun(Init(s.poolSize, s.maxsize), acts, s)
  }

  lemma ReachableInv(s: State)
    requires Reachable(s)
    ensures Inv(s)
  {
    var acts :| IsRun(Init(s.poolSize, s.maxsize), acts, s);
    InitInv(s.poolSize, s.maxsize);
    RunInv(Init(s.poolSize, s.maxsize), acts, s);
  }

  /** Whether `stop()` has drained the queue: exactly if nothing was put after the last pill. */
  lemma StopDrainsExactly(s: State)
    requires Reachable(s) && s.phase.Stopped? && s.poolSize > 0
    ensures s.queue == [] <==> s.put != [] && s.put[|s.put| - 1] == Pill
  {
    ReachableInv(s);
    StoppedMeans(s);
    hide Reachable, Inv, PillsIn;
    if s.queue != [] { assert s.put[|s.put| - 1] == s.queue[|s.queue| - 1]; }
  }

  lemma RunNothing(s: State)
    ensures IsRun(s, [], s)
  {
  }

  lemma StartIsReachable(poolSize: nat, maxsize: int)
    ensures Reachable(Init(poolSize, maxsize))
  {
    RunNothing(Init(poolSize, maxsize));
  }

  lemma {:induction false} RunSnoc(s: State, acts: seq<Action>, t: State, a: Action)
    requires IsRun(s, acts, t) && Enabled(t, a)
    ensures IsRun(s, acts + [a], Apply(t, a))
    decreases |acts|
  {
    hide Enabled, Apply;
    if acts == [] {
      assert [a][1..] == [] && [] + [a] == [a];
      RunNothing(Apply(t, a));
    } else {
      RunSnoc(Apply(s, acts[0]), acts[1..], t, a);
      assert (acts + [a])[1..] == acts[1..] + [a];
    }
  }

  lemma ReachableStep(s: State, a: Action)
    requires Reachable(s) && Enabled(s, a)
    ensures Reachable(Apply(s, a))
  {
    var acts :| IsRun(Init(s.poolSize, s.maxsize), acts, s);
    assert Apply(s, a).poolSize == s.poolSize && Apply(s, a).maxsize == s.maxsize;
    hide Enabled, Apply, IsRun;
    RunSnoc(Init(s.poolSize, s.maxsize), acts, s, a);
  }

  // ---- the object ----

  /**
   One method per action; each says whether it went through. A put that does not go through is blocked. A valid object, as
   `Start` makes it, is the end of a run, so a history of calls on it is one.
   */
  class LogQueue {
    const numWorkers: nat
    const maxsize: int
    var queue: seq<Slot>
    var workers: seq<Worker>
    var phase: Phase
    ghost var put: seq<Slot>
    ghost var taken: seq<Slot>
    ghost var finished: seq<LogItem>

    ghost function View(): State
      reads this
    {
      State(queue, maxsize, numWorkers, workers, phase, put, taken, finished)
    }

    ghost predicate Valid()
      reads this
    {
      Reachable(View())
    }

    constructor (numWorkers: nat, maxQueueSize: int)
      ensures this.numWorkers == numWorkers && maxsize == maxQueueSize
      ensures View() == Init(numWorkers, maxQueueSize).(workers := [])
    {
      this.numWorkers, maxsize := numWorkers, maxQueueSize;
      queue, workers, phase := [], [], Running;
      put, taken, finished := [], [], [];
    }

    /** Spawn the worker pool. */
    method Start()
      requires View() == Init(numWorkers, maxsize).(workers := [])
      modifies this
      ensures Valid() && View() == Init(numWorkers, maxsize)
    {
      hide Reachable;
      for i := 0 to numWorkers
        invariant workers == seq(i, _ => Waiting)
        invariant View() == old(View()).(workers := workers)
      {
        workers := workers + [Waiting];
      }
      StartIsReachable(numWorkers, maxsize);
    }

    method Enqueue(item: LogItem) returns (through: bool)
      requires Valid()
      modifies this
      ensures through == Enabled(old(View()), Put(item))
      ensures View() == if through then Apply(old(View()), Put(item)) else old(View())
      ensures Valid()
    {
      hide Reachable;
      through := !(0 < maxsize <= |queue|);
      if through {
        queue, put := queue + [Item(item)], put + [Item(item)];
      }
      if through { ReachableStep(old(View()), Put(item)); }
    }

    method WorkerGet(w: nat) returns (through: bool)
      requires Valid()
      modifies this
      ensures through == Enabled(old(View()), Get(w))
      ensures View() == if through then Apply(old(View()), Get(w)) else old(View())
      ensures Valid()
    {
      hide Reachable;
      through := w < |workers| && workers[w].Waiting? && queue != [];
      if through {
        var slot := queue[0];
        queue, taken := queue[1..], taken + [slot];
        match slot {
          case Pill => workers := workers[w := Exited];
          case Item(item) => workers := workers[w := Publishing(item)];
        }
      }
      if through { ReachableStep(old(View()), Get(w)); }
    }

    method WorkerFinish(w: nat) returns (through: bool)
      requires Valid()
      modifies this
      ensures through == Enabled(old(View()), Finish(w))
      ensures View() == if through then Apply(old(View()), Finish(w)) else old(View())
      ensures Valid()
    {
      hide Reachable;
      through := w < |workers| && workers[w].Publishing?;
      if through {
        finished := finished + [workers[w].item];
        workers := workers[w := Waiting];
      }
      if through { ReachableStep(old(View()), Finish(w)); }
    }

    method StopBegin() returns (through: bool)
      requires Valid()
      modifies this
      ensures through == Enabled(old(View()), BeginStop)
      ensures View() == if through then Apply(old(View()), BeginStop) else old(View())
      ensures Valid()
    {
      hide Reachable;
      through := phase.Running?;
      if through { phase := Stopping(|workers|); }
      if through { ReachableStep(old(View()), BeginStop); }
    }

    method StopPutPill() returns (through: bool)
      requires Valid()
      modifies this
      ensures through == Enabled(old(View()), PutPill)
      ensures View() == if through then Apply(old(View()), PutPill) else old(View())
      ensures Valid()
    {
      hide Reachable;
      through := phase.Stopping? && phase.left > 0 && !(0 < maxsize <= |queue|);
      if through {
        queue, put := queue + [Pill], put + [Pill];
        phase := Stopping(phase.left - 1);
      }
      if through { ReachableStep(old(View()), PutPill); }
    }

    method StopGather() returns (through: bool)
      requires Valid()
      modifies this
      ensures through == Enabled(old(View()), Return)
      ensures View() == if through then Apply(old(View()), Return) else old(View())
      ensures Valid()
    {
      hide Reachable;
      through := phase == Stopping(0) && forall w | 0 <= w < |workers| :: workers[w].Exited?;
      if through { workers, phase := [], Stopped; }
      if through { ReachableStep(old(View()), Return); }
    }
  }
}
