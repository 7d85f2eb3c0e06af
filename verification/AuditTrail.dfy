/**
 Any number of relays feeding one log queue. What reaches publishing, restricted to one direction of one connection, is a
 prefix of what that connection forwarded, numbered from zero without gaps.
 */
module AuditTrail {
  import opened Text
  import opened Chunking
  import LogQueue
  import Relay

  datatype State = State(q: LogQueue.State, relays: seq<Relay.State>)

  datatype Action =
    | QueueStep(queueAction: LogQueue.Action)                  // a worker's or the stopper's step
    | RelayStep(requestId: nat, relayAction: Relay.Action)

  /** The log item a pump puts for the message it has just forwarded. */
  function ItemFor(requestId: nat, d: Direction, p: Relay.Pump): LogQueue.LogItem
    requires p.pc.Logging?
  {
    LogQueue.LogItem(requestId, d, Relay.LogBytes(p.pc.message), p.counter)
  }

  predicate IsLogPut(a: Relay.Action) { a.PumpStep? && a.step.Enqueued? }

  ghost predicate Enabled(s: State, a: Action) {
    match a
    case QueueStep(qa) => !qa.Put? && LogQueue.Enabled(s.q, qa)
    case RelayStep(r, ra) =>
      && r < |s.relays| && Relay.Enabled(s.relays[r], ra)
      && (IsLogPut(ra) ==> !LogQueue.Full(s.q))
  }

  /** A pump's log put and the queue's put are one step. */
  ghost function Apply(s: State, a: Action): State
    requires Enabled(s, a)
  {
    match a
    case QueueStep(qa) => s.(q := LogQueue.Apply(s.q, qa))
    case RelayStep(r, ra) =>
      var moved := s.relays[r := Relay.Apply(s.relays[r], ra)];
      if IsLogPut(ra) then
        var item := ItemFor(r, ra.direction, Relay.PumpOf(s.relays[r], ra.direction));
        State(LogQueue.Apply(s.q, LogQueue.Put(item)), moved)
      else s.(relays := moved)
  }

  ghost predicate IsRun(s: State, acts: seq<Action>, t: State)
    decreases |acts|
  {
    if acts == [] then s == t else Enabled(s, acts[0]) && IsRun(Apply(s, acts[0]), acts[1..], t)
  }

  function Init(poolSize: nat, maxsize: int, connections: nat): State {
    State(LogQueue.Init(poolSize, maxsize), seq(connections, _ => Relay.NEW_RELAY))
  }

  // ---- trails ----

  /** The items of one direction of one connection, in order. */
  function Trail(slots: seq<LogQueue.Slot>, requestId: nat, d: Direction): seq<LogQueue.LogItem> {
    if slots == [] then []
    else if slots[0].Item? && slots[0].item.requestId == requestId && slots[0].item.direction == d then
      [slots[0].item] + Trail(slots[1..], requestId, d)
    else Trail(slots[1..], requestId, d)
  }

  /** The log items a sequence of messages calls for. */
  function ItemsOf(ms: seq<Relay.Message>, requestId: nat, d: Direction): seq<LogQueue.LogItem> {
    seq(|ms|, i requires 0 <= i < |ms| => LogQueue.LogItem(requestId, d, Relay.LogBytes(ms[i]), i))
  }

  lemma {:induction false} TrailConcat(a: seq<LogQueue.Slot>, b: seq<LogQueue.Slot>, requestId: nat, d: Direction)
    ensures Trail(a + b, requestId, d) == Trail(a, requestId, d) + Trail(b, requestId, d)
  {
    if a == [] {
      assert a + b == b;
    } else {
      assert (a + b)[1..] == a[1..] + b;
      TrailConcat(a[1..], b, requestId, d);
    }
  }

  lemma TrailOfOne(slot: LogQueue.Slot, requestId: nat, d: Direction)
    ensures Trail([slot], requestId, d) ==
            if slot.Item? && slot.item.requestId == requestId && slot.item.direction == d then [slot.item] else []
  {
    assert [slot][1..] == [];
  }

  // ---- what every step keeps ----

  ghost predicate Inv(s: State) {
    && LogQueue.Inv(s.q)
    && (forall r | 0 <= r < |s.relays| :: Relay.Inv(s.relays[r]))
    && forall r, d | 0 <= r < |s.relays| ::
         Trail(s.q.put, r, d) == ItemsOf(Relay.PumpOf(s.relays[r], d).enqueued, r, d)
  }

  lemma InitInv(poolSize: nat, maxsize: int, connections: nat)
    ensures Inv(Init(poolSize, maxsize, connections))
  {
    LogQueue.InitInv(poolSize, maxsize);
  }

  lemma QueueStepInv(s: State, qa: LogQueue.Action)
    requires Inv(s) && Enabled(s, QueueStep(qa))
    ensures Inv(Apply(s, QueueStep(qa)))
  {
    LogQueue.StepInv(s.q, qa);
    var t := Apply(s, QueueStep(qa));
    forall r, d | 0 <= r < |s.relays| ensures Trail(t.q.put, r, d) == Trail(s.q.put, r, d) {
      if qa.PutPill? {
        TrailConcat(s.q.put, [LogQueue.Pill], r, d);
        TrailOfOne(LogQueue.Pill, r, d);
      }
    }
  }

  lemma EnqueuedItems(p: Relay.Pump, requestId: nat, d: Direction)
    requires Relay.PumpInv(p) && p.pc.Logging?
    ensures ItemsOf(p.enqueued + [p.pc.message], requestId, d) == ItemsOf(p.enqueued, requestId, d) + [ItemFor(requestId, d, p)]
  {
  }

  lemma LogPutInv(s: State, r: nat, ra: Relay.Action)
    requires Inv(s) && Enabled(s, RelayStep(r, ra)) && IsLogPut(ra)
    ensures Inv(Apply(s, RelayStep(r, ra)))
  {
    hide LogQueue.Inv, Relay.Inv, Trail;
    var p := Relay.PumpOf(s.relays[r], ra.direction);
    var item := ItemFor(r, ra.direction, p);
    var t := Apply(s, RelayStep(r, ra));
    Relay.StepInv(s.relays[r], ra);
    LogQueue.StepInv(s.q, LogQueue.Put(item));
    assert Relay.PumpInv(p) by { PumpOfInv(s.relays[r], ra.direction); }
    forall q, d | 0 <= q < |s.relays|
      ensures Trail(t.q.put, q, d) == ItemsOf(Relay.PumpOf(t.relays[q], d).enqueued, q, d)
    {
      TrailConcat(s.q.put, [LogQueue.Item(item)], q, d);
      TrailOfOne(LogQueue.Item(item), q, d);
      if q == r && d == ra.direction { EnqueuedItems(p, r, d); }
    }
  }

  lemma PumpOfInv(s: Relay.State, d: Direction)
    requires Relay.Inv(s)
    ensures Relay.PumpInv(Relay.PumpOf(s, d))
  {
  }

  lemma SameEnqueued(s: Relay.State, ra: Relay.Action, d: Direction)
    requires Relay.Enabled(s, ra) && !IsLogPut(ra)
    ensures Relay.PumpOf(Relay.Apply(s, ra), d).enqueued == Relay.PumpOf(s, d).enqueued
  {
  }

  lemma StepInv(s: State, a: Action)
    requires Inv(s) && Enabled(s, a)
    ensures Inv(Apply(s, a))
  {
    match a
    case QueueStep(qa) => QueueStepInv(s, qa);
    case RelayStep(r, ra) =>
      if IsLogPut(ra) {
        LogPutInv(s, r, ra);
      } else {
        hide LogQueue.Inv, Relay.Inv, Relay.Apply, Relay.Enabled, Trail;
        Relay.StepInv(s.relays[r], ra);
        forall d ensures Relay.PumpOf(Relay.Apply(s.relays[r], ra), d).enqueued == Relay.PumpOf(s.relays[r], d).enqueued {
          SameEnqueued(s.relays[r], ra, d);
        }
      }
  }

  lemma {:induction false} RunInv(s: State, acts: seq<Action>, t: State)
    requires Inv(s) && IsRun(s, acts, t)
    ensures Inv(t) && |t.relays| == |s.relays|
    decreases |acts|
  {
    hide Inv;
    if acts != [] {
      StepInv(s, acts[0]);
      RunInv(Apply(s, acts[0]), acts[1..], t);
    }
  }

  // ---- end to end ----

  /** The items number the messages from zero and carry what was in them, for this direction of this connection. */
  ghost predicate Record(items: seq<LogQueue.LogItem>, ms: seq<Relay.Message>, requestId: nat, d: Direction) {
    |items| == |ms| && forall i | 0 <= i < |items| ::
      && items[i].requestId == requestId && items[i].direction == d && items[i].index == i
      && Relay.Carries(items[i].data, ms[i])
  }

  lemma ItemsRecord(items: seq<LogQueue.LogItem>, ms: seq<Relay.Message>, requestId: nat, d: Direction)
    requires items <= ItemsOf(ms, requestId, d) && forall m | m in ms :: Relay.HasBytes(m)
    ensures Record(items, ms[..|items|], requestId, d)
  {
    forall i | 0 <= i < |items| ensures Relay.Carries(items[i].data, ms[i]) {
      assert ms[i] in ms && items[i] == ItemsOf(ms, requestId, d)[i];
      Relay.CarriesExactly(ms[i], items[i].data);
    }
    assert forall i | 0 <= i < |items| :: items[i] == ItemsOf(ms, requestId, d)[i];
  }

  lemma ItemsOfPrefix(a: seq<Relay.Message>, b: seq<Relay.Message>, requestId: nat, d: Direction)
    requires a <= b
    ensures ItemsOf(a, requestId, d) <= ItemsOf(b, requestId, d)
  {
  }

  /**
   In every reachable state, for each direction of each connection: the items handed to publishing so far, in that order,
   record a prefix of the messages it forwarded: a binary frame's bytes, or bytes that decode to a text frame's text. So no
   message is reordered, repeated, invented, altered or skipped.
   */
  lemma PublishedIsPrefixOfForwarded(
    poolSize: nat, maxsize: int, connections: nat, acts: seq<Action>, s: State, r: nat, d: Direction)
    requires IsRun(Init(poolSize, maxsize, connections), acts, s) && r < connections
    ensures r < |s.relays|
    ensures var items, forwarded := Trail(s.q.taken, r, d), Relay.PumpOf(s.relays[r], d).forwarded;
            |items| <= |forwarded| && Record(items, forwarded[..|items|], r, d)
  {
    hide IsRun, Trail, ItemsOf;
    InitInv(poolSize, maxsize, connections);
    RunInv(Init(poolSize, maxsize, connections), acts, s);
    var p := Relay.PumpOf(s.relays[r], d);
    PumpOfInv(s.relays[r], d);
    TrailConcat(s.q.taken, s.q.queue, r, d);
    ItemsOfPrefix(p.enqueued, p.forwarded, r, d);
    assert Trail(s.q.taken, r, d) <= Trail(s.q.put, r, d);
    var items := Trail(s.q.taken, r, d);
    assert items <= ItemsOf(p.forwarded, r, d);
    assert |ItemsOf(p.forwarded, r, d)| == |p.forwarded| by { ItemsCount(p.forwarded, r, d); }
    ItemsRecord(items, p.forwarded, r, d);
  }

  lemma ItemsCount(ms: seq<Relay.Message>, requestId: nat, d: Direction)
    ensures |ItemsOf(ms, requestId, d)| == |ms|
  {
  }

  /**
   When `stop()` has returned, exactly the items still queued are missing: with a pump's `enqueued` messages split at the
   last pill, those before it have been published and those after it sit in the queue.
   */
  lemma StoppedTrail(
    poolSize: nat, maxsize: int, connections: nat, acts: seq<Action>, s: State, r: nat, d: Direction)
    requires IsRun(Init(poolSize, maxsize, connections), acts, s) && r < connections && s.q.phase.Stopped?
    ensures r < |s.relays|
    ensures Record(Trail(s.q.taken, r, d) + Trail(s.q.queue, r, d), Relay.PumpOf(s.relays[r], d).enqueued, r, d)
    ensures forall x: LogQueue.LogItem :: multiset(s.q.finished)[x] == multiset(s.q.taken)[LogQueue.Item(x)]
  {
    hide IsRun, Trail, ItemsOf;
    InitInv(poolSize, maxsize, connections);
    RunInv(Init(poolSize, maxsize, connections), acts, s);
    TrailConcat(s.q.taken, s.q.queue, r, d);
    LogQueue.StoppedMeans(s.q);
    var p := Relay.PumpOf(s.relays[r], d);
    PumpOfInv(s.relays[r], d);
    ItemsCount(p.enqueued, r, d);
    assert forall m | m in p.enqueued :: m in p.forwarded;
    assert p.enqueued[..|p.enqueued|] == p.enqueued;
    ItemsRecord(Trail(s.q.put, r, d), p.enqueued, r, d);
  }

  // ---- down to the published bytes ----

  /** The publish calls that a sequence of items leads to, item by item. */
  function CallsFor(items: seq<LogQueue.LogItem>, maxRecordSize: int): seq<PublishCall>
    requires maxRecordSize >= 104
  {
    if items == [] then []
    else PublishCalls(items[0].direction, items[0].data, maxRecordSize) + CallsFor(items[1..], maxRecordSize)
  }

  function DataOf(items: seq<LogQueue.LogItem>): Bytes {
    if items == [] then [] else items[0].data + DataOf(items[1..])
  }

  lemma {:induction false} JoinConcat(a: seq<Bytes>, b: seq<Bytes>)
    ensures Chunking.Join(a + b) == Chunking.Join(a) + Chunking.Join(b)
  {
    if a == [] {
      assert a + b == b;
    } else {
      assert (a + b)[1..] == a[1..] + b;
      JoinConcat(a[1..], b);
      assert a[0] + (Chunking.Join(a[1..]) + Chunking.Join(b)) == a[0] + Chunking.Join(a[1..]) + Chunking.Join(b);
    }
  }

  lemma {:induction false} CallsCarryData(items: seq<LogQueue.LogItem>, maxRecordSize: int)
    requires maxRecordSize >= 104
    ensures Chunking.Join(Payloads(CallsFor(items, maxRecordSize))) == DataOf(items)
  {
    hide PublishCalls;
    if items == [] {
      assert Payloads([]) == [];
    } else {
      var first := PublishCalls(items[0].direction, items[0].data, maxRecordSize);
      var rest := CallsFor(items[1..], maxRecordSize);
      CallsCarryData(items[1..], maxRecordSize);
      PublishCallsRejoin(items[0].direction, items[0].data, maxRecordSize);
      assert Payloads(first + rest) == Payloads(first) + Payloads(rest);
      JoinConcat(Payloads(first), Payloads(rest));
    }
  }

  function DataOfEach(items: seq<LogQueue.LogItem>): seq<Bytes> {
    seq(|items|, i requires 0 <= i < |items| => items[i].data)
  }

  lemma {:induction false} DataIsJoined(items: seq<LogQueue.LogItem>)
    ensures DataOf(items) == Chunking.Join(DataOfEach(items))
  {
    if items != [] {
      DataIsJoined(items[1..]);
      assert DataOfEach(items)[1..] == DataOfEach(items[1..]);
    }
  }

  /** The bytes of a sequence of messages: each one's in turn. */
  ghost predicate AreBytesOf(bytes: Bytes, ms: seq<Relay.Message>) {
    exists pieces: seq<Bytes> ::
      |pieces| == |ms| && Chunking.Join(pieces) == bytes && forall i | 0 <= i < |ms| :: Relay.Carries(pieces[i], ms[i])
  }

  /**
   In every reachable state, for each direction of each connection and every record size: the payloads of the publish calls
   its taken items make, put together, are the bytes of a prefix of the messages it forwarded, and the calls go to the
   request stream exactly for messages from the client.
   */
  lemma PublishedBytesArePrefixOfForwarded(
    poolSize: nat, maxsize: int, connections: nat, acts: seq<Action>, s: State, r: nat, d: Direction, maxRecordSize: int)
    requires IsRun(Init(poolSize, maxsize, connections), acts, s) && r < connections && maxRecordSize >= 104
    ensures r < |s.relays|
    ensures var items, forwarded := Trail(s.q.taken, r, d), Relay.PumpOf(s.relays[r], d).forwarded;
            var calls := CallsFor(items, maxRecordSize);
            && |items| <= |forwarded|
            && AreBytesOf(Chunking.Join(Payloads(calls)), forwarded[..|items|])
            && forall i | 0 <= i < |calls| :: calls[i].stream.RequestBody? <==> d.ClientToUpstream?
  {
    hide IsRun, Trail, CallsFor, Relay.Carries;
    PublishedIsPrefixOfForwarded(poolSize, maxsize, connections, acts, s, r, d);
    var items := Trail(s.q.taken, r, d);
    var forwarded := Relay.PumpOf(s.relays[r], d).forwarded;
    CallsGoToTheirStream(items, d, maxRecordSize);
    CallsCarryData(items, maxRecordSize);
    DataIsJoined(items);
    var pieces := DataOfEach(items);
    assert forall i | 0 <= i < |items| :: Relay.Carries(pieces[i], forwarded[..|items|][i]);
  }

  lemma {:induction false} CallsGoToTheirStream(items: seq<LogQueue.LogItem>, d: Direction, maxRecordSize: int)
    requires maxRecordSize >= 104 && forall i | 0 <= i < |items| :: items[i].direction == d
    ensures forall i | 0 <= i < |CallsFor(items, maxRecordSize)| :: CallsFor(items, maxRecordSize)[i].stream == StreamOf(d)
  {
    hide SafeRawChunkSize, Chunks;
    if items != [] { CallsGoToTheirStream(items[1..], d, maxRecordSize); }
  }
}
