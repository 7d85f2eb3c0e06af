/**
 The WebSocket relay: one pump per direction, each receiving, forwarding and logging message after message, and a parent
 that waits for the first pump to end, for the lifetime limit or for its own cancellation. One action per stretch of code
 between two awaits; `Relay` is the object that performs them.
 */
module Relay {
  import opened Text
  import opened Chunking
  import JsonStrings
  import Utf8

  datatype Message = TextMessage(text: Text) | BinaryMessage(bytes: Bytes)

  /** A text with a lone surrogate has no UTF-8 form: encoding it raises before it is forwarded. */
  ghost predicate HasBytes(m: Message) {
    m.TextMessage? ==> JsonStrings.SurrogateFree(m.text)
  }

  function LogBytes(m: Message): Bytes {
    match m
    case TextMessage(t) => Utf8.Encode(t)
    case BinaryMessage(b) => b
  }

  /** What was logged for a message: a binary frame's bytes, or bytes that decode to a text frame's text. */
  ghost predicate Carries(data: Bytes, m: Message) {
    match m
    case TextMessage(t) => Utf8.Decode(data, false) == Some(t)
    case BinaryMessage(b) => data == b
  }

  /** A message has one such log entry exactly if it can be forwarded, and that entry is what is logged. */
  lemma CarriesExactly(m: Message, data: Bytes)
    ensures Carries(data, m) <==> HasBytes(m) && data == LogBytes(m)
    ensures HasBytes(m) <==> exists b :: Carries(b, m)
  {
    forall b ensures Carries(b, m) <==> HasBytes(m) && b == LogBytes(m) {
      if m.TextMessage? { Utf8.DecodeExactly(b, m.text, false); }
    }
    assert HasBytes(m) ==> Carries(LogBytes(m), m);
  }

  datatype Pc = Receiving | Forwarding(message: Message) | Logging(message: Message) | Ended

  /** `received` and `forwarded`: the receives and sends that returned to the pump; `enqueued`: the log puts that went through. */
  datatype Pump = Pump(
    pc: Pc, cancelled: bool, counter: nat, received: seq<Message>, forwarded: seq<Message>, enqueued: seq<Message>)

  datatype PumpAction =
    | Receive(message: Message)
    | Close          // disconnect, an empty frame, or an error while receiving
    | Forwarded      // the send returned
    | SendFailed
    | Enqueued       // the log queue took the item; the counter moves in the same stretch of code
    | Cancel         // the pump is asked to stop
    | Interrupted    // and finds out at its next resumption

  const NEW_PUMP := Pump(Receiving, false, 0, [], [], [])

  ghost predicate PumpEnabled(p: Pump, a: PumpAction) {
    match a
    case Receive(_) => p.pc.Receiving? && !p.cancelled
    case Close => p.pc.Receiving? && !p.cancelled
    case Forwarded => p.pc.Forwarding? && !p.cancelled
    case SendFailed => p.pc.Forwarding? && !p.cancelled
    case Enqueued => p.pc.Logging? && !p.cancelled
    case Cancel => true
    case Interrupted => p.cancelled && !p.pc.Ended?
  }

  ghost function PumpApply(p: Pump, a: PumpAction): Pump
    requires PumpEnabled(p, a)
  {
    match a
    case Receive(m) => p.(received := p.received + [m], pc := if HasBytes(m) then Forwarding(m) else Ended)
    case Close => p.(pc := Ended)
    case Forwarded => p.(forwarded := p.forwarded + [p.pc.message], pc := Logging(p.pc.message))
    case SendFailed => p.(pc := Ended)
    case Enqueued => p.(enqueued := p.enqueued + [p.pc.message], counter := p.counter + 1, pc := Receiving)
    case Cancel => p.(cancelled := true)
    case Interrupted => p.(pc := Ended)
  }

  /**
   What is logged is a prefix of what was forwarded, which is a prefix of what was received; the three never differ by
   more than the one message in hand, and the counter is the number logged.
   */
  ghost predicate PumpInv(p: Pump) {
    && p.counter == |p.enqueued|
    && p.enqueued <= p.forwarded <= p.received
    && |p.received| <= |p.enqueued| + 1
    && (forall m | m in p.forwarded :: HasBytes(m))
    && match p.pc
       case Receiving => p.received == p.enqueued
       case Forwarding(m) => p.received == p.enqueued + [m] && p.forwarded == p.enqueued && HasBytes(m)
       case Logging(m) => p.received == p.enqueued + [m] && p.forwarded == p.received && HasBytes(m)
       case Ended => true
  }

  lemma PumpStepInv(p: Pump, a: PumpAction)
    requires PumpInv(p) && PumpEnabled(p, a)
    ensures PumpInv(PumpApply(p, a))
  {
  }

  // ---- the parent ----

  datatype CloseCode = Normal | GoingAway

  datatype Parent =
    | AwaitingFirst
    | Draining                                                        // the other pump was cancelled and is awaited
    | Returned(clientCount: nat, upstreamCount: nat, code: CloseCode)

  datatype State = State(client: Pump, upstream: Pump, parent: Parent)

  datatype Action =
    | PumpStep(direction: Direction, step: PumpAction)
    | FirstCompleted
    | DrainDone
    | LifetimeExpired
    | ParentCancelled

  const NEW_RELAY := State(NEW_PUMP, NEW_PUMP, AwaitingFirst)

  function PumpOf(s: State, d: Direction): Pump {
    if d.ClientToUpstream? then s.client else s.upstream
  }

  function WithPump(s: State, d: Direction, p: Pump): State {
    if d.ClientToUpstream? then s.(client := p) else s.(upstream := p)
  }

  function CancelUnlessEnded(p: Pump): Pump {
    if p.pc.Ended? then p else p.(cancelled := true)
  }

  function Return(s: State, code: CloseCode): State {
    s.(parent := Returned(s.client.counter, s.upstream.counter, code))
  }

  /**
   The lifetime limit and a cancellation act only while the parent waits for a first completion, and cancel neither pump.
   While it drains, both are absorbed by the awaited pump's own cancellation.
   */
  ghost predicate Enabled(s: State, a: Action) {
    match a
    case PumpStep(d, step) => PumpEnabled(PumpOf(s, d), step)
    case FirstCompleted => s.parent.AwaitingFirst? && (s.client.pc.Ended? || s.upstream.pc.Ended?)
    case DrainDone => s.parent.Draining? && s.client.pc.Ended? && s.upstream.pc.Ended?
    case LifetimeExpired => s.parent.AwaitingFirst?
    case ParentCancelled => s.parent.AwaitingFirst?
  }

  ghost function Apply(s: State, a: Action): State
    requires Enabled(s, a)
  {
    match a
    case PumpStep(d, step) => WithPump(s, d, PumpApply(PumpOf(s, d), step))
    case FirstCompleted =>
      State(CancelUnlessEnded(s.client), CancelUnlessEnded(s.upstream), Draining)
    case DrainDone => Return(s, Normal)
    case LifetimeExpired => Return(s, GoingAway)
    case ParentCancelled => Return(s, GoingAway)
  }

  ghost predicate IsRun(s: State, acts: seq<Action>, t: State)
    decreases |acts|
  {
    if acts == [] then s == t else Enabled(s, acts[0]) && IsRun(Apply(s, acts[0]), acts[1..], t)
  }

  predicate Stopped(p: Pump) { p.pc.Ended? || p.cancelled }

  /**
   Returned counts: exact and final when the first completion ended the relay, because then both pumps have ended; only
   a lower bound when the lifetime limit or a cancellation did, because then the pumps go on.
   */
  ghost predicate Inv(s: State) {
    && PumpInv(s.client) && PumpInv(s.upstream)
    && (s.parent.Draining? ==> Stopped(s.client) && Stopped(s.upstream))
    && (s.parent.Returned? ==>
          && s.parent.clientCount <= |s.client.enqueued| && s.parent.upstreamCount <= |s.upstream.enqueued|
          && (s.parent.code.Normal? ==>
                && s.client.pc.Ended? && s.upstream.pc.Ended?
                && s.parent.clientCount == |s.client.enqueued| && s.parent.upstreamCount == |s.upstream.enqueued|))
  }

  lemma StepInv(s: State, a: Action)
    requires Inv(s) && Enabled(s, a)
    ensures Inv(Apply(s, a))
  {
    if a.PumpStep? { PumpStepInv(PumpOf(s, a.direction), a.step); }
  }

  /** In every reachable interleaving, across disconnect, error, cancellation and lifetime expiry. */
  lemma {:induction false} RunInv(s: State, acts: seq<Action>, t: State)
    requires Inv(s) && IsRun(s, acts, t)
    ensures Inv(t)
    decreases |acts|
  {
    if acts != [] {
      StepInv(s, acts[0]);
      RunInv(Apply(s, acts[0]), acts[1..], t);
    }
  }

  function CountOf(p: Parent, d: Direction): nat
    requires p.Returned?
  {
    if d.ClientToUpstream? then p.clientCount else p.upstreamCount
  }

  /**
   For each direction of a new relay, in every reachable state: logged is a prefix of forwarded and forwarded of received,
   never more than one message apart; and the count returned is the number logged, exactly if both pumps have ended by a
   normal return, and otherwise a number that was logged by then.
   */
  lemma DirectionsAreFaithful(acts: seq<Action>, s: State, d: Direction)
    requires IsRun(NEW_RELAY, acts, s)
    ensures var p := PumpOf(s, d);
            && p.enqueued <= p.forwarded <= p.received && |p.received| <= |p.enqueued| + 1
            && p.counter == |p.enqueued|
            && (s.parent.Returned? ==>
                  var count := CountOf(s.parent, d);
                  && count <= |p.enqueued| && (s.parent.code.Normal? ==> p.pc.Ended? && count == |p.enqueued|))
  {
    RunInv(NEW_RELAY, acts, s);
  }

  /** Once the relay returned normally no further message is received, forwarded or logged in either direction. */
  lemma {:induction false} NormalReturnIsFinal(s: State, acts: seq<Action>, t: State)
    requires Inv(s) && s.parent.Returned? && s.parent.code.Normal? && IsRun(s, acts, t)
    ensures t.parent == s.parent
    ensures t.client.received == s.client.received && t.client.enqueued == s.client.enqueued
    ensures t.upstream.received == s.upstream.received && t.upstream.enqueued == s.upstream.enqueued
    decreases |acts|
  {
    if acts != [] {
      StepInv(s, acts[0]);
      NormalReturnIsFinal(Apply(s, acts[0]), acts[1..], t);
    }
  }

  /** After the lifetime limit the returned counts are a snapshot: a pump can still log the message it had in hand. */
  lemma SnapshotCanLag(m: Message) returns (acts: seq<Action>, t: State)
    requires HasBytes(m)
    ensures IsRun(NEW_RELAY, acts, t)
    ensures t.parent == Returned(0, 0, GoingAway) && t.client.enqueued == [m]
  {
    var up := ClientToUpstream;
    acts := [PumpStep(up, Receive(m)), PumpStep(up, Forwarded), LifetimeExpired, PumpStep(up, Enqueued)];
    var s1 := Apply(NEW_RELAY, acts[0]);
    var s2 := Apply(s1, acts[1]);
    var s3 := Apply(s2, acts[2]);
    t := Apply(s3, acts[3]);
    assert acts[3..][1..] == [] && acts[2..][1..] == acts[3..] && acts[1..][1..] == acts[2..];
    assert IsRun(t, [], t);
    assert IsRun(s3, acts[3..], t);
    assert IsRun(s2, acts[2..], t);
    assert IsRun(s1, acts[1..], t);
  }

  /** The steps that log one more message in a direction whose pump is still running. */
  lemma LogOneMore(s: State, d: Direction) returns (acts: seq<Action>, t: State)
    requires Inv(s) && !PumpOf(s, d).pc.Ended? && !PumpOf(s, d).cancelled
    ensures IsRun(s, acts, t) && |PumpOf(t, d).enqueued| > |PumpOf(s, d).enqueued|
    decreases if PumpOf(s, d).pc.Receiving? then 2 else if PumpOf(s, d).pc.Forwarding? then 1 else 0
  {
    var pc := PumpOf(s, d).pc;
    if pc.Logging? {
      acts, t := [PumpStep(d, Enqueued)], Apply(s, PumpStep(d, Enqueued));
      RunCons(s, PumpStep(d, Enqueued), [], t);
    } else {
      var a := if pc.Forwarding? then PumpStep(d, Forwarded) else PumpStep(d, Receive(BinaryMessage([])));
      StepInv(s, a);
      var rest;
      rest, t := LogOneMore(Apply(s, a), d);
      RunCons(s, a, rest, t);
      acts := [a] + rest;
    }
  }

  lemma RunCons(s: State, a: Action, acts: seq<Action>, t: State)
    requires Enabled(s, a) && IsRun(Apply(s, a), acts, t)
    ensures IsRun(s, [a] + acts, t)
  {
    assert ([a] + acts)[1..] == acts;
  }

  lemma {:induction false} StoppedPumpLogsNothing(s: State, acts: seq<Action>, t: State, d: Direction)
    requires IsRun(s, acts, t) && Stopped(PumpOf(s, d))
    ensures Stopped(PumpOf(t, d)) && PumpOf(t, d).enqueued == PumpOf(s, d).enqueued
    ensures PumpOf(t, d).forwarded == PumpOf(s, d).forwarded && PumpOf(t, d).received == PumpOf(s, d).received
    decreases |acts|
  {
    if acts != [] { StoppedPumpLogsNothing(Apply(s, acts[0]), acts[1..], t, d); }
  }

  ghost predicate LogIsFinal(s: State, d: Direction) {
    forall acts, t | IsRun(s, acts, t) :: PumpOf(t, d).enqueued == PumpOf(s, d).enqueued
  }

  ghost predicate CountIsFinal(s: State, d: Direction)
    requires s.parent.Returned?
  {
    forall acts, t | IsRun(s, acts, t) :: |PumpOf(t, d).enqueued| == CountOf(s.parent, d)
  }

  /**
   When a returned count is the number of messages that will ever be logged: exactly if the direction's pump has ended or
   been cancelled, and has logged nothing since the count was taken.
   */
  lemma CountIsFinalExactly(s: State, d: Direction)
    requires Reachable(s)
    ensures LogIsFinal(s, d) <==> PumpOf(s, d).pc.Ended? || PumpOf(s, d).cancelled
    ensures s.parent.Returned? ==>
              (CountIsFinal(s, d) <==>
               (PumpOf(s, d).pc.Ended? || PumpOf(s, d).cancelled) && |PumpOf(s, d).enqueued| == CountOf(s.parent, d))
  {
    ReachableInv(s);
    RunNothing(s);
    if PumpOf(s, d).pc.Ended? || PumpOf(s, d).cancelled {
      forall acts, t | IsRun(s, acts, t) ensures PumpOf(t, d).enqueued == PumpOf(s, d).enqueued {
        StoppedPumpLogsNothing(s, acts, t, d);
      }
    } else {
      var acts, t := LogOneMore(s, d);
    }
  }

  lemma RunNothing(s: State)
    ensures IsRun(s, [], s)
  {
  }

  /**
   Once one pump has ended and the parent has seen it, both have ended or been cancelled, and whatever happens then, neither
   receives, forwards or logs another message.
   */
  lemma FirstCompletionStopsBoth(acts: seq<Action>, s: State, more: seq<Action>, t: State, d: Direction)
    requires IsRun(NEW_RELAY, acts, s) && s.parent.Draining? && IsRun(s, more, t)
    ensures PumpOf(s, d).pc.Ended? || PumpOf(s, d).cancelled
    ensures PumpOf(t, d).received == PumpOf(s, d).received && PumpOf(t, d).forwarded == PumpOf(s, d).forwarded
    ensures PumpOf(t, d).enqueued == PumpOf(s, d).enqueued
  {
    RunInv(NEW_RELAY, acts, s);
    StoppedPumpLogsNothing(s, more, t, d);
  }

  /** And the relay can return normally from then on, with the numbers logged by then. */
  lemma NormalReturnIsPossible(s: State) returns (acts: seq<Action>, t: State)
    requires Inv(s) && !s.parent.Returned? && (s.parent.AwaitingFirst? ==> s.client.pc.Ended? || s.upstream.pc.Ended?)
    ensures IsRun(s, acts, t) && t.parent == Returned(|s.client.enqueued|, |s.upstream.enqueued|, Normal)
    decreases s.parent.AwaitingFirst?, !s.client.pc.Ended?, !s.upstream.pc.Ended?
  {
    var a := if s.parent.AwaitingFirst? then FirstCompleted
             else if !s.client.pc.Ended? then PumpStep(ClientToUpstream, Interrupted)
             else if !s.upstream.pc.Ended? then PumpStep(UpstreamToClient, Interrupted)
             else DrainDone;
    var next := Apply(s, a);
    if a.DrainDone? {
      acts, t := [], next;
      RunNothing(t);
    } else {
      StepInv(s, a);
      acts, t := NormalReturnIsPossible(next);
    }
    RunCons(s, a, acts, t);
    acts := [a] + acts;
  }

  // ---- where the returned counts come from, and what ends a pump ----

  predicate Returns(a: Action) { a.DrainDone? || a.LifetimeExpired? || a.ParentCancelled? }

  /** `u` is the state of the run `acts` before its step `i`. */
  ghost predicate Before(s: State, acts: seq<Action>, i: nat, u: State) {
    i < |acts| && IsRun(s, acts[..i], u) && Enabled(u, acts[i])
  }

  lemma {:induction false} ReturnedStays(s: State, acts: seq<Action>, t: State)
    requires IsRun(s, acts, t) && s.parent.Returned?
    ensures t.parent == s.parent
    decreases |acts|
  {
    if acts != [] { ReturnedStays(Apply(s, acts[0]), acts[1..], t); }
  }

  lemma BeforeCons(s: State, acts: seq<Action>, i: nat, u: State)
    requires acts != [] && Enabled(s, acts[0]) && Before(Apply(s, acts[0]), acts[1..], i, u)
    ensures Before(s, acts, i + 1, u) && acts[i + 1] == acts[1..][i]
  {
    hide Enabled, Apply;
    assert acts[..i + 1][0] == acts[0] && acts[..i + 1][1..] == acts[1..][..i];
  }

  /**
   Over any run: what is returned are the numbers logged in each direction when the parent returned, with a normal code exactly
   if both pumps had been waited for.
   */
  lemma {:induction false} CountsAtReturn(s: State, acts: seq<Action>, t: State) returns (i: nat, u: State)
    requires Inv(s) && IsRun(s, acts, t) && !s.parent.Returned? && t.parent.Returned?
    ensures Before(s, acts, i, u) && Returns(acts[i])
    ensures t.parent == Returned(|u.client.enqueued|, |u.upstream.enqueued|, if acts[i].DrainDone? then Normal else GoingAway)
    decreases |acts|
  {
    StepInv(s, acts[0]);
    var next := Apply(s, acts[0]);
    if next.parent.Returned? {
      i, u := 0, s;
      assert acts[..0] == [];
      RunNothing(s);
      ReturnedStays(next, acts[1..], t);
    } else {
      hide Enabled, Apply, Inv;
      i, u := CountsAtReturn(next, acts[1..], t);
      BeforeCons(s, acts, i, u);
      i := i + 1;
    }
  }

  /** What ends a pump: its peer closing or failing, a send that fails, its cancellation, or a text without a UTF-8 form. */
  ghost predicate EndsPump(a: Action, d: Direction) {
    a.PumpStep? && a.direction == d
    && (a.step.Close? || a.step.SendFailed? || a.step.Interrupted? || (a.step.Receive? && !HasBytes(a.step.message)))
  }

  lemma {:induction false} EndedPumpStays(s: State, acts: seq<Action>, t: State, d: Direction)
    requires IsRun(s, acts, t) && PumpOf(s, d).pc.Ended?
    ensures PumpOf(t, d).pc.Ended? && forall a | a in acts :: !EndsPump(a, d)
    decreases |acts|
  {
    hide HasBytes;
    if acts != [] { EndedPumpStays(Apply(s, acts[0]), acts[1..], t, d); }
  }

  /** Over any run: a pump has ended if and only if one of these happened to it. */
  lemma {:induction false} PumpEndsExactly(s: State, acts: seq<Action>, t: State, d: Direction)
    requires IsRun(s, acts, t) && !PumpOf(s, d).pc.Ended?
    ensures PumpOf(t, d).pc.Ended? <==> exists a :: a in acts && EndsPump(a, d)
    decreases |acts|
  {
    if acts != [] {
      var next := Apply(s, acts[0]);
      assert PumpOf(next, d).pc.Ended? <==> EndsPump(acts[0], d) by { hide HasBytes; }
      assert acts == [acts[0]] + acts[1..];
      hide EndsPump, Enabled, Apply;
      if PumpOf(next, d).pc.Ended? { EndedPumpStays(next, acts[1..], t, d); } else { PumpEndsExactly(next, acts[1..], t, d); }
    }
  }

  // ---- reachable states ----

  /** The end of some run of a new relay. */
  ghost predicate Reachable(s: State) {
    exists acts :: IsRun(NEW_RELAY, acts, s)
  }

  lemma ReachableInv(s: State)
    requires Reachable(s)
    ensures Inv(s)
  {
    var acts :| IsRun(NEW_RELAY, acts, s);
    RunInv(NEW_RELAY, acts, s);
  }

  lemma {:induction false} RunSnoc(s: State, acts: seq<Action>, t: State, a: Action)
    requires IsRun(s, acts, t) && Enabled(t, a)
    ensures IsRun(s, acts + [a], Apply(t, a))
    decreases |acts|
  {
    hide Enabled, Apply;
    if acts == [] {
      assert [a][1..] == [] && [] + [a] == [a];
      RunNothing(Apply(t, a));
    } else {
      RunSnoc(Apply(s, acts[0]), acts[1..], t, a);
      assert (acts + [a])[1..] == acts[1..] + [a];
    }
  }

  lemma ReachableStep(s: State, a: Action)
    requires Reachable(s) && Enabled(s, a)
    ensures Reachable(Apply(s, a))
  {
    var acts :| IsRun(NEW_RELAY, acts, s);
    hide Enabled, Apply, IsRun;
    RunSnoc(NEW_RELAY, acts, s, a);
  }

  // ---- the object ----

  /**
   The two pumps with their counters, and the parent; each method is one action and says whether it could happen. A valid
   object is the end of a run, so a history of calls on it is one.
   */
  class Relay {
    var client: Pump
    var upstream: Pump
    var parent: Parent

    ghost function View(): State
      reads this
    {
      State(client, upstream, parent)
    }

    ghost predicate Valid()
      reads this
    {
      Reachable(View())
    }

    constructor ()
      ensures Valid() && View() == NEW_RELAY
    {
      client, upstream, parent := NEW_PUMP, NEW_PUMP, AwaitingFirst;
      new;
      RunNothing(NEW_RELAY);
    }

    method Step(d: Direction, a: PumpAction) returns (ran: bool)
      requires Valid()
      modifies this
      ensures ran == Enabled(old(View()), PumpStep(d, a))
      ensures View() == if ran then Apply(old(View()), PumpStep(d, a)) else old(View())
      ensures Valid()
    {
      hide Reachable;
      var p := if d.ClientToUpstream? then client else upstream;
      ran := true;
      match a {
        case Receive(m) =>
          ran := p.pc.Receiving? && !p.cancelled;
          if ran {
            p := p.(received := p.received + [m]);
            var encodable := Encodable(m);
            p := p.(pc := if encodable then Forwarding(m) else Ended);
          }
        case Close =>
          ran := p.pc.Receiving? && !p.cancelled;
          if ran { p := p.(pc := Ended); }
        case Forwarded =>
          ran := p.pc.Forwarding? && !p.cancelled;
          if ran { p := p.(forwarded := p.forwarded + [p.pc.message], pc := Logging(p.pc.message)); }
        case SendFailed =>
          ran := p.pc.Forwarding? && !p.cancelled;
          if ran { p := p.(pc := Ended); }
        case Enqueued =>
          ran := p.pc.Logging? && !p.cancelled;
          if ran {
            p := p.(enqueued := p.enqueued + [p.pc.message]);
            p := p.(counter := p.counter + 1);
            p := p.(pc := Receiving);
          }
        case Cancel => p := p.(cancelled := true);
        case Interrupted =>
          ran := p.cancelled && !p.pc.Ended?;
          if ran { p := p.(pc := Ended); }
      }
      if d.ClientToUpstream? { client := p; } else { upstream := p; }
      if ran { ReachableStep(old(View()), PumpStep(d, a)); }
    }

    /** `asyncio.wait(..., FIRST_COMPLETED)` returns and the pending pump is cancelled. */
    method OnFirstCompleted() returns (ran: bool)
      requires Valid()
      modifies this
      ensures ran == Enabled(old(View()), FirstCompleted)
      ensures View() == if ran then Apply(old(View()), FirstCompleted) else old(View())
      ensures Valid()
    {
      hide Reachable;
      ran := parent.AwaitingFirst? && (client.pc.Ended? || upstream.pc.Ended?);
      if ran {
        parent := Draining;
        if !client.pc.Ended? { client := client.(cancelled := true); }
        if !upstream.pc.Ended? { upstream := upstream.(cancelled := true); }
      }
      if ran { ReachableStep(old(View()), FirstCompleted); }
    }

    method OnDrainDone() returns (ran: bool)
      requires Valid()
      modifies this
      ensures ran == Enabled(old(View()), DrainDone)
      ensures View() == if ran then Apply(old(View()), DrainDone) else old(View())
      ensures Valid()
    {
      hide Reachable;
      ran := parent.Draining? && client.pc.Ended? && upstream.pc.Ended?;
      if ran { parent := Returned(client.counter, upstream.counter, Normal); }
      if ran { ReachableStep(old(View()), DrainDone); }
    }

    /** The lifetime limit (`expired`) or a cancellation of the parent. */
    method OnInterrupt(expired: bool) returns (ran: bool)
      requires Valid()
      modifies this
      ensures var a := if expired then LifetimeExpired else ParentCancelled;
              && ran == Enabled(old(View()), a)
              && View() == if ran then Apply(old(View()), a) else old(View())
      ensures Valid()
    {
      hide Reachable;
      ran := parent.AwaitingFirst?;
      if ran { parent := Returned(client.counter, upstream.counter, GoingAway); }
      if ran { ReachableStep(old(View()), if expired then LifetimeExpired else ParentCancelled); }
    }
  }

  /** Whether `text.encode("utf-8")` succeeds. */
  method Encodable(m: Message) returns (ok: bool)
    ensures ok == HasBytes(m)
  {
    if m.BinaryMessage? { return true; }
    for i := 0 to |m.text|
      invariant forall k | 0 <= k < i :: !JsonStrings.IsHigh(m.text[k]) && !JsonStrings.IsLow(m.text[k])
    {
      if JsonStrings.IsHigh(m.text[i]) || JsonStrings.IsLow(m.text[i]) { return false; }
    }
    return true;
  }
}
