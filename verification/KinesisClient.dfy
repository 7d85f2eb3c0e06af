/**
 The shared Kinesis client: created on first use under a lock with a double check, closed under the same lock, and
 created anew afterwards. Any number of getters and closers interleave at their awaits.
 */
module KinesisClient {
  import opened Text

  datatype Pc =
    | GetStart                   // a getter that has not looked yet
    | GetWaiting                 // waiting for the lock
    | GetCreating                // holds the lock, entering the new client's context
    | GetDone(client: nat)
    | CloseStart
    | CloseWaiting
    | CloseExiting(client: nat)  // holds the lock, exiting the client's context
    | CloseDone
    | Failed                     // raised or cancelled

  /** A get is recorded with the number of closes completed before it. */
  datatype Got = Got(epoch: nat, client: nat)

  /**
   `kinesisClient` is the published client, `stack` what the exit stack would close. A client is live from its context
   being entered until its exit is attempted; `exits` lists every attempted exit.
   */
  datatype State = State(
    pcs: seq<Pc>, kinesisClient: Option<nat>, stack: Option<nat>, lockOwner: Option<nat>,
    created: nat, live: set<nat>, exits: seq<nat>, epoch: nat, gets: seq<Got>)

  datatype Action =
    | Look(c: nat)               // the unlocked first check
    | Lock(c: nat)               // the lock is acquired; the check is repeated
    | Created(c: nat)            // the context was entered
    | CreateFailed(c: nat)       // entering raised, or the getter was cancelled
    | Ask(c: nat)                // a closer asks for the lock
    | Exited(c: nat)             // the exit returned, raised or was cancelled
    | Cancel(c: nat)             // a coroutine is cancelled while it waits for the lock

  function Init(pcs: seq<Pc>): State {
    State(pcs, None, None, None, 0, {}, [], 0, [])
  }

  ghost predicate Fresh(pcs: seq<Pc>) {
    forall c | 0 <= c < |pcs| :: pcs[c].GetStart? || pcs[c].CloseStart?
  }

  predicate Enabled(s: State, a: Action) {
    a.c < |s.pcs| &&
    match a
    case Look(c) => s.pcs[c].GetStart?
    case Lock(c) => (s.pcs[c].GetWaiting? || s.pcs[c].CloseWaiting?) && s.lockOwner.None?
    case Created(c) => s.pcs[c].GetCreating?
    case CreateFailed(c) => s.pcs[c].GetCreating?
    case Ask(c) => s.pcs[c].CloseStart?
    case Exited(c) => s.pcs[c].CloseExiting?
    case Cancel(c) => s.pcs[c].GetWaiting? || s.pcs[c].CloseWaiting?
  }

  function Goto(s: State, c: nat, pc: Pc): State
    requires c < |s.pcs|
  {
    s.(pcs := s.pcs[c := pc])
  }

  function Give(s: State, c: nat, client: nat): State
    requires c < |s.pcs|
  {
    Goto(s, c, GetDone(client)).(gets := s.gets + [Got(s.epoch, client)])
  }

  /** `aclose()` takes the callback off the stack before it calls it. */
  function BeginExit(s: State, c: nat, client: nat): State
    requires c < |s.pcs|
  {
    Goto(s, c, CloseExiting(client)).(
      lockOwner := Some(c), stack := None, live := s.live - {client}, exits := s.exits + [client])
  }

  function Apply(s: State, a: Action): State
    requires Enabled(s, a)
  {
    match a
    case Look(c) => if s.kinesisClient.Some? then Give(s, c, s.kinesisClient.value) else Goto(s, c, GetWaiting)
    case Lock(c) =>
      if s.pcs[c].GetWaiting? then
        if s.kinesisClient.Some? then Give(s, c, s.kinesisClient.value)
        else Goto(s, c, GetCreating).(lockOwner := Some(c))
      else if s.kinesisClient.None? then Goto(s, c, CloseDone)
      else if s.stack.Some? then BeginExit(s, c, s.stack.value)
      else Goto(s, c, CloseDone).(kinesisClient := None, epoch := s.epoch + 1)
    case Created(c) =>
      var id := s.created;
      Give(s, c, id).(lockOwner := None, created := id + 1, live := s.live + {id}, stack := Some(id), kinesisClient := Some(id))
    case CreateFailed(c) => Goto(s, c, Failed).(lockOwner := None)
    case Ask(c) => Goto(s, c, CloseWaiting)
    case Exited(c) => Goto(s, c, CloseDone).(lockOwner := None, kinesisClient := None, stack := None, epoch := s.epoch + 1)
    case Cancel(c) => Goto(s, c, Failed)
  }

  ghost predicate IsRun(s: State, acts: seq<Action>, t: State)
    decreases |acts|
  {
    if acts == [] then s == t else Enabled(s, acts[0]) && IsRun(Apply(s, acts[0]), acts[1..], t)
  }

  predicate HoldsLock(pc: Pc) { pc.GetCreating? || pc.CloseExiting? }

  ghost predicate Inv(s: State) {
    // the lock is held by exactly the coroutine in a critical section
    && (forall c | 0 <= c < |s.pcs| && HoldsLock(s.pcs[c]) :: s.lockOwner == Some(c))
    && (s.lockOwner.Some? ==> s.lockOwner.value < |s.pcs| && HoldsLock(s.pcs[s.lockOwner.value]))
    // at most one client is live, and it is the published one and the one on the exit stack
    && s.live == (if s.stack.Some? then {s.stack.value} else {})
    && (s.lockOwner.None? ==> s.stack == s.kinesisClient)
    && (s.lockOwner.Some? ==>
          match s.pcs[s.lockOwner.value]
          case GetCreating => s.stack.None? && s.kinesisClient.None?
          case CloseExiting(id) => s.stack.None? && s.kinesisClient == Some(id)
          case _ => false)
    // no client is exited twice, and none that is live has been exited
    && (forall i | 0 <= i < |s.exits| :: s.exits[i] < s.created && s.exits[i] !in s.live)
    && (forall i, j | 0 <= i < j < |s.exits| :: s.exits[i] != s.exits[j])
    && (s.stack.Some? ==> s.stack.value < s.created)
    // none is forgotten: every client created is live or has been exited
    && (forall id: nat | id < s.created :: id in s.live || id in s.exits)
    // gets of the current epoch returned the published client
    && (forall i | 0 <= i < |s.gets| :: s.gets[i].epoch <= s.epoch)
    && (forall i | 0 <= i < |s.gets| && s.gets[i].epoch == s.epoch :: s.kinesisClient == Some(s.gets[i].client))
    && forall i, j | 0 <= i < |s.gets| && 0 <= j < |s.gets| && s.gets[i].epoch == s.gets[j].epoch ::
         s.gets[i].client == s.gets[j].client
  }

  lemma StepInv(s: State, a: Action)
    requires Inv(s) && Enabled(s, a)
    ensures Inv(Apply(s, a))
  {
    match a
    case Lock(c) => LockStepInv(s, c);
    case Created(c) => CreatedStepInv(s, c);
    case Look(c) => LookStepInv(s, c);
    case _ =>
  }

  lemma LockStepInv(s: State, c: nat)
    requires Inv(s) && Enabled(s, Lock(c))
    ensures Inv(Apply(s, Lock(c)))
  {
  }

  lemma CreatedStepInv(s: State, c: nat)
    requires Inv(s) && Enabled(s, Created(c))
    ensures Inv(Apply(s, Created(c)))
  {
  }

  lemma LookStepInv(s: State, c: nat)
    requires Inv(s) && Enabled(s, Look(c))
    ensures Inv(Apply(s, Look(c)))
  {
  }

  lemma {:induction false} RunInv(s: State, acts: seq<Action>, t: State)
    requires Inv(s) && IsRun(s, acts, t)
    ensures Inv(t)
    decreases |acts|
  {
    hide Inv;
    if acts != [] {
      StepInv(s, acts[0]);
      RunInv(Apply(s, acts[0]), acts[1..], t);
    }
  }

  /**
   Over any interleaving, with creations and closes that fail or are cancelled: at most one client is live; whenever the
   lock is free the exit stack owns exactly the published client; all gets between two closes return the same client; and
   no client is closed twice and none forgotten.
   */
  lemma OneClient(pcs: seq<Pc>, acts: seq<Action>, s: State)
    requires Fresh(pcs) && IsRun(Init(pcs), acts, s)
    ensures |s.live| <= 1
    ensures s.lockOwner.None? ==> s.stack == s.kinesisClient && s.live == (if s.stack.Some? then {s.stack.value} else {})
    ensures forall i, j | 0 <= i < |s.gets| && 0 <= j < |s.gets| && s.gets[i].epoch == s.gets[j].epoch ::
              s.gets[i].client == s.gets[j].client
    ensures forall i, j | 0 <= i < j < |s.exits| :: s.exits[i] != s.exits[j]
    ensures forall id: nat | id < s.created :: id in s.live || id in s.exits
  {
    RunInv(Init(pcs), acts, s);
  }

  /** When a close returns no client is live or published; so whoever asks next gets a new one. */
  lemma CloseLeavesNothing(s: State, a: Action)
    requires Reachable(s) && Enabled(s, a) && (s.pcs[a.c].CloseWaiting? || s.pcs[a.c].CloseExiting?)
    requires Apply(s, a).pcs[a.c].CloseDone?
    ensures var t := Apply(s, a); t.live == {} && t.kinesisClient.None? && t.stack.None?
    ensures forall id: nat | id < Apply(s, a).created :: id in Apply(s, a).exits
  {
    ReachableInv(s);
    StepInv(s, a);
  }

  // ---- every call comes to an end ----

  function Remaining(pc: Pc): (n: nat)
    ensures n <= 3
  {
    match pc
    case GetStart => 3
    case CloseStart => 3
    case GetWaiting => 2
    case CloseWaiting => 2
    case GetCreating => 1
    case CloseExiting(_) => 1
    case _ => 0
  }

  predicate IsGetter(pc: Pc) { pc.GetStart? || pc.GetWaiting? || pc.GetCreating? || pc.GetDone? }

  function StepsOf(acts: seq<Action>, c: nat): nat {
    if acts == [] then 0 else (if acts[0].c == c then 1 else 0) + StepsOf(acts[1..], c)
  }

  predicate Fails(a: Action, c: nat) { a == CreateFailed(c) || a == Cancel(c) }

  lemma StepOf(s: State, a: Action, c: nat)
    requires Enabled(s, a) && c < |s.pcs|
    ensures var t := Apply(s, a);
            && |t.pcs| == |s.pcs|
            && (a.c != c ==> t.pcs[c] == s.pcs[c])
            && Remaining(t.pcs[c]) + (if a.c == c then 1 else 0) <= Remaining(s.pcs[c])
            && (!s.pcs[c].Failed? ==> (t.pcs[c].Failed? <==> Fails(a, c)))
            && (t.pcs[c].Failed? || (IsGetter(t.pcs[c]) <==> IsGetter(s.pcs[c])))
  {
  }

  /**
   Over any interleaving: no call takes more than three steps of its own; one that has none left got a client, or closed, or
   failed, and it failed if and only if its creation did or it was cancelled.
   */
  lemma {:induction false} CallsEnd(s: State, acts: seq<Action>, t: State, c: nat)
    requires IsRun(s, acts, t) && c < |s.pcs| && !s.pcs[c].Failed?
    ensures |t.pcs| == |s.pcs| && StepsOf(acts, c) + Remaining(t.pcs[c]) <= Remaining(s.pcs[c]) <= 3
    ensures t.pcs[c].Failed? <==> exists a :: a in acts && Fails(a, c)
    ensures !t.pcs[c].Failed? ==> (IsGetter(t.pcs[c]) <==> IsGetter(s.pcs[c]))
    decreases |acts|
  {
    hide Enabled, Apply, Remaining, IsGetter;
    if acts != [] {
      StepOf(s, acts[0], c);
      var next := Apply(s, acts[0]);
      assert acts == [acts[0]] + acts[1..];
      if next.pcs[c].Failed? { FailedStays(next, acts[1..], t, c); } else { CallsEnd(next, acts[1..], t, c); }
    }
  }

  lemma {:induction false} FailedStays(s: State, acts: seq<Action>, t: State, c: nat)
    requires IsRun(s, acts, t) && c < |s.pcs| && s.pcs[c].Failed?
    ensures |t.pcs| == |s.pcs| && t.pcs[c].Failed? && StepsOf(acts, c) == 0
    decreases |acts|
  {
    if acts != [] { FailedStays(Apply(s, acts[0]), acts[1..], t, c); }
  }

  /** A step, not a failure, that a call can take now. */
  function NextStep(pc: Pc, c: nat): Action {
    match pc
    case GetStart => Look(c)
    case CloseStart => Ask(c)
    case GetCreating => Created(c)
    case CloseExiting(_) => Exited(c)
    case _ => Lock(c)
  }

  /** Until it ends, a call can take a step, or waits for the lock and its owner can. */
  lemma NeverStuck(s: State, c: nat)
    requires Reachable(s) && c < |s.pcs| && Remaining(s.pcs[c]) > 0
    ensures Enabled(s, NextStep(s.pcs[c], c))
            || (&& (s.pcs[c].GetWaiting? || s.pcs[c].CloseWaiting?) && s.lockOwner.Some?
                && s.lockOwner.value < |s.pcs| && s.lockOwner.value != c
                && Enabled(s, NextStep(s.pcs[s.lockOwner.value], s.lockOwner.value)))
  {
    ReachableInv(s);
  }

  lemma RunCons(s: State, a: Action, acts: seq<Action>, t: State)
    requires Enabled(s, a) && IsRun(Apply(s, a), acts, t)
    ensures IsRun(s, [a] + acts, t)
  {
    assert ([a] + acts)[1..] == acts;
  }

  /** A getter that looks while a close is under way is handed the client that is being closed. */
  lemma GetDuringClose() returns (acts: seq<Action>, s: State)
    ensures IsRun(Init([GetStart, CloseStart, GetStart]), acts, s)
    ensures |s.pcs| == 3 && s.pcs[2] == GetDone(0) && s.live == {} && s.exits == [0]
  {
    var s0 := Init([GetStart, CloseStart, GetStart]);
    var s1 := Apply(s0, Look(0));
    var s2 := Apply(s1, Lock(0));
    var s3 := Apply(s2, Created(0));
    var s4 := Apply(s3, Ask(1));
    var s5 := Apply(s4, Lock(1));
    s := Apply(s5, Look(2));
    hide IsRun;
    EmptyRun(s);
    var run5 := [Look(2)] + [];
    var run4 := [Lock(1)] + run5;
    var run3 := [Ask(1)] + run4;
    var run2 := [Created(0)] + run3;
    var run1 := [Lock(0)] + run2;
    acts := [Look(0)] + run1;
    RunCons(s5, Look(2), [], s);
    RunCons(s4, Lock(1), run5, s);
    RunCons(s3, Ask(1), run4, s);
    RunCons(s2, Created(0), run3, s);
    RunCons(s1, Lock(0), run2, s);
    RunCons(s0, Look(0), run1, s);
  }

  lemma EmptyRun(s: State)
    ensures IsRun(s, [], s)
  {
  }

  /** A step that hands its coroutine a client. */
  predicate Hands(s: State, a: Action) {
    Enabled(s, a) && Apply(s, a).pcs[a.c].GetDone?
  }

  /**
   When a get returns a live client: in every reachable state exactly if no close is under way at that moment.
   */
  lemma GetIsLiveExactly(s: State, a: Action)
    requires Reachable(s) && Hands(s, a)
    ensures Apply(s, a).pcs[a.c].client in Apply(s, a).live <==> forall d | 0 <= d < |s.pcs| :: !s.pcs[d].CloseExiting?
  {
    ReachableInv(s);
    var id := Apply(s, a).pcs[a.c].client;
    if owner: nat :| owner < |s.pcs| && s.pcs[owner].CloseExiting? {
      assert s.lockOwner == Some(owner);
      assert s.live == {};
    }
  }

  // ---- reachable states ----

  /** The end of some run of fresh getters and closers. */
  ghost predicate Reachable(s: State) {
    exists pcs, acts :: Fresh(pcs) && IsRun(Init(pcs), acts, s)
  }

  lemma ReachableInv(s: State)
    requires Reachable(s)
    ensures Inv(s)
  {
    var pcs, acts :| Fresh(pcs) && IsRun(Init(pcs), acts, s);
    RunInv(Init(pcs), acts, s);
  }

  lemma {:induction false} RunSnoc(s: State, acts: seq<Action>, t: State, a: Action)
    requires IsRun(s, acts, t) && Enabled(t, a)
    ensures IsRun(s, acts + [a], Apply(t, a))
    decreases |acts|
  {
    hide Enabled, Apply;
    if acts == [] {
      assert [a][1..] == [] && [] + [a] == [a];
      EmptyRun(Apply(t, a));
    } else {
      RunSnoc(Apply(s, acts[0]), acts[1..], t, a);
      assert (acts + [a])[1..] == acts[1..] + [a];
    }
  }

  lemma ReachableStep(s: State, a: Action)
    requires Reachable(s) && Enabled(s, a)
    ensures Reachable(Apply(s, a))
  {
    var pcs, acts :| Fresh(pcs) && IsRun(Init(pcs), acts, s);
    hide Enabled, Apply, IsRun, Fresh;
    RunSnoc(Init(pcs), acts, s, a);
  }

  // ---- the object ----

  /** One method per action. A valid object is the end of a run, so a history of calls on it is one. */
  class StateService {
    var pcs: seq<Pc>
    var kinesisClient: Option<nat>
    var kinesisExitStack: Option<nat>
    var lockOwner: Option<nat>
    var created: nat
    ghost var live: set<nat>
    ghost var exits: seq<nat>
    ghost var epoch: nat
    ghost var gets: seq<Got>

    ghost function View(): State
      reads this
    {
      State(pcs, kinesisClient, kinesisExitStack, lockOwner, created, live, exits, epoch, gets)
    }

    ghost predicate Valid()
      reads this
    {
      Reachable(View())
    }

    constructor (pcs: seq<Pc>)
      requires Fresh(pcs)
      ensures Valid() && View() == Init(pcs)
    {
      this.pcs := pcs;
      kinesisClient, kinesisExitStack, lockOwner, created := None, None, None, 0;
      live, exits, epoch, gets := {}, [], 0, [];
      new;
      EmptyRun(Init(pcs));
    }

    method ReturnClient(c: nat, client: nat)
      requires c < |pcs|
      modifies this`pcs, this`gets
      ensures View() == Give(old(View()), c, client)
    {
      pcs, gets := pcs[c := GetDone(client)], gets + [Got(epoch, client)];
    }

    method GetKinesisClient(c: nat) returns (ran: bool)
      requires Valid()
      modifies this
      ensures ran == Enabled(old(View()), Look(c))
      ensures View() == if ran then Apply(old(View()), Look(c)) else old(View())
      ensures Valid()
    {
      hide Reachable;
      ran := c < |pcs| && pcs[c].GetStart?;
      if ran {
        var client := kinesisClient;
        if client.Some? { ReturnClient(c, client.value); } else { pcs := pcs[c := GetWaiting]; }
      }
      if ran { ReachableStep(old(View()), Look(c)); }
    }

    method CloseKinesisClient(c: nat) returns (ran: bool)
      requires Valid()
      modifies this
      ensures ran == Enabled(old(View()), Ask(c))
      ensures View() == if ran then Apply(old(View()), Ask(c)) else old(View())
      ensures Valid()
    {
      hide Reachable;
      ran := c < |pcs| && pcs[c].CloseStart?;
      if ran { pcs := pcs[c := CloseWaiting]; }
      if ran { ReachableStep(old(View()), Ask(c)); }
    }

    method OnLocked(c: nat) returns (ran: bool)
      requires Valid()
      modifies this
      ensures ran == Enabled(old(View()), Lock(c))
      ensures View() == if ran then Apply(old(View()), Lock(c)) else old(View())
      ensures Valid()
    {
      hide Reachable;
      ran := c < |pcs| && (pcs[c].GetWaiting? || pcs[c].CloseWaiting?) && lockOwner.None?;
      if ran {
        if pcs[c].GetWaiting? {
          var client := kinesisClient;
          if client.Some? {
            ReturnClient(c, client.value);
          } else {
            pcs, lockOwner := pcs[c := GetCreating], Some(c);
          }
        } else if kinesisClient.None? {
          pcs := pcs[c := CloseDone];
        } else if kinesisExitStack.Some? {
          var client := kinesisExitStack.value;
          pcs, lockOwner, kinesisExitStack := pcs[c := CloseExiting(client)], Some(c), None;
          live, exits := live - {client}, exits + [client];
        } else {
          pcs, kinesisClient, epoch := pcs[c := CloseDone], None, epoch + 1;
        }
      }
      if ran { ReachableStep(old(View()), Lock(c)); }
    }

    method OnCreated(c: nat) returns (ran: bool)
      requires Valid()
      modifies this
      ensures ran == Enabled(old(View()), Created(c))
      ensures View() == if ran then Apply(old(View()), Created(c)) else old(View())
      ensures Valid()
    {
      hide Reachable;
      ran := c < |pcs| && pcs[c].GetCreating?;
      if ran {
        var client := created;
        created, live := created + 1, live + {client};
        kinesisExitStack, kinesisClient, lockOwner := Some(client), Some(client), None;
        ReturnClient(c, client);
      }
      if ran { ReachableStep(old(View()), Created(c)); }
    }

    method OnCreateFailed(c: nat) returns (ran: bool)
      requires Valid()
      modifies this
      ensures ran == Enabled(old(View()), CreateFailed(c))
      ensures View() == if ran then Apply(old(View()), CreateFailed(c)) else old(View())
      ensures Valid()
    {
      hide Reachable;
      ran := c < |pcs| && pcs[c].GetCreating?;
      if ran { pcs, lockOwner := pcs[c := Failed], None; }
      if ran { ReachableStep(old(View()), CreateFailed(c)); }
    }

    /** The `finally` block: whatever the exit did, the client is forgotten and the stack replaced. */
    method OnExited(c: nat) returns (ran: bool)
      requires Valid()
      modifies this
      ensures ran == Enabled(old(View()), Exited(c))
      ensures View() == if ran then Apply(old(View()), Exited(c)) else old(View())
      ensures Valid()
    {
      hide Reachable;
      ran := c < |pcs| && pcs[c].CloseExiting?;
      if ran {
        pcs, kinesisClient, kinesisExitStack, lockOwner := pcs[c := CloseDone], None, None, None;
        epoch := epoch + 1;
      }
      if ran { ReachableStep(old(View()), Exited(c)); }
    }

    method OnCancelled(c: nat) returns (ran: bool)
      requires Valid()
      modifies this
      ensures ran == Enabled(old(View()), Cancel(c))
      ensures View() == if ran then Apply(old(View()), Cancel(c)) else old(View())
      ensures Valid()
    {
      hide Reachable;
      ran := c < |pcs| && (pcs[c].GetWaiting? || pcs[c].CloseWaiting?);
      if ran { pcs := pcs[c := Failed]; }
      if ran { ReachableStep(old(View()), Cancel(c)); }
    }
  }
}
