/**
 Over whole runs: which key a request is handed, where it came from, when a request is rejected, and that every request
 comes to an end.
 */
module Provenance {
  import opened Text
  import opened CacheKey
  import opened CacheTtl
  import opened SecretValidation
  import opened AuthService
  import opened MintLock

  // ---- which key is handed out ----

  /**
   The secret was verified for the requester. A stored key is handed out as it stands in the secret, a minted token with the
   expiry it was minted with for that requester.
   */
  ghost predicate Sourced(acts: seq<Action>, grant: Grant) {
    && Verify(grant.requester, Some(grant.secret)) in acts
    && match grant.secret
       case StoredKey(apiKey, _) => grant.apiKey == apiKey && grant.expiresAt == None && grant.providerUntil == None
       case MintSecret(_, _) =>
         && grant.expiresAt.Some? && grant.providerUntil.Some?
         && MintDone(grant.requester, grant.apiKey, grant.expiresAt.value, grant.providerUntil.value) in acts
  }

  /** Only keys that are not empty are written. */
  ghost predicate Written(acts: seq<Action>, grant: Grant) {
    Sourced(acts, grant) && grant.apiKey != ""
  }

  ghost predicate PcSourced(acts: seq<Action>, c: nat, raw: string, pc: Pc) {
    && (Reads(pc) && pc.answer.Some? ==>
          raw != "" && (pc.answer.value.found.Some? ==> Written(acts, pc.answer.value.found.value.grant)))
    && (pc.AwaitingLock? || pc.SecondRead? || pc.Minting? ==> pc.secret.MintSecret? && Verify(c, Some(pc.secret)) in acts)
    && (pc.Writing? ==>
          && Written(acts, pc.grant) && pc.grant.requester == c && raw != ""
          && (pc.held.Some? <==> pc.grant.secret.MintSecret?))
    && (pc.Returned? ==> Sourced(acts, pc.grant))
  }

  /** Only an answered read is served from the cache. */
  ghost predicate EventSourced(acts: seq<Action>, e: Event) {
    e.Served? ==>
      && Written(acts, e.entry.grant)
      && (ReadCache(e.coroutine, Answered) in acts || RereadCache(e.coroutine, Answered) in acts)
  }

  ghost predicate AllSourced(acts: seq<Action>, s: State) {
    && |s.pcs| == |s.requests|
    && (forall c | 0 <= c < |s.pcs| :: PcSourced(acts, c, s.requests[c].raw, s.pcs[c]))
    && (forall k | k in s.cache :: Written(acts, s.cache[k].grant))
    && (forall i | 0 <= i < |s.abandoned| :: Written(acts, s.abandoned[i].grant))
    && forall i | 0 <= i < |s.events| :: EventSourced(acts, s.events[i])
  }

  /** A step that writes nothing to the cache moves one coroutine, which may leave a write behind or be served. */
  lemma MoveSourced(acts: seq<Action>, s: State, t: State, c: nat)
    requires AllSourced(acts, s) && c < |s.pcs| && t.requests == s.requests && t.cache == s.cache
    requires |t.pcs| == |s.pcs| && t.pcs == s.pcs[c := t.pcs[c]] && PcSourced(acts, c, s.requests[c].raw, t.pcs[c])
    requires t.abandoned == s.abandoned
             || (t.abandoned != [] && t.abandoned[..|t.abandoned| - 1] == s.abandoned
                 && Written(acts, t.abandoned[|t.abandoned| - 1].grant))
    requires t.events == s.events
             || (t.events != [] && t.events[..|t.events| - 1] == s.events && EventSourced(acts, t.events[|t.events| - 1]))
    ensures AllSourced(acts, t)
  {
    hide PcSourced, Written, EventSourced;
    forall i | 0 <= i < |t.events| ensures EventSourced(acts, t.events[i]) {
      if i < |s.events| { assert t.events[i] == t.events[..|s.events|][i]; }
    }
    forall i | 0 <= i < |t.abandoned| ensures Written(acts, t.abandoned[i].grant) {
      if i < |s.abandoned| { assert t.abandoned[i] == t.abandoned[..|s.abandoned|][i]; }
    }
  }

  lemma LookSourced(acts: seq<Action>, s: State, c: nat)
    requires AllSourced(acts, s) && Enabled(s, Look(c))
    ensures AllSourced(acts, Apply(s, Look(c)))
  {
    assert PcSourced(acts, c, s.requests[c].raw, s.pcs[c]);
    if Lookup(s, c).Some? { assert Written(acts, s.cache[KeyOf(s, c)].grant); }
    hide Written, AllSourced, GenerateCacheKey, Lookup;
    MoveSourced(acts, s, Apply(s, Look(c)), c);
  }

  lemma HitSourced(acts: seq<Action>, s: State, a: Action)
    requires AllSourced(acts, s) && Enabled(s, a) && (a.ReadCache? || a.RereadCache?) && a in acts
    requires a.outcome.Answered? && Found(s.pcs[a.c]).Some?
    ensures AllSourced(acts, Apply(s, a))
  {
    assert PcSourced(acts, a.c, s.requests[a.c].raw, s.pcs[a.c]);
    var entry := Found(s.pcs[a.c]).value;
    assert EventSourced(acts, Served(a.c, entry, s.pcs[a.c].answer.value.at, s.now)) by { hide Written; }
    hide Sourced, AllSourced, EventSourced, HeldBy, CanReturn;
    MoveSourced(acts, s, Apply(s, a), a.c);
  }

  lemma MissSourced(acts: seq<Action>, s: State, a: Action)
    requires AllSourced(acts, s) && Enabled(s, a) && (a.ReadCache? || a.RereadCache?)
    requires !(a.outcome.Answered? && Found(s.pcs[a.c]).Some?)
    ensures AllSourced(acts, Apply(s, a))
  {
    assert PcSourced(acts, a.c, s.requests[a.c].raw, s.pcs[a.c]);
    hide Written, Sourced, AllSourced, HeldBy, CanReturn, KeyOf, Found;
    MoveSourced(acts, s, Apply(s, a), a.c);
  }

  lemma VerifySourced(acts: seq<Action>, s: State, c: nat, secret: Option<Secret>)
    requires AllSourced(acts, s) && Enabled(s, Verify(c, secret)) && Verify(c, secret) in acts
    ensures AllSourced(acts, Apply(s, Verify(c, secret)))
  {
    var t := Apply(s, Verify(c, secret));
    hide AllSourced, ValidateSecret, StoredTtl, KeyAt, HeldBy;
    assert PcSourced(acts, c, s.requests[c].raw, t.pcs[c]);
    hide PcSourced;
    MoveSourced(acts, s, t, c);
  }

  lemma MintDoneSourced(acts: seq<Action>, s: State, a: Action)
    requires AllSourced(acts, s) && Enabled(s, a) && a.MintDone? && a in acts
    ensures AllSourced(acts, Apply(s, a))
  {
    var t := Apply(s, a);
    assert PcSourced(acts, a.c, s.requests[a.c].raw, s.pcs[a.c]);
    hide AllSourced, EffectiveCacheTtl, HeldBy;
    assert PcSourced(acts, a.c, s.requests[a.c].raw, t.pcs[a.c]);
    hide PcSourced;
    MoveSourced(acts, s, t, a.c);
  }

  lemma GoOnSourced(acts: seq<Action>, s: State, a: Action)
    requires AllSourced(acts, s) && Enabled(s, a) && (a.Acquire? || a.MintFailed?)
    ensures AllSourced(acts, Apply(s, a))
  {
    assert PcSourced(acts, a.c, s.requests[a.c].raw, s.pcs[a.c]);
    hide Written, Sourced, AllSourced, HeldBy;
    MoveSourced(acts, s, Apply(s, a), a.c);
  }

  lemma EndSourced(acts: seq<Action>, s: State, a: Action)
    requires AllSourced(acts, s) && Enabled(s, a) && (a.WriteDone? || a.CancelTask?)
    ensures AllSourced(acts, Apply(s, a))
  {
    assert PcSourced(acts, a.c, s.requests[a.c].raw, s.pcs[a.c]);
    hide Sourced, AllSourced, HeldBy, KeyOf;
    MoveSourced(acts, s, Apply(s, a), a.c);
  }

  lemma StoreSourced(acts: seq<Action>, s: State, key: Key, grant: Grant, ttl: int, since: real)
    requires AllSourced(acts, s) && Written(acts, grant)
    ensures AllSourced(acts, Store(s, key, grant, ttl, since))
  {
    hide PcSourced, Written;
  }

  lemma LandSourced(acts: seq<Action>, s: State, a: Action)
    requires AllSourced(acts, s) && Enabled(s, a) && (a.Land? || a.LateLand?)
    ensures AllSourced(acts, Apply(s, a))
  {
    match a
    case Land(c) =>
      var pc := s.pcs[c];
      var t := Goto(s, c, pc.(landed := true));
      assert PcSourced(acts, c, s.requests[c].raw, pc);
      hide Written, Store, KeyOf;
      assert AllSourced(acts, t);
      StoreSourced(acts, t, KeyOf(s, c), pc.grant, pc.ttl, pc.since);
    case LateLand(i) =>
      var w := s.abandoned[i];
      var t := s.(abandoned := s.abandoned[..i] + s.abandoned[i + 1..]);
      hide Written, Store, PcSourced, EventSourced;
      assert AllSourced(acts, t);
      StoreSourced(acts, t, w.key, w.grant, w.ttl, w.since);
  }

  lemma EnvironmentSourced(acts: seq<Action>, s: State, a: Action)
    requires AllSourced(acts, s) && Enabled(s, a) && (a.CollectLock? || a.Evict? || a.Tick?)
    ensures AllSourced(acts, Apply(s, a))
  {
    hide PcSourced, Written, EventSourced;
  }

  lemma StepSourced(acts: seq<Action>, s: State, a: Action)
    requires AllSourced(acts, s) && Enabled(s, a) && a in acts
    ensures AllSourced(acts, Apply(s, a))
  {
    hide AllSourced, Enabled, Apply;
    match a
    case Look(c) => LookSourced(acts, s, c);
    case ReadCache(_, _) => ReadSourced(acts, s, a);
    case RereadCache(_, _) => ReadSourced(acts, s, a);
    case Verify(c, secret) => VerifySourced(acts, s, c, secret);
    case MintDone(_, _, _, _) => MintDoneSourced(acts, s, a);
    case Acquire(_) => GoOnSourced(acts, s, a);
    case MintFailed(_) => GoOnSourced(acts, s, a);
    case WriteDone(_) => EndSourced(acts, s, a);
    case CancelTask(_) => EndSourced(acts, s, a);
    case Land(_) => LandSourced(acts, s, a);
    case LateLand(_) => LandSourced(acts, s, a);
    case CollectLock(_) => EnvironmentSourced(acts, s, a);
    case Evict(_) => EnvironmentSourced(acts, s, a);
    case Tick(_) => EnvironmentSourced(acts, s, a);
  }

  lemma ReadSourced(acts: seq<Action>, s: State, a: Action)
    requires AllSourced(acts, s) && Enabled(s, a) && (a.ReadCache? || a.RereadCache?) && a in acts
    ensures AllSourced(acts, Apply(s, a))
  {
    hide AllSourced, Apply, CanReturn;
    if a.outcome.Answered? && Found(s.pcs[a.c]).Some? { HitSourced(acts, s, a); } else { MissSourced(acts, s, a); }
  }

  lemma {:induction false} RunSourced(all: seq<Action>, s: State, acts: seq<Action>, t: State)
    requires AllSourced(all, s) && IsRun(s, acts, t) && forall a | a in acts :: a in all
    ensures AllSourced(all, t)
    decreases |acts|
  {
    hide AllSourced, Enabled, Apply;
    if acts != [] {
      StepSourced(all, s, acts[0]);
      RunSourced(all, Apply(s, acts[0]), acts[1..], t);
    }
  }

  /**
   Over any run, whichever way a result took: what a request is answered with, what is cached and what is still on its way to
   the cache is the key of the secret verified for its requester, or the token minted for that requester.
   */
  lemma KeysAreAsVerifiedOrMinted(requests: seq<Request>, cacheDuration: nat, acts: seq<Action>, s: State)
    requires IsRun(Init(requests, cacheDuration), acts, s)
    ensures forall c | 0 <= c < |s.pcs| && s.pcs[c].Returned? :: Sourced(acts, s.pcs[c].grant)
    ensures forall c | 0 <= c < |s.pcs| && s.pcs[c].Writing? ::
              Sourced(acts, s.pcs[c].grant) && s.pcs[c].grant.requester == c
    ensures forall k | k in s.cache :: Sourced(acts, s.cache[k].grant) && s.cache[k].grant.apiKey != ""
    ensures forall i | 0 <= i < |s.abandoned| :: Sourced(acts, s.abandoned[i].grant) && s.abandoned[i].grant.apiKey != ""
    ensures forall i | 0 <= i < |s.events| && s.events[i].Served? :: Sourced(acts, s.events[i].entry.grant)
  {
    var start := Init(requests, cacheDuration);
    assert AllSourced(acts, start);
    RunSourced(acts, start, acts, s);
    hide Sourced;
    forall c | 0 <= c < |s.pcs| ensures PcSourced(acts, c, s.requests[c].raw, s.pcs[c]) {}
  }

  // ---- when a request is answered and when it is rejected ----

  predicate Ended(pc: Pc) { pc.Returned? || pc.Raised? }

  /** What rejects a request: a timed out read, a failed or refused verification, a failed mint, or a cancellation. */
  predicate Rejects(requests: seq<Request>, a: Action, c: nat)
    requires c < |requests|
  {
    match a
    case ReadCache(d, outcome) => d == c && outcome == TimedOut
    case RereadCache(d, outcome) => d == c && outcome == TimedOut
    case Verify(d, secret) => d == c && (secret == None || !HostAllows(secret.value, requests[c].target))
    case MintFailed(d) => d == c
    case CancelTask(d) => d == c
    case _ => false
  }

  /** The coroutine an action moves. */
  function Mover(a: Action): Option<nat> {
    match a
    case CollectLock(_) => None
    case Evict(_) => None
    case Tick(_) => None
    case LateLand(_) => None
    case _ => Some(a.c)
  }

  /** Where an action can take its coroutine. */
  predicate Leads(requests: seq<Request>, a: Action, p: Pc, q: Pc) {
    match a
    case Look(_) => (p.FirstRead? && q.FirstRead?) || (p.SecondRead? && q.SecondRead?)
    case ReadCache(_, outcome) => p.FirstRead? && if outcome.TimedOut? then q.Raised? else q.Verifying? || q.Returned?
    case Verify(c, secret) =>
      && p.Verifying? && c < |requests|
      && if secret.None? || !HostAllows(secret.value, requests[c].target) then q.Raised?
         else q.AwaitingLock? || q.Writing? || q.Returned?
    case Acquire(_) => p.AwaitingLock? && q.SecondRead?
    case RereadCache(_, outcome) => p.SecondRead? && if outcome.TimedOut? then q.Raised? else q.Minting? || q.Returned?
    case MintDone(_, _, _, _) => p.Minting? && (q.Writing? || q.Returned?)
    case MintFailed(_) => p.Minting? && q.Raised?
    case Land(_) => p.Writing? && q.Writing?
    case WriteDone(_) => p.Writing? && q.Returned?
    case CancelTask(_) => !Ended(p) && q.Raised?
    case _ => false
  }

  lemma LookLeads(s: State, a: Action)
    requires Enabled(s, a) && a.Look?
    ensures |Apply(s, a).pcs| == |s.pcs| && Leads(s.requests, a, s.pcs[a.c], Apply(s, a).pcs[a.c])
    ensures Apply(s, a).pcs == s.pcs[a.c := Apply(s, a).pcs[a.c]]
  {
    hide Lookup;
  }

  lemma FirstReadLeads(s: State, a: Action)
    requires Enabled(s, a) && a.ReadCache?
    ensures |Apply(s, a).pcs| == |s.pcs| && Leads(s.requests, a, s.pcs[a.c], Apply(s, a).pcs[a.c])
    ensures Apply(s, a).pcs == s.pcs[a.c := Apply(s, a).pcs[a.c]]
  {
    hide CanReturn, HeldBy, Found;
  }

  lemma SecondReadLeads(s: State, a: Action)
    requires Enabled(s, a) && a.RereadCache?
    ensures |Apply(s, a).pcs| == |s.pcs| && Leads(s.requests, a, s.pcs[a.c], Apply(s, a).pcs[a.c])
    ensures Apply(s, a).pcs == s.pcs[a.c := Apply(s, a).pcs[a.c]]
  {
    hide CanReturn, HeldBy, KeyOf, Found;
  }

  lemma VerifyLeads(s: State, a: Action)
    requires Enabled(s, a) && a.Verify?
    ensures |Apply(s, a).pcs| == |s.pcs| && Leads(s.requests, a, s.pcs[a.c], Apply(s, a).pcs[a.c])
    ensures Apply(s, a).pcs == s.pcs[a.c := Apply(s, a).pcs[a.c]]
  {
    if a.secret.Some? { ValidateExactly(a.secret.value, s.requests[a.c].target); }
    hide HostAllows, ValidateSecret, StoredTtl, GenerateCacheKey, HeldBy;
  }

  lemma RestLeads(s: State, a: Action)
    requires Enabled(s, a) && Mover(a).Some? && !a.Look? && !a.ReadCache? && !a.RereadCache? && !a.Verify?
    ensures |Apply(s, a).pcs| == |s.pcs| && Leads(s.requests, a, s.pcs[a.c], Apply(s, a).pcs[a.c])
    ensures Apply(s, a).pcs == s.pcs[a.c := Apply(s, a).pcs[a.c]]
  {
    hide GenerateCacheKey, EffectiveCacheTtl, HeldBy;
  }

  /** An action moves its own coroutine, as it may, and no other. */
  lemma StepLeads(s: State, a: Action, c: nat)
    requires Enabled(s, a) && c < |s.pcs|
    ensures |Apply(s, a).pcs| == |s.pcs|
    ensures if Mover(a) == Some(c) then Leads(s.requests, a, s.pcs[c], Apply(s, a).pcs[c])
            else Apply(s, a).pcs[c] == s.pcs[c]
  {
    hide Leads;
    if Mover(a).Some? {
      hide Apply, Enabled;
      if a.Look? { LookLeads(s, a); }
      else if a.ReadCache? { FirstReadLeads(s, a); }
      else if a.RereadCache? { SecondReadLeads(s, a); }
      else if a.Verify? { VerifyLeads(s, a); }
      else { RestLeads(s, a); }
    }
  }

  lemma RejectedStep(s: State, a: Action, c: nat)
    requires Enabled(s, a) && c < |s.pcs| && !Ended(s.pcs[c])
    ensures |Apply(s, a).pcs| == |s.pcs|
    ensures Apply(s, a).pcs[c].Raised? <==> Rejects(s.requests, a, c)
  {
    hide Apply, HostAllows;
    StepLeads(s, a, c);
  }

  lemma EndedStep(s: State, a: Action, c: nat)
    requires Enabled(s, a) && c < |s.pcs| && Ended(s.pcs[c])
    ensures |Apply(s, a).pcs| == |s.pcs| && Apply(s, a).pcs[c] == s.pcs[c] && !Rejects(s.requests, a, c)
  {
    hide Apply, HostAllows;
    StepLeads(s, a, c);
  }

  lemma {:induction false} EndedStays(s: State, acts: seq<Action>, t: State, c: nat)
    requires IsRun(s, acts, t) && c < |s.pcs| == |s.requests| && Ended(s.pcs[c])
    ensures |t.pcs| == |s.pcs| && t.pcs[c] == s.pcs[c] && forall a | a in acts :: !Rejects(s.requests, a, c)
    decreases |acts|
  {
    hide Enabled, Apply, Rejects;
    if acts != [] {
      EndedStep(s, acts[0], c);
      StepKeepsService(s, acts[0]);
      EndedStays(Apply(s, acts[0]), acts[1..], t, c);
    }
  }

  /** Over any run: a request is rejected if and only if one of these happened to it; everything else ends in a key. */
  lemma {:induction false} RejectedExactly(s: State, acts: seq<Action>, t: State, c: nat)
    requires IsRun(s, acts, t) && c < |s.pcs| == |s.requests| && !Ended(s.pcs[c])
    ensures |t.pcs| == |s.pcs|
    ensures t.pcs[c].Raised? <==> exists a :: a in acts && Rejects(s.requests, a, c)
    decreases |acts|
  {
    hide Enabled, Apply, Rejects;
    if acts != [] {
      RejectedStep(s, acts[0], c);
      StepKeepsService(s, acts[0]);
      var next := Apply(s, acts[0]);
      if Ended(next.pcs[c]) { EndedStays(next, acts[1..], t, c); } else { RejectedExactly(next, acts[1..], t, c); }
      assert acts == [acts[0]] + acts[1..];
    }
  }

  // ---- every request ends ----

  /** The steps a request takes itself, or that an answer it waits for lets it take. */
  predicate Moves(a: Action, c: nat) {
    match a
    case ReadCache(d, _) => d == c
    case Verify(d, _) => d == c
    case Acquire(d) => d == c
    case RereadCache(d, _) => d == c
    case MintDone(d, _, _, _) => d == c
    case MintFailed(d) => d == c
    case WriteDone(d) => d == c
    case CancelTask(d) => d == c
    case _ => false
  }

  function Remaining(pc: Pc): (n: nat)
    ensures n <= 6
    ensures n == 0 <==> Ended(pc)
  {
    match pc
    case FirstRead(_) => 6
    case Verifying => 5
    case AwaitingLock(_, _) => 4
    case SecondRead(_, _, _) => 3
    case Minting(_, _) => 2
    case Writing(_, _, _, _, _) => 1
    case _ => 0
  }

  function MovesIn(acts: seq<Action>, c: nat): nat {
    if acts == [] then 0 else (if Moves(acts[0], c) then 1 else 0) + MovesIn(acts[1..], c)
  }

  lemma StepMoves(s: State, a: Action, c: nat)
    requires Enabled(s, a) && c < |s.pcs|
    ensures |Apply(s, a).pcs| == |s.pcs|
    ensures Remaining(Apply(s, a).pcs[c]) + (if Moves(a, c) then 1 else 0) <= Remaining(s.pcs[c])
  {
    hide Apply, HostAllows;
    StepLeads(s, a, c);
  }

  /** No request takes more than six steps, however the others run; */
  lemma {:induction false} StepsAreBounded(s: State, acts: seq<Action>, t: State, c: nat)
    requires IsRun(s, acts, t) && c < |s.pcs|
    ensures |t.pcs| == |s.pcs| && MovesIn(acts, c) + Remaining(t.pcs[c]) <= Remaining(s.pcs[c])
    decreases |acts|
  {
    hide Enabled, Apply, Moves, Remaining;
    if acts != [] {
      StepMoves(s, acts[0], c);
      StepsAreBounded(Apply(s, acts[0]), acts[1..], t, c);
    }
  }

  /** A step, not a cancellation, that a request can take now. */
  function NextMove(s: State, c: nat): Action
    requires c < |s.pcs| == |s.requests|
  {
    match s.pcs[c]
    case FirstRead(_) => ReadCache(c, if s.requests[c].raw == "" then Answered else TimedOut)
    case Verifying => Verify(c, None)
    case AwaitingLock(_, _) => Acquire(c)
    case SecondRead(_, _, _) => RereadCache(c, if s.requests[c].raw == "" then Answered else TimedOut)
    case Minting(_, _) => MintFailed(c)
    case _ => WriteDone(c)
  }

  /** And until it has ended it can take one, or waits for a lock whose one owner can. */
  lemma NeverStuck(requests: seq<Request>, cacheDuration: nat, acts: seq<Action>, s: State, c: nat)
    requires IsRun(Init(requests, cacheDuration), acts, s) && c < |s.pcs| && !Ended(s.pcs[c])
    ensures |s.pcs| == |s.requests|
    ensures Enabled(s, NextMove(s, c))
            || (&& s.pcs[c].AwaitingLock? && s.pcs[c].lock in s.owners
                && var d := s.owners[s.pcs[c].lock];
                d < |s.pcs| && d != c && !Ended(s.pcs[d]) && Enabled(s, NextMove(s, d)))
  {
    var start := Init(requests, cacheDuration);
    assert AllSourced(acts, start);
    RunSourced(acts, start, acts, s);
    assert LockInv(start);
    RunLockInv(start, acts, s);
    hide IsRun, PcSourced, Written, EventSourced;
    assert PcSourced(acts, c, s.requests[c].raw, s.pcs[c]);
    if s.pcs[c].AwaitingLock? && s.pcs[c].lock in s.owners {
      var d := s.owners[s.pcs[c].lock];
      assert HeldBy(s.pcs[d]) == Some(s.pcs[c].lock);
      assert PcSourced(acts, d, s.requests[d].raw, s.pcs[d]);
      hide LockInv, AllSourced, KeyOf, KeyAt;
      MoveIsEnabled(acts, s, d);
    } else {
      hide LockInv, AllSourced, KeyOf, KeyAt;
      MoveIsEnabled(acts, s, c);
    }
  }

  lemma MoveIsEnabled(acts: seq<Action>, s: State, c: nat)
    requires c < |s.pcs| == |s.requests| && PcSourced(acts, c, s.requests[c].raw, s.pcs[c]) && !Ended(s.pcs[c])
    requires s.pcs[c].AwaitingLock? ==> s.pcs[c].lock !in s.owners
    ensures Enabled(s, NextMove(s, c))
  {
    hide Written, Sourced;
  }

  /** A live entry under its key answers a request at once: no verification, no lock, no mint. */
  lemma LiveEntryAnswers(s: State, c: nat)
    requires c < |s.pcs| == |s.requests| && s.pcs[c] == FirstRead(None) && s.requests[c].raw != ""
    requires var key := GenerateCacheKey(s.requests[c].raw, s.requests[c].target); key in s.cache && s.now < s.cache[key].until
    ensures Enabled(s, Look(c)) && Enabled(Apply(s, Look(c)), ReadCache(c, Answered))
    ensures var key := GenerateCacheKey(s.requests[c].raw, s.requests[c].target);
            Apply(Apply(s, Look(c)), ReadCache(c, Answered)).pcs[c] == Returned(s.cache[key].grant)
  {
    hide GenerateCacheKey;
  }
}
