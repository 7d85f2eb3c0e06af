/**
 At most one mint per TTL window, within one process, while the secret is a mint secret and the cache is neither flushed nor
 failing.
 */
module MintWindow {
  import opened Text
  import opened CacheKey
  import opened CacheTtl
  import opened SecretValidation
  import opened AuthService
  import opened MintLock

  /**
   A step that leaves key `k` undisturbed: no eviction, no late landing of an abandoned write, no stored key in place of
   the mint secret, no failed second read.
   */
  ghost predicate Undisturbed(s: State, a: Action, k: Key) {
    match a
    case Evict(j) => j != k
    case LateLand(i) => i < |s.abandoned| ==> s.abandoned[i].key != k
    case Verify(c, secret) =>
      c < |s.requests| && KeyOf(s, c) == k && secret.Some? ==> secret.value.MintSecret?
    case RereadCache(c, outcome) => c < |s.requests| && KeyOf(s, c) == k ==> !outcome.Failed?
    case _ => true
  }

  ghost predicate IsUndisturbedRun(s: State, acts: seq<Action>, t: State, k: Key)
    decreases |acts|
  {
    if acts == [] then s == t
    else Enabled(s, acts[0]) && Undisturbed(s, acts[0], k) && IsUndisturbedRun(Apply(s, acts[0]), acts[1..], t, k)
  }

  /** On the way to a cache write: Redis had no entry for the second read, and nothing has landed since. */
  predicate InFlight(pc: Pc) {
    (pc.SecondRead? && pc.answer.Some? && Found(pc).None?) || pc.Minting? || (pc.Writing? && !pc.landed)
  }

  ghost predicate WriteCovers(s: State, e: Event, k: Key) {
    e.CacheWritten? && e.key == k && s.now < e.at + e.ttl as real ==>
      k in s.cache && e.at + e.ttl as real <= s.cache[k].until
  }

  ghost predicate Spaced(e: Event, f: Event, k: Key) {
    e.CacheWritten? && f.MintStarted? && e.key == k && f.key == k ==> f.at >= e.at + e.ttl as real
  }

  ghost predicate AllSpaced(events: seq<Event>, k: Key) {
    forall i, j | 0 <= i < j < |events| :: Spaced(events[i], events[j], k)
  }

  ghost predicate WindowInv(s: State, k: Key) {
    && LockInv(s)
    && (forall c | 0 <= c < |s.pcs| && KeyOf(s, c) == k ::
          && s.requests[c].raw != ""
          && (s.pcs[c].Writing? ==> s.pcs[c].held.Some?)
          && (Live(s, k) ==> !InFlight(s.pcs[c])))
    && (forall i | 0 <= i < |s.events| :: WriteCovers(s, s.events[i], k))
    && AllSpaced(s.events, k)
  }

  lemma SpacedAppend(events: seq<Event>, e: Event, k: Key)
    requires AllSpaced(events, k) && forall i | 0 <= i < |events| :: Spaced(events[i], e, k)
    ensures AllSpaced(events + [e], k)
  {
    hide Spaced;
    var all := events + [e];
    forall i, j | 0 <= i < j < |all| ensures Spaced(all[i], all[j], k) {
      if j < |events| { assert Spaced(events[i], events[j], k); }
    }
  }

  /** A step of one coroutine that touches neither clock nor cache, and puts no request of `k` in flight while it is live. */
  lemma MoveInv(s: State, t: State, k: Key, c: nat, e: Option<Event>)
    requires WindowInv(s, k) && LockInv(t) && Moves(s, t, c, e) && c < |s.requests|
    requires KeyOf(s, c) == k ==>
               (InFlight(t.pcs[c]) ==> InFlight(s.pcs[c]) || !Live(s, k)) && (t.pcs[c].Writing? ==> t.pcs[c].held.Some?)
    requires e.Some? ==> !e.value.CacheWritten? && (e.value.MintStarted? ==> e.value.key != k)
    ensures WindowInv(t, k)
  {
    assert |s.pcs| == |s.requests|;
    hide LockInv, GenerateCacheKey, AllSpaced;
    forall d | 0 <= d < |t.pcs| ensures KeyOf(t, d) == KeyOf(s, d) {}
    if e.Some? { UnrelatedEvent(s.events, e.value, k); }
  }

  lemma UnrelatedEvent(events: seq<Event>, f: Event, k: Key)
    requires AllSpaced(events, k) && (f.MintStarted? ==> f.key != k)
    ensures AllSpaced(events + [f], k)
  {
    SpacedAppend(events, f, k);
  }

  /** A mint for `k` can start only when Redis had no live entry for the second read: every earlier window is over. */
  lemma MintStartInv(s: State, k: Key, c: nat)
    requires WindowInv(s, k) && Enabled(s, RereadCache(c, Answered)) && KeyOf(s, c) == k && Found(s.pcs[c]).None?
    ensures WindowInv(Apply(s, RereadCache(c, Answered)), k)
  {
    StepLockInv(s, RereadCache(c, Answered));
    RawNotEmpty(s, k, c);
    assert InFlight(s.pcs[c]) && !Live(s, k);
    var e := MintStartMoves(s, c);
    WindowsOver(s, k, e);
    hide Apply, LockInv, WindowInv, GenerateCacheKey, Live, Spaced, CanReturn;
    StartInv(s, Apply(s, RereadCache(c, Answered)), k, c, e);
  }

  lemma WindowsOver(s: State, k: Key, e: Event)
    requires WindowInv(s, k) && !Live(s, k) && e.MintStarted? && e.at == s.now
    ensures forall i | 0 <= i < |s.events| :: Spaced(s.events[i], e, k)
  {
    forall i | 0 <= i < |s.events| ensures Spaced(s.events[i], e, k) {
      assert WriteCovers(s, s.events[i], k);
    }
  }

  lemma MintStartMoves(s: State, c: nat) returns (e: Event)
    requires Enabled(s, RereadCache(c, Answered)) && Found(s.pcs[c]).None?
    ensures var t := Apply(s, RereadCache(c, Answered));
            && Moves(s, t, c, Some(e)) && t.pcs[c].Minting? && e.MintStarted? && e.key == KeyOf(s, c) && e.at == s.now
  {
    hide GenerateCacheKey;
    var answer := s.pcs[c].answer;
    e := MintStarted(KeyOf(s, c), s.now, if answer.Some? then answer.value.seen else |s.events|);
  }

  lemma StartInv(s: State, t: State, k: Key, c: nat, e: Event)
    requires WindowInv(s, k) && LockInv(t) && Moves(s, t, c, Some(e)) && t.pcs[c].Minting?
    requires e.MintStarted? && c < |s.requests| && KeyOf(s, c) == k && !Live(s, k)
    requires forall i | 0 <= i < |s.events| :: Spaced(s.events[i], e, k)
    ensures WindowInv(t, k)
  {
    assert |s.pcs| == |s.requests|;
    SpacedAppend(s.events, e, k);
    assert forall f :: WriteCovers(s, f, k) ==> WriteCovers(t, f, k);
    assert WriteCovers(t, e, k);
    hide LockInv, GenerateCacheKey, AllSpaced, WriteCovers;
    forall d | 0 <= d < |t.pcs| ensures KeyOf(t, d) == KeyOf(s, d) {}
    assert Live(t, k) == Live(s, k);
    hide Live;
  }

  /** Whoever writes for `k` under the lock is the only one in flight for it. */
  lemma WriterIsAlone(s: State, k: Key, c: nat, d: nat)
    requires WindowInv(s, k) && c < |s.pcs| && d < |s.pcs| && KeyOf(s, c) == k && KeyOf(s, d) == k
    requires s.pcs[c].Writing? && InFlight(s.pcs[d])
    ensures c == d
  {
    RawNotEmpty(s, k, c);
    RawNotEmpty(s, k, d);
    WindowHasLocks(s, k);
    hide WindowInv, LockInv;
    SameLockPerKey(s, c, d);
  }

  lemma LandCovers(s: State, k: Key, c: nat)
    requires WindowInv(s, k) && Enabled(s, Land(c)) && KeyOf(s, c) == k
    ensures var t := Apply(s, Land(c)); forall i | 0 <= i < |t.events| :: WriteCovers(t, t.events[i], k)
  {
    hide LockInv, GenerateCacheKey, AllSpaced;
    var t := Apply(s, Land(c));
    assert !Live(s, k);
    forall i | 0 <= i < |t.events| ensures WriteCovers(t, t.events[i], k) {
      if i < |s.events| { assert WriteCovers(s, s.events[i], k); }
    }
  }

  /** A write for `k` lands only while nobody else is in flight for it. */
  lemma LandInv(s: State, k: Key, c: nat)
    requires WindowInv(s, k) && Enabled(s, Land(c)) && KeyOf(s, c) == k
    ensures WindowInv(Apply(s, Land(c)), k)
  {
    var t := Apply(s, Land(c));
    StepLockInv(s, Land(c));
    LandCovers(s, k, c);
    UnrelatedEvent(s.events, CacheWritten(k, s.now, s.pcs[c].ttl), k);
    hide LockInv, GenerateCacheKey, AllSpaced, WriteCovers;
    forall d | 0 <= d < |t.pcs| ensures KeyOf(t, d) == KeyOf(s, d) {}
    forall d | 0 <= d < |t.pcs| && KeyOf(t, d) == k ensures !InFlight(t.pcs[d]) {
      if InFlight(s.pcs[d]) { WriterIsAlone(s, k, c, d); }
    }
  }

  predicate LandsElsewhere(s: State, a: Action, k: Key) {
    Enabled(s, a) && ((a.Land? && KeyOf(s, a.c) != k) || (a.LateLand? && s.abandoned[a.i].key != k))
  }

  /** What a landing for another key leaves of the state of `k`. */
  lemma LandElsewhere(s: State, a: Action, k: Key) returns (e: Event)
    requires LandsElsewhere(s, a, k)
    ensures var t := Apply(s, a);
            && t.requests == s.requests && t.now == s.now && |t.pcs| == |s.pcs| && t.events == s.events + [e]
            && e.CacheWritten? && e.key != k && (k in t.cache <==> k in s.cache)
            && (k in s.cache ==> t.cache[k] == s.cache[k])
            && (forall d | 0 <= d < |s.pcs| && t.pcs[d] != s.pcs[d] :: KeyOf(s, d) != k)
  {
    hide GenerateCacheKey;
    e := if a.Land? then CacheWritten(KeyOf(s, a.c), s.now, s.pcs[a.c].ttl)
         else CacheWritten(s.abandoned[a.i].key, s.now, s.abandoned[a.i].ttl);
  }

  lemma OtherLandInv(s: State, a: Action, k: Key)
    requires WindowInv(s, k) && LandsElsewhere(s, a, k)
    ensures WindowInv(Apply(s, a), k)
  {
    var t := Apply(s, a);
    StepLockInv(s, a);
    var e := LandElsewhere(s, a, k);
    UnrelatedEvent(s.events, e, k);
    hide LockInv, GenerateCacheKey, AllSpaced, Apply, LandsElsewhere;
    forall d | 0 <= d < |t.pcs| ensures KeyOf(t, d) == KeyOf(s, d) {}
    forall i | 0 <= i < |t.events| ensures WriteCovers(t, t.events[i], k) {
      if i < |s.events| { assert WriteCovers(s, s.events[i], k); }
    }
  }

  /** Time passing, another key's eviction, a lock collected. */
  lemma EnvironmentInv(s: State, k: Key, a: Action)
    requires WindowInv(s, k) && Enabled(s, a) && (a.Tick? || a.CollectLock? || (a.Evict? && a.key != k))
    ensures WindowInv(Apply(s, a), k)
  {
    var t := Apply(s, a);
    StepLockInv(s, a);
    hide LockInv, GenerateCacheKey;
    forall d | 0 <= d < |t.pcs| ensures KeyOf(t, d) == KeyOf(s, d) {}
    forall i | 0 <= i < |t.events| ensures WriteCovers(t, t.events[i], k) {
      assert WriteCovers(s, s.events[i], k);
    }
  }

  /** What a coroutine's step other than a landing changes: its own position, and the log by one event at most. */
  predicate Moves(s: State, t: State, c: nat, e: Option<Event>) {
    && c < |s.pcs| == |t.pcs| && t.requests == s.requests && t.cache == s.cache && t.now == s.now
    && t.pcs == s.pcs[c := t.pcs[c]]
    && t.events == (if e.Some? then s.events + [e.value] else s.events)
  }

  lemma RereadMoves(s: State, c: nat, outcome: ReadOutcome) returns (e: Option<Event>)
    requires Enabled(s, RereadCache(c, outcome))
    ensures var t := Apply(s, RereadCache(c, outcome));
            && Moves(s, t, c, e) && !t.pcs[c].Writing? && !t.pcs[c].SecondRead?
            && (e.Some? ==> e.value.Served? || (e.value.MintStarted? && e.value.key == KeyOf(s, c)))
            && (t.pcs[c].Minting? || (e.Some? && e.value.MintStarted?) ==>
                  outcome.Failed? || (outcome.Answered? && Found(s.pcs[c]).None?))
  {
    hide GenerateCacheKey, CanReturn;
    var answer := s.pcs[c].answer;
    e := if outcome.TimedOut? then None
         else if outcome.Answered? && Found(s.pcs[c]).Some? then
           Some(Served(c, answer.value.found.value, answer.value.at, s.now))
         else Some(MintStarted(KeyOf(s, c), s.now, if answer.Some? then answer.value.seen else |s.events|));
  }

  lemma RereadInv(s: State, k: Key, c: nat, outcome: ReadOutcome)
    requires WindowInv(s, k) && Enabled(s, RereadCache(c, outcome)) && (KeyOf(s, c) == k ==> !outcome.Failed?)
    ensures WindowInv(Apply(s, RereadCache(c, outcome)), k)
  {
    hide GenerateCacheKey, Apply, LockInv, CanReturn;
    if KeyOf(s, c) == k && outcome.Answered? && Found(s.pcs[c]).None? {
      MintStartInv(s, k, c);
    } else {
      StepLockInv(s, RereadCache(c, outcome));
      var e := RereadMoves(s, c, outcome);
      hide WindowInv;
      MoveInv(s, Apply(s, RereadCache(c, outcome)), k, c, e);
    }
  }

  /** Redis answers a read; only a second read that finds nothing puts a request in flight. */
  lemma LookMoves(s: State, c: nat)
    requires Enabled(s, Look(c))
    ensures var t := Apply(s, Look(c));
            && Moves(s, t, c, None) && !t.pcs[c].Writing? && (InFlight(t.pcs[c]) ==> !Live(s, KeyOf(s, c)))
  {
    hide GenerateCacheKey, Live;
  }

  lemma LookInv(s: State, k: Key, c: nat)
    requires WindowInv(s, k) && Enabled(s, Look(c))
    ensures WindowInv(Apply(s, Look(c)), k)
  {
    hide GenerateCacheKey, WindowInv, LockInv, Apply;
    StepLockInv(s, Look(c)) by { WindowHasLocks(s, k); }
    LookMoves(s, c);
    MoveInv(s, Apply(s, Look(c)), k, c, None);
  }

  lemma RawNotEmpty(s: State, k: Key, c: nat)
    requires WindowInv(s, k) && c < |s.pcs| == |s.requests| && KeyOf(s, c) == k
    ensures s.requests[c].raw != "" && (s.pcs[c].Writing? ==> s.pcs[c].held.Some?)
  {
  }

  lemma VerifyMoves(s: State, c: nat, secret: Option<Secret>)
    requires Enabled(s, Verify(c, secret))
    ensures var t := Apply(s, Verify(c, secret));
            && Moves(s, t, c, None) && !t.pcs[c].Minting? && !t.pcs[c].SecondRead?
            && (t.pcs[c].Writing? ==> secret.Some? && secret.value.StoredKey?)
  {
    hide ValidateSecret, StoredTtl, GenerateCacheKey;
  }

  lemma VerifyInv(s: State, k: Key, c: nat, secret: Option<Secret>)
    requires WindowInv(s, k) && Enabled(s, Verify(c, secret))
    requires KeyOf(s, c) == k && secret.Some? ==> secret.value.MintSecret?
    ensures WindowInv(Apply(s, Verify(c, secret)), k)
  {
    hide GenerateCacheKey, WindowInv, LockInv, Apply;
    StepLockInv(s, Verify(c, secret)) by { WindowHasLocks(s, k); }
    VerifyMoves(s, c, secret);
    MoveInv(s, Apply(s, Verify(c, secret)), k, c, None);
  }

  lemma WindowHasLocks(s: State, k: Key)
    requires WindowInv(s, k)
    ensures LockInv(s)
  {
  }

  predicate MovesOn(a: Action) {
    a.ReadCache? || a.Acquire? || a.MintDone? || a.MintFailed? || a.WriteDone? || a.CancelTask?
  }

  lemma CoroutineMoves(s: State, a: Action) returns (e: Option<Event>)
    requires Enabled(s, a) && MovesOn(a)
    ensures var t := Apply(s, a);
            && Moves(s, t, a.c, e) && (e.Some? ==> e.value.Served?)
            && (InFlight(t.pcs[a.c]) ==> s.pcs[a.c].Minting?) && (t.pcs[a.c].Writing? ==> t.pcs[a.c].held.Some?)
  {
    hide CanReturn, EffectiveCacheTtl, GenerateCacheKey;
    e := if a.ReadCache? && a.outcome.Answered? && Found(s.pcs[a.c]).Some? then
           Some(Served(a.c, s.pcs[a.c].answer.value.found.value, s.pcs[a.c].answer.value.at, s.now)) else None;
  }

  lemma CoroutineInv(s: State, k: Key, a: Action)
    requires WindowInv(s, k) && Enabled(s, a) && MovesOn(a)
    ensures WindowInv(Apply(s, a), k)
  {
    hide GenerateCacheKey, WindowInv, LockInv, Apply;
    StepLockInv(s, a) by { WindowHasLocks(s, k); }
    var e := CoroutineMoves(s, a);
    MoveInv(s, Apply(s, a), k, a.c, e);
  }

  lemma StepWindowInv(s: State, k: Key, a: Action)
    requires WindowInv(s, k) && Enabled(s, a) && Undisturbed(s, a, k)
    ensures WindowInv(Apply(s, a), k)
  {
    hide WindowInv, Apply;
    match a
    case Look(c) => LookInv(s, k, c);
    case RereadCache(c, outcome) => RereadInv(s, k, c, outcome);
    case Verify(c, secret) => VerifyInv(s, k, c, secret);
    case Land(c) => if KeyOf(s, c) == k { LandInv(s, k, c); } else { OtherLandInv(s, a, k); }
    case LateLand(_) => OtherLandInv(s, a, k);
    case Tick(_) => EnvironmentInv(s, k, a);
    case Evict(_) => EnvironmentInv(s, k, a);
    case CollectLock(_) => EnvironmentInv(s, k, a);
    case _ => CoroutineInv(s, k, a);
  }

  lemma {:induction false} RunWindowInv(s: State, acts: seq<Action>, t: State, k: Key)
    requires WindowInv(s, k) && IsUndisturbedRun(s, acts, t, k)
    ensures WindowInv(t, k)
    decreases |acts|
  {
    hide WindowInv;
    if acts != [] {
      StepWindowInv(s, k, acts[0]);
      RunWindowInv(Apply(s, acts[0]), acts[1..], t, k);
    }
  }

  /**
   Once a write for `k` has landed at time t with TTL d, no later mint for `k` starts before t + d, for any number of
   coroutines and any interleaving with cancellations and failed mints.
   */
  lemma OneMintPerWindow(requests: seq<Request>, cacheDuration: nat, acts: seq<Action>, s: State, k: Key, i: nat, j: nat)
    requires forall c | 0 <= c < |requests| && GenerateCacheKey(requests[c].raw, requests[c].target) == k ::
               requests[c].raw != ""
    requires IsUndisturbedRun(Init(requests, cacheDuration), acts, s, k)
    requires i < j < |s.events| && s.events[i].CacheWritten? && s.events[i].key == k
    requires s.events[j].MintStarted? && s.events[j].key == k
    ensures s.events[j].at >= s.events[i].at + s.events[i].ttl as real
  {
    RunWindowInv(Init(requests, cacheDuration), acts, s, k);
    assert Spaced(s.events[i], s.events[j], k);
  }

  /**
   Inside the window Redis answers whoever holds the lock with the entry, and when that answer is used the waiter mints
   again exactly if its read fails.
   */
  lemma WaiterIsServed(s: State, k: Key, c: nat, i: nat, u: State, outcome: ReadOutcome)
    requires WindowInv(s, k) && Enabled(s, Look(c)) && KeyOf(s, c) == k && s.pcs[c].SecondRead?
    requires i < |s.events| && s.events[i].CacheWritten? && s.events[i].key == k
    requires s.now < s.events[i].at + s.events[i].ttl as real
    requires Enabled(u, RereadCache(c, outcome)) && u.pcs[c] == Apply(s, Look(c)).pcs[c]
    ensures Live(s, k)
    ensures var t := Apply(u, RereadCache(c, outcome));
            && (t.pcs[c].Minting? <==> outcome.Failed?)
            && (outcome.Answered? ==>
                  t.pcs[c] == Returned(s.cache[k].grant) && t.events == u.events + [Served(c, s.cache[k], s.now, u.now)])
  {
    assert WriteCovers(s, s.events[i], k);
    RawNotEmpty(s, k, c);
  }
}
