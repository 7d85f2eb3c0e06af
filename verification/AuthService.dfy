/**
 Authentication with a TTL cache and single-flight minting. Any number of coroutines interleave at their awaits: each
 action is the code of one coroutine from one await to the next, an answer from Redis, STS or a provider, the collection of
 an unreferenced lock from the weak map, or the passage of time. `AuthService` is the object that performs them.
 */
module AuthService {
  import opened Text
  import opened CacheKey
  import opened CacheTtl
  import opened SecretValidation

  /** `raw` is the payload as sent; `expiration` is that of the credentials inside it, normally absent. */
  datatype Request = Request(raw: string, target: Option<string>, expiration: Option<real>)

  /**
   A result, the secret it came from and the request whose credentials were verified for it. A minted token has the expiry
   its minting reported, `expiresAt`; `providerUntil` is when the provider really stops accepting it.
   */
  datatype Grant = Grant(
    apiKey: string, secret: Secret, requester: nat, expiresAt: Option<real>, providerUntil: Option<real>)

  /** `delay` is the time from the start of the write to its landing. */
  datatype Entry = Entry(grant: Grant, until: real, delay: real)

  /** A write whose client gave up before it landed; Redis may still perform it, at any time. */
  datatype Abandoned = Abandoned(key: Key, grant: Grant, ttl: int, since: real)

  /**
   What Redis answered a read with, when, and how many events there were by then; the answer takes its time to arrive.
   */
  datatype Answer = Answer(found: Option<Entry>, at: real, seen: nat)

  /** Where a coroutine is waiting. A write under the mint lock has `held.Some?`; a stored key's write takes no lock. */
  datatype Pc =
    | FirstRead(answer: Option<Answer>)
    | Verifying
    | AwaitingLock(lock: nat, secret: Secret)
    | SecondRead(lock: nat, secret: Secret, answer: Option<Answer>)
    | Minting(lock: nat, secret: Secret)
    | Writing(held: Option<nat>, grant: Grant, ttl: int, since: real, landed: bool)
    | Returned(grant: Grant)
    | Raised

  datatype Event =
    | MintStarted(key: Key, at: real, seen: nat)
    | CacheWritten(key: Key, at: real, ttl: int)
    | Served(coroutine: nat, entry: Entry, answered: real, at: real)

  datatype State = State(
    requests: seq<Request>, cacheDuration: nat, pcs: seq<Pc>, cache: map<Key, Entry>,
    locks: map<Key, nat>, owners: map<nat, nat>, nextLock: nat, now: real, abandoned: seq<Abandoned>,
    events: seq<Event>)

  datatype ReadOutcome = Answered | Failed | TimedOut

  datatype Action =
    | Look(c: nat)                                 // Redis performs a read
    | ReadCache(c: nat, outcome: ReadOutcome)
    | Verify(c: nat, secret: Option<Secret>)       // STS and Secrets Manager answered, or failed
    | Acquire(c: nat)
    | RereadCache(c: nat, outcome: ReadOutcome)
    | MintDone(c: nat, token: string, expiresAt: real, providerUntil: real)
    | MintFailed(c: nat)
    | Land(c: nat)                                 // Redis performs the write in time
    | WriteDone(c: nat)                            // the write returned, failed, timed out or was skipped
    | LateLand(i: nat)                             // Redis performs an abandoned write
    | CancelTask(c: nat)
    | CollectLock(key: Key)                        // the weak map drops a lock nobody refers to
    | Evict(key: Key)                              // invalidation or flush
    | Tick(dt: real)

  function Init(requests: seq<Request>, cacheDuration: nat): State {
    State(requests, cacheDuration, seq(|requests|, _ => FirstRead(None)), map[], map[], map[], 0, 0.0, [], [])
  }

  // ---- parts of a state ----

  /** The lock a coroutine's frame refers to, and the one it has acquired. */
  function LockOf(pc: Pc): Option<nat> {
    match pc
    case AwaitingLock(l, _) => Some(l)
    case SecondRead(l, _, _) => Some(l)
    case Minting(l, _) => Some(l)
    case Writing(held, _, _, _, _) => held
    case _ => None
  }

  function HeldBy(pc: Pc): Option<nat> {
    if pc.AwaitingLock? then None else LockOf(pc)
  }

  function KeyAt(requests: seq<Request>, c: nat): Key
    requires c < |requests|
  {
    GenerateCacheKey(requests[c].raw, requests[c].target)
  }

  function KeyOf(s: State, c: nat): Key
    requires c < |s.requests|
  {
    KeyAt(s.requests, c)
  }

  predicate Live(s: State, k: Key) {
    k in s.cache && s.now < s.cache[k].until
  }

  /** An empty payload is never looked up. */
  function Lookup(s: State, c: nat): Option<Entry>
    requires c < |s.requests|
  {
    if s.requests[c].raw != "" && Live(s, KeyOf(s, c)) then Some(s.cache[KeyOf(s, c)]) else None
  }

  predicate SameService(s: State, t: State) {
    t.requests == s.requests && t.cacheDuration == s.cacheDuration
  }

  function Log(s: State, e: Event): (t: State)
    ensures SameService(s, t)
  {
    s.(events := s.events + [e])
  }

  function Goto(s: State, c: nat, pc: Pc): (t: State)
    requires c < |s.pcs|
    ensures SameService(s, t)
  {
    s.(pcs := s.pcs[c := pc])
  }

  /** Leave the `async with` block, if inside it. */
  function Leave(s: State, c: nat, pc: Pc): (t: State)
    requires c < |s.pcs|
    ensures SameService(s, t)
  {
    var held := HeldBy(s.pcs[c]);
    Goto(if held.Some? then s.(owners := s.owners - {held.value}) else s, c, pc)
  }

  /** Nothing is written for an empty payload or an empty key. */
  function BeginWrite(s: State, c: nat, held: Option<nat>, grant: Grant, ttl: int): (t: State)
    requires c < |s.pcs| && |s.pcs| == |s.requests|
    ensures SameService(s, t)
  {
    if s.requests[c].raw == "" || grant.apiKey == "" then Leave(s, c, Returned(grant))
    else Goto(s, c, Writing(held, grant, ttl, s.now, false))
  }

  /** What a coroutine that stops waiting for its write leaves on the wire. */
  function Abandon(s: State, c: nat): (t: State)
    requires c < |s.pcs| && |s.pcs| == |s.requests|
    ensures SameService(s, t) && t == s.(abandoned := t.abandoned)
  {
    var pc := s.pcs[c];
    if pc.Writing? && !pc.landed && pc.ttl > 0 then
      s.(abandoned := s.abandoned + [Abandoned(KeyOf(s, c), pc.grant, pc.ttl, pc.since)])
    else s
  }

  predicate Reads(pc: Pc) { pc.FirstRead? || pc.SecondRead? }

  /** A read that Redis has not answered yet. */
  predicate AwaitsRedis(s: State, c: nat) {
    c < |s.pcs| == |s.requests| && Reads(s.pcs[c]) && s.pcs[c].answer.None? && s.requests[c].raw != ""
  }

  /** An empty payload is not looked up; otherwise a read returns what Redis answered, within its timeout, or fails. */
  predicate CanReturn(s: State, c: nat, outcome: ReadOutcome)
    requires c < |s.pcs| == |s.requests| && Reads(s.pcs[c])
  {
    if s.requests[c].raw == "" then outcome.Answered? && s.pcs[c].answer.None?
    else outcome.Answered? ==>
           s.pcs[c].answer.Some? && s.now <= s.pcs[c].answer.value.at + READ_TIMEOUT_SECONDS
  }

  function Found(pc: Pc): Option<Entry>
    requires Reads(pc)
  {
    if pc.answer.None? then None else pc.answer.value.found
  }

  function WithAnswer(s: State, c: nat, answer: Answer): State
    requires c < |s.pcs| && Reads(s.pcs[c])
  {
    Goto(s, c, s.pcs[c].(answer := Some(answer)))
  }

  /** A cached result answers the request, which leaves the lock if it holds it. */
  function Serve(s: State, c: nat): (t: State)
    requires c < |s.pcs| && Reads(s.pcs[c]) && Found(s.pcs[c]).Some?
    ensures SameService(s, t)
  {
    var answer := s.pcs[c].answer.value;
    var entry := answer.found.value;
    Log(Leave(s, c, Returned(entry.grant)), Served(c, entry, answer.at, s.now))
  }

  function StartMint(s: State, c: nat): (t: State)
    requires c < |s.pcs| == |s.requests| && s.pcs[c].SecondRead?
    ensures SameService(s, t)
  {
    var answer := s.pcs[c].answer;
    Log(Goto(s, c, Minting(s.pcs[c].lock, s.pcs[c].secret)),
        MintStarted(KeyOf(s, c), s.now, if answer.Some? then answer.value.seen else |s.events|))
  }

  /** `SETEX` */
  function Store(s: State, key: Key, grant: Grant, ttl: int, since: real): (t: State)
    ensures SameService(s, t)
  {
    Log(s.(cache := s.cache[key := Entry(grant, s.now + ttl as real, s.now - since)]), CacheWritten(key, s.now, ttl))
  }

  /** `_mint_lock`: the lock in the map, or a new one put there. */
  function TakeMintLock(s: State, c: nat, secret: Secret): (t: State)
    requires c < |s.pcs| && |s.pcs| == |s.requests|
    ensures SameService(s, t)
  {
    var k := KeyOf(s, c);
    if k in s.locks then Goto(s, c, AwaitingLock(s.locks[k], secret))
    else Goto(s, c, AwaitingLock(s.nextLock, secret)).(locks := s.locks[k := s.nextLock], nextLock := s.nextLock + 1)
  }

  function StoredTtl(s: State, c: nat): int
    requires c < |s.requests|
  {
    StoredKeyTtl(s.cacheDuration, s.requests[c].expiration, s.now)
  }

  // ---- steps ----

  predicate Enabled(s: State, a: Action) {
    |s.pcs| == |s.requests| &&
    match a
    case Look(c) => AwaitsRedis(s, c)
    case ReadCache(c, outcome) => c < |s.pcs| && s.pcs[c].FirstRead? && CanReturn(s, c, outcome)
    case Verify(c, _) => c < |s.pcs| && s.pcs[c].Verifying?
    case Acquire(c) => c < |s.pcs| && s.pcs[c].AwaitingLock? && s.pcs[c].lock !in s.owners
    case RereadCache(c, outcome) => c < |s.pcs| && s.pcs[c].SecondRead? && CanReturn(s, c, outcome)
    case MintDone(c, token, expiresAt, providerUntil) =>
      c < |s.pcs| && s.pcs[c].Minting? && token != "" && expiresAt <= providerUntil
    case MintFailed(c) => c < |s.pcs| && s.pcs[c].Minting?
    case Land(c) =>
      && c < |s.pcs| && s.pcs[c].Writing? && !s.pcs[c].landed && s.pcs[c].ttl > 0
      && s.now <= s.pcs[c].since + WRITE_TIMEOUT_SECONDS
    case WriteDone(c) => c < |s.pcs| && s.pcs[c].Writing?
    case LateLand(i) => i < |s.abandoned|
    case CancelTask(c) => c < |s.pcs| && !s.pcs[c].Returned? && !s.pcs[c].Raised?
    case CollectLock(k) => k in s.locks && forall c | 0 <= c < |s.pcs| :: LockOf(s.pcs[c]) != Some(s.locks[k])
    case Evict(_) => true
    case Tick(dt) => dt >= 0.0
  }

  function Apply(s: State, a: Action): State
    requires Enabled(s, a)
  {
    match a
    case Look(c) => WithAnswer(s, c, Answer(Lookup(s, c), s.now, |s.events|))
    case ReadCache(c, outcome) =>
      if outcome.TimedOut? then Goto(s, c, Raised)
      else if outcome.Answered? && Found(s.pcs[c]).Some? then Serve(s, c)
      else Goto(s, c, Verifying)
    case Verify(c, secret) =>
      if secret.None? || ValidateSecret(secret.value, s.requests[c].target).Rejected? then Goto(s, c, Raised)
      else if secret.value.MintSecret? then TakeMintLock(s, c, secret.value)
      else BeginWrite(s, c, None, Grant(secret.value.apiKey, secret.value, c, None, None), StoredTtl(s, c))
    case Acquire(c) =>
      Goto(s, c, SecondRead(s.pcs[c].lock, s.pcs[c].secret, None)).(owners := s.owners[s.pcs[c].lock := c])
    case RereadCache(c, outcome) =>
      if outcome.TimedOut? then Leave(s, c, Raised)
      else if outcome.Answered? && Found(s.pcs[c]).Some? then Serve(s, c)
      else StartMint(s, c)
    case MintDone(c, token, expiresAt, providerUntil) =>
      BeginWrite(s, c, Some(s.pcs[c].lock), Grant(token, s.pcs[c].secret, c, Some(expiresAt), Some(providerUntil)),
                 EffectiveCacheTtl(s.cacheDuration, expiresAt, s.now))
    case MintFailed(c) => Leave(s, c, Raised)
    case Land(c) =>
      var pc := s.pcs[c];
      Store(Goto(s, c, pc.(landed := true)), KeyOf(s, c), pc.grant, pc.ttl, pc.since)
    case WriteDone(c) => Leave(Abandon(s, c), c, Returned(s.pcs[c].grant))
    case LateLand(i) =>
      var w := s.abandoned[i];
      Store(s.(abandoned := s.abandoned[..i] + s.abandoned[i + 1..]), w.key, w.grant, w.ttl, w.since)
    case CancelTask(c) => Leave(Abandon(s, c), c, Raised)
    case CollectLock(k) => s.(locks := s.locks - {k})
    case Evict(k) => s.(cache := s.cache - {k})
    case Tick(dt) => s.(now := s.now + dt)
  }

  ghost predicate IsRun(s: State, acts: seq<Action>, t: State)
    decreases |acts|
  {
    if acts == [] then s == t else Enabled(s, acts[0]) && IsRun(Apply(s, acts[0]), acts[1..], t)
  }

  /** The end of some run from the initial state. */
  ghost predicate Reachable(s: State) {
    exists acts :: IsRun(Init(s.requests, s.cacheDuration), acts, s)
  }

  lemma {:induction false} RunSnoc(s: State, acts: seq<Action>, t: State, a: Action)
    requires IsRun(s, acts, t) && Enabled(t, a)
    ensures IsRun(s, acts + [a], Apply(t, a))
    decreases |acts|
  {
    hide Enabled, Apply;
    if acts == [] {
      assert [a][1..] == [] && [] + [a] == [a];
      assert IsRun(Apply(t, a), [], Apply(t, a));
    } else {
      RunSnoc(Apply(s, acts[0]), acts[1..], t, a);
      assert (acts + [a])[1..] == acts[1..] + [a];
    }
  }

  lemma StepKeepsService(s: State, a: Action)
    requires Enabled(s, a)
    ensures SameService(s, Apply(s, a))
  {
    hide Enabled, Lookup, ValidateSecret, StoredTtl, KeyOf, EffectiveCacheTtl;
    hide Log, Goto, Leave, BeginWrite, Abandon, Store, TakeMintLock;
  }

  lemma {:induction false} RunKeepsService(s: State, acts: seq<Action>, t: State)
    requires IsRun(s, acts, t)
    ensures SameService(s, t)
    decreases |acts|
  {
    hide Enabled, Apply;
    if acts != [] {
      StepKeepsService(s, acts[0]);
      RunKeepsService(Apply(s, acts[0]), acts[1..], t);
    }
  }

  lemma ReachableInit(requests: seq<Request>, cacheDuration: nat)
    ensures Reachable(Init(requests, cacheDuration))
  {
    assert IsRun(Init(requests, cacheDuration), [], Init(requests, cacheDuration));
  }

  lemma ReachableStep(s: State, a: Action)
    requires Reachable(s) && Enabled(s, a)
    ensures Reachable(Apply(s, a))
  {
    var acts :| IsRun(Init(s.requests, s.cacheDuration), acts, s);
    StepKeepsService(s, a);
    hide Enabled, Apply, IsRun;
    RunSnoc(Init(s.requests, s.cacheDuration), acts, s, a);
  }

  // ---- the object ----

  /**
   One method per action; each says whether it could happen. A valid object is the end of a run, so a history of calls on
   it is one, and every property of reachable states holds of it.
   */
  class AuthService {
    const requests: seq<Request>
    const cacheDuration: nat
    var pcs: seq<Pc>
    var cache: map<Key, Entry>
    var mintLocks: map<Key, nat>
    var owners: map<nat, nat>
    var nextLock: nat
    var now: real
    ghost var abandoned: seq<Abandoned>
    var events: seq<Event>

    ghost function View(): State
      reads this
    {
      State(requests, cacheDuration, pcs, cache, mintLocks, owners, nextLock, now, abandoned, events)
    }

    predicate Shaped()
      reads this
    {
      |pcs| == |requests|
    }

    ghost predicate Valid()
      reads this
    {
      Shaped() && Reachable(View())
    }

    constructor (requests: seq<Request>, cacheDuration: nat)
      ensures Valid() && View() == Init(requests, cacheDuration)
    {
      this.requests, this.cacheDuration := requests, cacheDuration;
      pcs := seq(|requests|, _ => FirstRead(None));
      cache, mintLocks, owners, nextLock, now, abandoned, events := map[], map[], map[], 0, 0.0, [], [];
      new;
      ReachableInit(requests, cacheDuration);
    }

    method GetCachedAuthResult(c: nat) returns (result: Option<Entry>)
      requires Shaped() && c < |pcs|
      ensures result == Lookup(View(), c)
    {
      if requests[c].raw == "" { return None; }
      var key := GenerateCacheKey(requests[c].raw, requests[c].target);
      if key in cache && now < cache[key].until {
        result := Some(cache[key]);
      } else {
        result := None;
      }
    }

    /** Leave the `async with` block if inside it, then move to `pc`. */
    method Exit(c: nat, pc: Pc)
      requires Shaped() && c < |pcs|
      modifies this
      ensures Shaped() && View() == Leave(old(View()), c, pc)
    {
      var held := HeldBy(pcs[c]);
      if held.Some? { owners := owners - {held.value}; }
      pcs := pcs[c := pc];
    }

    /** Redis performs a read. */
    method OnRedisAnswered(c: nat) returns (ran: bool)
      requires Valid()
      modifies this
      ensures Valid() && ran == Enabled(old(View()), Look(c))
      ensures View() == if ran then Apply(old(View()), Look(c)) else old(View())
    {
      hide Reachable;
      ran := c < |pcs| && Reads(pcs[c]) && pcs[c].answer.None? && requests[c].raw != "";
      if ran {
        var found := GetCachedAuthResult(c);
        RecordAnswer(c, found);
      }
      if ran { ReachableStep(old(View()), Look(c)); }
    }

    method RecordAnswer(c: nat, found: Option<Entry>)
      requires Shaped() && c < |pcs| && Reads(pcs[c])
      modifies this`pcs
      ensures View() == WithAnswer(old(View()), c, Answer(found, now, |events|))
    {
      pcs := pcs[c := pcs[c].(answer := Some(Answer(found, now, |events|)))];
    }

    /** The cached result, if the read returned one, answers the request. */
    method ServeFromCache(c: nat) returns (hit: bool)
      requires Shaped() && c < |pcs| && Reads(pcs[c])
      modifies this
      ensures Shaped() && hit == Found(old(View()).pcs[c]).Some?
      ensures View() == if hit then Serve(old(View()), c) else old(View())
    {
      hit := Found(pcs[c]).Some?;
      if hit {
        var answer := pcs[c].answer.value;
        var entry := answer.found.value;
        Exit(c, Returned(entry.grant));
        events := events + [Served(c, entry, answer.at, now)];
      }
    }

    predicate MayReturn(c: nat, outcome: ReadOutcome)
      requires Shaped() && c < |pcs| && Reads(pcs[c])
      reads this
    {
      if requests[c].raw == "" then outcome.Answered? && pcs[c].answer.None?
      else outcome.Answered? ==> pcs[c].answer.Some? && now <= pcs[c].answer.value.at + READ_TIMEOUT_SECONDS
    }

    method ReadFirst(c: nat, outcome: ReadOutcome) returns (ran: bool)
      requires Valid()
      modifies this
      ensures Valid() && ran == Enabled(old(View()), ReadCache(c, outcome))
      ensures View() == if ran then Apply(old(View()), ReadCache(c, outcome)) else old(View())
    {
      hide Reachable;
      ran := c < |pcs| && pcs[c].FirstRead? && MayReturn(c, outcome);
      if ran {
        if outcome.TimedOut? {
          pcs := pcs[c := Raised];
        } else {
          var hit := false;
          if outcome.Answered? { hit := ServeFromCache(c); }
          if !hit { pcs := pcs[c := Verifying]; }
        }
      }
      if ran { ReachableStep(old(View()), ReadCache(c, outcome)); }
    }

    method GetMintLock(key: Key) returns (lock: nat)
      modifies this`mintLocks, this`nextLock
      ensures key in mintLocks && mintLocks[key] == lock
      ensures key in old(mintLocks) ==> mintLocks == old(mintLocks) && nextLock == old(nextLock)
      ensures key !in old(mintLocks) ==>
                mintLocks == old(mintLocks)[key := old(nextLock)] && nextLock == old(nextLock) + 1
    {
      if key in mintLocks {
        lock := mintLocks[key];
      } else {
        lock := nextLock;
        mintLocks, nextLock := mintLocks[key := lock], nextLock + 1;
      }
    }

    method StartWrite(c: nat, held: Option<nat>, grant: Grant, ttl: int)
      requires Shaped() && c < |pcs|
      modifies this
      ensures Shaped() && View() == BeginWrite(old(View()), c, held, grant, ttl)
    {
      if requests[c].raw == "" || grant.apiKey == "" {
        Exit(c, Returned(grant));
      } else {
        pcs := pcs[c := Writing(held, grant, ttl, now, false)];
      }
    }

    method OnVerified(c: nat, secret: Option<Secret>) returns (ran: bool)
      requires Valid()
      modifies this
      ensures Valid() && ran == Enabled(old(View()), Verify(c, secret))
      ensures View() == if ran then Apply(old(View()), Verify(c, secret)) else old(View())
    {
      hide Reachable;
      ran := c < |pcs| && pcs[c].Verifying?;
      if ran {
        if secret.None? || ValidateSecret(secret.value, requests[c].target).Rejected? {
          pcs := pcs[c := Raised];
        } else if secret.value.MintSecret? {
          var lock := GetMintLock(GenerateCacheKey(requests[c].raw, requests[c].target));
          pcs := pcs[c := AwaitingLock(lock, secret.value)];
        } else {
          var ttl := SecondsUntilExpiration(requests[c].expiration, now);
          StartWrite(c, None, Grant(secret.value.apiKey, secret.value, c, None, None),
                     if ttl.Some? then ttl.value else cacheDuration);
        }
      }
      if ran { ReachableStep(old(View()), Verify(c, secret)); }
    }

    method OnLockFree(c: nat) returns (ran: bool)
      requires Valid()
      modifies this
      ensures Valid() && ran == Enabled(old(View()), Acquire(c))
      ensures View() == if ran then Apply(old(View()), Acquire(c)) else old(View())
    {
      hide Reachable;
      ran := c < |pcs| && pcs[c].AwaitingLock? && pcs[c].lock !in owners;
      if ran {
        owners := owners[pcs[c].lock := c];
        pcs := pcs[c := SecondRead(pcs[c].lock, pcs[c].secret, None)];
      }
      if ran { ReachableStep(old(View()), Acquire(c)); }
    }

    method ReadAgain(c: nat, outcome: ReadOutcome) returns (ran: bool)
      requires Valid()
      modifies this
      ensures Valid() && ran == Enabled(old(View()), RereadCache(c, outcome))
      ensures View() == if ran then Apply(old(View()), RereadCache(c, outcome)) else old(View())
    {
      hide Reachable;
      ran := c < |pcs| && pcs[c].SecondRead? && MayReturn(c, outcome);
      if ran {
        if outcome.TimedOut? {
          Exit(c, Raised);
        } else {
          var hit := false;
          if outcome.Answered? { hit := ServeFromCache(c); }
          if !hit { BeginMint(c); }
        }
      }
      if ran { ReachableStep(old(View()), RereadCache(c, outcome)); }
    }

    method BeginMint(c: nat)
      requires Shaped() && c < |pcs| && pcs[c].SecondRead?
      modifies this
      ensures Shaped() && View() == StartMint(old(View()), c)
    {
      var answer := pcs[c].answer;
      events := events + [MintStarted(GenerateCacheKey(requests[c].raw, requests[c].target), now,
                                      if answer.Some? then answer.value.seen else |events|)];
      pcs := pcs[c := Minting(pcs[c].lock, pcs[c].secret)];
    }

    method OnMinted(c: nat, token: string, expiresAt: real, providerUntil: real) returns (ran: bool)
      requires Valid()
      modifies this
      ensures Valid() && ran == Enabled(old(View()), MintDone(c, token, expiresAt, providerUntil))
      ensures View() == if ran then Apply(old(View()), MintDone(c, token, expiresAt, providerUntil)) else old(View())
    {
      hide Reachable;
      ran := c < |pcs| && pcs[c].Minting? && token != "" && expiresAt <= providerUntil;
      if ran {
        var grant := Grant(token, pcs[c].secret, c, Some(expiresAt), Some(providerUntil));
        StartWrite(c, Some(pcs[c].lock), grant, EffectiveCacheTtl(cacheDuration, expiresAt, now));
      }
      if ran { ReachableStep(old(View()), MintDone(c, token, expiresAt, providerUntil)); }
    }

    method OnMintFailed(c: nat) returns (ran: bool)
      requires Valid()
      modifies this
      ensures Valid() && ran == Enabled(old(View()), MintFailed(c))
      ensures View() == if ran then Apply(old(View()), MintFailed(c)) else old(View())
    {
      hide Reachable;
      ran := c < |pcs| && pcs[c].Minting?;
      if ran { Exit(c, Raised); }
      if ran { ReachableStep(old(View()), MintFailed(c)); }
    }

    method SetEx(key: Key, grant: Grant, ttl: int, since: real)
      modifies this`cache, this`events
      ensures View() == Store(old(View()), key, grant, ttl, since)
    {
      cache := cache[key := Entry(grant, now + ttl as real, now - since)];
      events := events + [CacheWritten(key, now, ttl)];
    }

    /** `SETEX`, skipped for a TTL of zero or less. */
    method OnWriteLands(c: nat) returns (ran: bool)
      requires Valid()
      modifies this
      ensures Valid() && ran == Enabled(old(View()), Land(c))
      ensures View() == if ran then Apply(old(View()), Land(c)) else old(View())
    {
      hide Reachable;
      ran := c < |pcs| && pcs[c].Writing? && !pcs[c].landed && pcs[c].ttl > 0
             && now <= pcs[c].since + WRITE_TIMEOUT_SECONDS;
      if ran {
        var key := GenerateCacheKey(requests[c].raw, requests[c].target);
        SetEx(key, pcs[c].grant, pcs[c].ttl, pcs[c].since);
        pcs := pcs[c := pcs[c].(landed := true)];
      }
      if ran { ReachableStep(old(View()), Land(c)); }
    }

    /** A write that has not landed when its coroutine moves on may still be on the wire. */
    ghost method GiveUpWriting(c: nat)
      requires Shaped() && c < |pcs|
      modifies this`abandoned
      ensures View() == Abandon(old(View()), c)
    {
      var pc := pcs[c];
      if pc.Writing? && !pc.landed && pc.ttl > 0 {
        abandoned := abandoned
          + [Abandoned(GenerateCacheKey(requests[c].raw, requests[c].target), pc.grant, pc.ttl, pc.since)];
      }
    }

    method OnWriteDone(c: nat) returns (ran: bool)
      requires Valid()
      modifies this
      ensures Valid() && ran == Enabled(old(View()), WriteDone(c))
      ensures View() == if ran then Apply(old(View()), WriteDone(c)) else old(View())
    {
      hide Reachable;
      ran := c < |pcs| && pcs[c].Writing?;
      if ran {
        GiveUpWriting(c);
        Exit(c, Returned(pcs[c].grant));
      }
      if ran { ReachableStep(old(View()), WriteDone(c)); }
    }

    method OnCancelled(c: nat) returns (ran: bool)
      requires Valid()
      modifies this
      ensures Valid() && ran == Enabled(old(View()), CancelTask(c))
      ensures View() == if ran then Apply(old(View()), CancelTask(c)) else old(View())
    {
      hide Reachable;
      ran := c < |pcs| && !pcs[c].Returned? && !pcs[c].Raised?;
      if ran {
        GiveUpWriting(c);
        Exit(c, Raised);
      }
      if ran { ReachableStep(old(View()), CancelTask(c)); }
    }

    /** Redis performs a write nobody waits for any more. */
    method OnLateWrite(ghost i: nat, w: Abandoned)
      requires Valid() && i < |abandoned| && w == abandoned[i]
      modifies this
      ensures Valid() && Enabled(old(View()), LateLand(i)) && View() == Apply(old(View()), LateLand(i))
    {
      abandoned := abandoned[..i] + abandoned[i + 1..];
      SetEx(w.key, w.grant, w.ttl, w.since);
      ReachableStep(old(View()), LateLand(i));
    }

    method OnEvicted(key: Key)
      requires Valid()
      modifies this
      ensures Valid() && View() == Apply(old(View()), Evict(key))
    {
      cache := cache - {key};
      ReachableStep(old(View()), Evict(key));
    }

    method OnTick(dt: real)
      requires Valid() && dt >= 0.0
      modifies this
      ensures Valid() && View() == Apply(old(View()), Tick(dt))
    {
      now := now + dt;
      ReachableStep(old(View()), Tick(dt));
    }

    /** The weak map forgets a lock once no coroutine's frame refers to it. */
    method OnLockUnreferenced(key: Key) returns (ran: bool)
      requires Valid()
      modifies this
      ensures Valid() && ran == Enabled(old(View()), CollectLock(key))
      ensures View() == if ran then Apply(old(View()), CollectLock(key)) else old(View())
    {
      hide Reachable;
      ran := key in mintLocks && forall c | 0 <= c < |pcs| :: LockOf(pcs[c]) != Some(mintLocks[key]);
      if ran { mintLocks := mintLocks - {key}; }
      if ran { ReachableStep(old(View()), CollectLock(key)); }
    }
  }
}
