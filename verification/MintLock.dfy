/** The weak map of mint locks: one lock per key as long as anybody refers to it, and so one coroutine in the mint section. */
module MintLock {
  import opened Text
  import opened CacheKey
  import opened CacheTtl
  import opened SecretValidation
  import opened AuthService

  /**
   Whoever refers to a lock refers to the one in the map under its key, different keys have different locks, and the
   owners are exactly the coroutines inside the block.
   */
  ghost predicate LockInv(s: State) {
    && |s.pcs| == |s.requests|
    && (forall c | 0 <= c < |s.pcs| && LockOf(s.pcs[c]).Some? ::
          KeyOf(s, c) in s.locks && s.locks[KeyOf(s, c)] == LockOf(s.pcs[c]).value)
    && (forall k | k in s.locks :: s.locks[k] < s.nextLock)
    && (forall k1, k2 | k1 in s.locks && k2 in s.locks && s.locks[k1] == s.locks[k2] :: k1 == k2)
    && (forall c | 0 <= c < |s.pcs| && HeldBy(s.pcs[c]).Some? ::
          HeldBy(s.pcs[c]).value in s.owners && s.owners[HeldBy(s.pcs[c]).value] == c)
    && (forall l | l in s.owners :: s.owners[l] < |s.pcs| && HeldBy(s.pcs[s.owners[l]]) == Some(l))
  }

  /** A coroutine moves on with its lock, if any, as it was. */
  lemma GotoLockInv(s: State, t: State, c: nat)
    requires LockInv(s) && c < |s.pcs| && t.requests == s.requests
    requires t.locks == s.locks && t.owners == s.owners && t.nextLock == s.nextLock
    requires |t.pcs| == |s.pcs| && t.pcs == s.pcs[c := t.pcs[c]] && HeldBy(t.pcs[c]) == HeldBy(s.pcs[c])
    requires LockOf(t.pcs[c]).Some? ==> LockOf(t.pcs[c]) == LockOf(s.pcs[c])
    ensures LockInv(t)
  {
    hide GenerateCacheKey;
    forall d | 0 <= d < |t.pcs| ensures KeyOf(t, d) == KeyOf(s, d) {}
  }

  /** A coroutine leaves the block, releasing its lock if it holds one. */
  lemma LeaveLockInv(s: State, t: State, c: nat)
    requires LockInv(s) && c < |s.pcs| && t.requests == s.requests && t.locks == s.locks && t.nextLock == s.nextLock
    requires |t.pcs| == |s.pcs| && t.pcs == s.pcs[c := t.pcs[c]] && LockOf(t.pcs[c]).None?
    requires t.owners == if HeldBy(s.pcs[c]).Some? then s.owners - {HeldBy(s.pcs[c]).value} else s.owners
    ensures LockInv(t)
  {
    hide GenerateCacheKey;
    forall d | 0 <= d < |t.pcs| ensures KeyOf(t, d) == KeyOf(s, d) {}
  }

  lemma TakeMintLockInv(s: State, c: nat, secret: Secret)
    requires LockInv(s) && c < |s.pcs| && LockOf(s.pcs[c]).None?
    ensures LockInv(TakeMintLock(s, c, secret))
  {
    hide GenerateCacheKey;
    var t := TakeMintLock(s, c, secret);
    var k := KeyOf(s, c);
    if k !in s.locks {
      forall d | 0 <= d < |t.pcs| && LockOf(t.pcs[d]).Some?
        ensures KeyOf(t, d) in t.locks && t.locks[KeyOf(t, d)] == LockOf(t.pcs[d]).value
      {
        if d != c { assert KeyOf(s, d) in s.locks; }
      }
    }
  }

  lemma AcquireLockInv(s: State, c: nat)
    requires LockInv(s) && Enabled(s, Acquire(c))
    ensures LockInv(Apply(s, Acquire(c)))
  {
    hide GenerateCacheKey;
  }

  lemma CollectLockInv(s: State, k: Key)
    requires LockInv(s) && Enabled(s, CollectLock(k))
    ensures LockInv(Apply(s, CollectLock(k)))
  {
    hide GenerateCacheKey;
    var t := Apply(s, CollectLock(k));
    forall c | 0 <= c < |t.pcs| && LockOf(t.pcs[c]).Some?
      ensures KeyOf(t, c) in t.locks && t.locks[KeyOf(t, c)] == LockOf(t.pcs[c]).value
    {
      assert KeyOf(t, c) == KeyOf(s, c);
    }
  }

  lemma ReadLockInv(s: State, c: nat, outcome: ReadOutcome)
    requires LockInv(s) && Enabled(s, ReadCache(c, outcome))
    ensures LockInv(Apply(s, ReadCache(c, outcome)))
  {
    hide LockInv, Found, CanReturn, GenerateCacheKey;
    GotoLockInv(s, Apply(s, ReadCache(c, outcome)), c);
  }

  lemma LookLockInv(s: State, c: nat)
    requires LockInv(s) && Enabled(s, Look(c))
    ensures LockInv(Apply(s, Look(c)))
  {
    hide LockInv, Lookup, GenerateCacheKey;
    GotoLockInv(s, Apply(s, Look(c)), c);
  }

  lemma VerifyLockInv(s: State, c: nat, secret: Option<Secret>)
    requires LockInv(s) && Enabled(s, Verify(c, secret))
    ensures LockInv(Apply(s, Verify(c, secret)))
  {
    hide LockInv, ValidateSecret, StoredTtl, GenerateCacheKey;
    if secret.Some? && secret.value.MintSecret? && ValidateSecret(secret.value, s.requests[c].target).Ok? {
      TakeMintLockInv(s, c, secret.value);
    } else {
      GotoLockInv(s, Apply(s, Verify(c, secret)), c);
    }
  }

  lemma RereadLockInv(s: State, c: nat, outcome: ReadOutcome)
    requires LockInv(s) && Enabled(s, RereadCache(c, outcome))
    ensures LockInv(Apply(s, RereadCache(c, outcome)))
  {
    hide LockInv, Found, CanReturn, GenerateCacheKey;
    var t := Apply(s, RereadCache(c, outcome));
    if t.pcs[c].Minting? { GotoLockInv(s, t, c); } else { LeaveLockInv(s, t, c); }
  }

  lemma MintDoneLockInv(s: State, c: nat, token: string, expiresAt: real, providerUntil: real)
    requires LockInv(s) && Enabled(s, MintDone(c, token, expiresAt, providerUntil))
    ensures LockInv(Apply(s, MintDone(c, token, expiresAt, providerUntil)))
  {
    hide LockInv, EffectiveCacheTtl;
    var t := Apply(s, MintDone(c, token, expiresAt, providerUntil));
    if t.pcs[c].Writing? { GotoLockInv(s, t, c); } else { LeaveLockInv(s, t, c); }
  }

  lemma LandLockInv(s: State, c: nat)
    requires LockInv(s) && Enabled(s, Land(c))
    ensures LockInv(Apply(s, Land(c)))
  {
    hide LockInv, GenerateCacheKey;
    GotoLockInv(s, Apply(s, Land(c)), c);
  }

  lemma EndLockInv(s: State, a: Action)
    requires LockInv(s) && Enabled(s, a) && (a.MintFailed? || a.WriteDone? || a.CancelTask?)
    ensures LockInv(Apply(s, a))
  {
    hide LockInv, Abandon;
    LeaveLockInv(s, Apply(s, a), a.c);
  }

  lemma StepLockInv(s: State, a: Action)
    requires LockInv(s) && Enabled(s, a)
    ensures LockInv(Apply(s, a))
  {
    hide LockInv, Enabled;
    match a
    case Look(c) => LookLockInv(s, c);
    case ReadCache(c, outcome) => ReadLockInv(s, c, outcome);
    case Verify(c, secret) => VerifyLockInv(s, c, secret);
    case Acquire(c) => AcquireLockInv(s, c);
    case RereadCache(c, outcome) => RereadLockInv(s, c, outcome);
    case MintDone(c, token, expiresAt, providerUntil) => MintDoneLockInv(s, c, token, expiresAt, providerUntil);
    case MintFailed(c) => EndLockInv(s, a);
    case Land(c) => LandLockInv(s, c);
    case WriteDone(c) => EndLockInv(s, a);
    case CancelTask(c) => EndLockInv(s, a);
    case CollectLock(k) => CollectLockInv(s, k);
    case LateLand(_) => SameLocks(s, Apply(s, a));
    case Evict(_) => SameLocks(s, Apply(s, a));
    case Tick(_) => SameLocks(s, Apply(s, a));
  }

  lemma SameLocks(s: State, t: State)
    requires LockInv(s) && t == s.(cache := t.cache, now := t.now, abandoned := t.abandoned, events := t.events)
    ensures LockInv(t)
  {
    hide GenerateCacheKey;
    forall d | 0 <= d < |t.pcs| ensures KeyOf(t, d) == KeyOf(s, d) {}
  }

  lemma SameLockPerKey(s: State, c: nat, d: nat)
    requires LockInv(s) && c < |s.pcs| && d < |s.pcs| && KeyOf(s, c) == KeyOf(s, d)
    requires LockOf(s.pcs[c]).Some? && LockOf(s.pcs[d]).Some?
    ensures LockOf(s.pcs[c]) == LockOf(s.pcs[d])
    ensures HeldBy(s.pcs[c]).Some? && HeldBy(s.pcs[d]).Some? ==> c == d
  {
    hide GenerateCacheKey;
  }

  lemma {:induction false} RunLockInv(s: State, acts: seq<Action>, t: State)
    requires LockInv(s) && IsRun(s, acts, t)
    ensures LockInv(t)
    decreases |acts|
  {
    hide LockInv;
    if acts != [] {
      StepLockInv(s, acts[0]);
      RunLockInv(Apply(s, acts[0]), acts[1..], t);
    }
  }

  /**
   In every reachable state, cancellations included, all coroutines holding or waiting for the lock of one key refer to
   the same lock although the map is weak, and so no two are ever inside the mint section of that key.
   */
  lemma MutualExclusion(requests: seq<Request>, cacheDuration: nat, acts: seq<Action>, s: State, c: nat, d: nat)
    requires IsRun(Init(requests, cacheDuration), acts, s)
    requires c < |s.pcs| == |s.requests| && d < |s.pcs| && KeyOf(s, c) == KeyOf(s, d)
    ensures LockOf(s.pcs[c]).Some? && LockOf(s.pcs[d]).Some? ==> LockOf(s.pcs[c]) == LockOf(s.pcs[d])
    ensures HeldBy(s.pcs[c]).Some? && HeldBy(s.pcs[d]).Some? ==> c == d
  {
    RunLockInv(Init(requests, cacheDuration), acts, s);
    hide LockInv, IsRun;
    if LockOf(s.pcs[c]).Some? && LockOf(s.pcs[d]).Some? { SameLockPerKey(s, c, d); }
  }
}
