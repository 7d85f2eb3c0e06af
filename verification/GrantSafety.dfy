/** Over whole runs: for which request a result was authorised, and when a cached one can reach a request it must not. */
module GrantSafety {
  import opened Text
  import opened CacheKey
  import opened CacheTtl
  import opened SecretValidation
  import opened AuthService

  /** Some result of this request can be cached: minted tokens need a cache duration, stored keys that or an expiration. */
  predicate CanCache(requests: seq<Request>, cacheDuration: nat, d: nat)
    requires d < |requests|
  {
    cacheDuration > 0 || (requests[d].expiration.Some? && requests[d].expiration.value >= 1.0)
  }

  /** The grant was authorised for the request it names, and that request can cache it under `k`. */
  ghost predicate Origin(s: State, k: Key, grant: Grant) {
    var d := grant.requester;
    && d < |s.requests| && KeyAt(s.requests, d) == k && s.requests[d].raw != ""
    && CanCache(s.requests, s.cacheDuration, d) && HostAllows(grant.secret, s.requests[d].target)
  }

  ghost predicate Own(s: State, c: nat, grant: Grant)
    requires c < |s.requests|
  {
    grant.requester == c && HostAllows(grant.secret, s.requests[c].target)
  }

  /** What Redis answered a read with comes from the request's key. */
  ghost predicate AnswerOk(s: State, c: nat, answer: Option<Answer>)
    requires c < |s.requests|
  {
    answer.Some? && answer.value.found.Some? ==>
      s.requests[c].raw != "" && Origin(s, KeyAt(s.requests, c), answer.value.found.value.grant)
  }

  /** Carried secrets are allowed for their request; a returned grant is the request's own or comes from its key. */
  ghost predicate PcOk(s: State, c: nat)
    requires c < |s.pcs| == |s.requests|
  {
    match s.pcs[c]
    case AwaitingLock(_, secret) => HostAllows(secret, s.requests[c].target)
    case FirstRead(answer) => AnswerOk(s, c, answer)
    case SecondRead(_, secret, answer) => HostAllows(secret, s.requests[c].target) && AnswerOk(s, c, answer)
    case Minting(_, secret) => HostAllows(secret, s.requests[c].target)
    case Writing(_, grant, ttl, _, _) => Own(s, c, grant) && (ttl > 0 ==> Origin(s, KeyAt(s.requests, c), grant))
    case Returned(grant) =>
      Own(s, c, grant) || (s.requests[c].raw != "" && Origin(s, KeyAt(s.requests, c), grant))
    case _ => true
  }

  ghost predicate GrantInv(s: State) {
    && |s.pcs| == |s.requests| && s.now >= 0.0
    && (forall c | 0 <= c < |s.pcs| :: PcOk(s, c))
    && (forall k | k in s.cache :: Origin(s, k, s.cache[k].grant))
    && forall i | 0 <= i < |s.abandoned| :: Origin(s, s.abandoned[i].key, s.abandoned[i].grant)
  }

  // ---- every step ----

  lemma SamePcOk(s: State, t: State, c: nat)
    requires |s.pcs| == |s.requests| == |t.pcs| && SameService(s, t) && c < |s.pcs| && t.pcs[c] == s.pcs[c] && PcOk(s, c)
    ensures PcOk(t, c)
  {
    hide HostAllows, CanCache, KeyAt;
  }

  lemma SameOrigin(s: State, t: State, k: Key, grant: Grant)
    requires SameService(s, t)
    ensures Origin(s, k, grant) == Origin(t, k, grant)
  {
  }

  /** One coroutine moves; entries and abandoned writes stay, go, or come with an origin. */
  lemma MoveInv(s: State, t: State, c: nat)
    requires GrantInv(s) && SameService(s, t) && c < |s.pcs| == |t.pcs| && t.now >= s.now
    requires t.pcs == s.pcs[c := t.pcs[c]] && PcOk(t, c)
    requires forall k | k in t.cache :: k in s.cache && t.cache[k] == s.cache[k]
    requires t.abandoned == s.abandoned
             || (t.abandoned != [] && t.abandoned[..|t.abandoned| - 1] == s.abandoned
                 && Origin(t, t.abandoned[|t.abandoned| - 1].key, t.abandoned[|t.abandoned| - 1].grant))
    ensures GrantInv(t)
  {
    hide PcOk, Origin;
    forall d | 0 <= d < |t.pcs| ensures PcOk(t, d) {
      if d != c { SamePcOk(s, t, d); }
    }
    forall k | k in t.cache ensures Origin(t, k, t.cache[k].grant) { SameOrigin(s, t, k, t.cache[k].grant); }
    forall i | 0 <= i < |t.abandoned| ensures Origin(t, t.abandoned[i].key, t.abandoned[i].grant) {
      if i < |s.abandoned| {
        assert t.abandoned[i] == t.abandoned[..|s.abandoned|][i];
        SameOrigin(s, t, t.abandoned[i].key, t.abandoned[i].grant);
      }
    }
  }

  lemma StoreInv(s: State, key: Key, grant: Grant, ttl: int, since: real)
    requires GrantInv(s) && Origin(s, key, grant)
    ensures GrantInv(Store(s, key, grant, ttl, since))
  {
    hide PcOk, Origin;
    var t := Store(s, key, grant, ttl, since);
    forall d | 0 <= d < |t.pcs| ensures PcOk(t, d) { SamePcOk(s, t, d); }
    forall k | k in t.cache ensures Origin(t, k, t.cache[k].grant) { SameOrigin(s, t, k, t.cache[k].grant); }
    forall i | 0 <= i < |t.abandoned| ensures Origin(t, t.abandoned[i].key, t.abandoned[i].grant) {
      SameOrigin(s, t, t.abandoned[i].key, t.abandoned[i].grant);
    }
  }

  lemma LandInv(s: State, c: nat)
    requires GrantInv(s) && Enabled(s, Land(c))
    ensures GrantInv(Apply(s, Land(c)))
  {
    var pc := s.pcs[c];
    var t := Goto(s, c, pc.(landed := true));
    assert PcOk(s, c);
    assert PcOk(t, c) by { hide HostAllows, CanCache, KeyAt; }
    hide PcOk, Origin, GrantInv;
    MoveInv(s, t, c);
    SameOrigin(s, t, KeyAt(s.requests, c), pc.grant);
    hide Store;
    StoreInv(t, KeyAt(s.requests, c), pc.grant, pc.ttl, pc.since);
  }

  lemma LateLandInv(s: State, i: nat)
    requires GrantInv(s) && Enabled(s, LateLand(i))
    ensures GrantInv(Apply(s, LateLand(i)))
  {
    var w := s.abandoned[i];
    var t := s.(abandoned := s.abandoned[..i] + s.abandoned[i + 1..]);
    hide PcOk, Origin, Store;
    forall d | 0 <= d < |t.pcs| ensures PcOk(t, d) { SamePcOk(s, t, d); }
    forall k | k in t.cache ensures Origin(t, k, t.cache[k].grant) { SameOrigin(s, t, k, t.cache[k].grant); }
    forall j | 0 <= j < |t.abandoned| ensures Origin(t, t.abandoned[j].key, t.abandoned[j].grant) {
      SameOrigin(s, t, t.abandoned[j].key, t.abandoned[j].grant);
    }
    SameOrigin(s, t, w.key, w.grant);
    StoreInv(t, w.key, w.grant, w.ttl, w.since);
  }

  lemma LookInv(s: State, c: nat)
    requires GrantInv(s) && Enabled(s, Look(c))
    ensures GrantInv(Apply(s, Look(c)))
  {
    var t := Apply(s, Look(c));
    assert PcOk(s, c);
    if Lookup(s, c).Some? {
      assert Origin(s, KeyAt(s.requests, c), Lookup(s, c).value.grant);
      SameOrigin(s, t, KeyAt(s.requests, c), Lookup(s, c).value.grant);
    }
    hide Origin, HostAllows, Lookup, KeyAt, GrantInv;
    assert PcOk(t, c);
    hide PcOk;
    MoveInv(s, t, c);
  }

  predicate IsHit(s: State, a: Action)
  {
    Enabled(s, a) && (a.ReadCache? || a.RereadCache?) && a.outcome.Answered? && Found(s.pcs[a.c]).Some?
  }

  predicate IsMiss(s: State, a: Action)
  {
    Enabled(s, a) && (a.ReadCache? || a.RereadCache?) && !(a.outcome.Answered? && Found(s.pcs[a.c]).Some?)
  }

  lemma HitInv(s: State, a: Action)
    requires GrantInv(s) && IsHit(s, a)
    ensures GrantInv(Apply(s, a))
  {
    var t := Apply(s, a);
    var grant := Found(s.pcs[a.c]).value.grant;
    assert PcOk(s, a.c);
    SameOrigin(s, t, KeyAt(s.requests, a.c), grant);
    hide Origin, HostAllows, HeldBy, KeyAt, GrantInv, CanReturn;
    assert PcOk(t, a.c);
    hide PcOk;
    MoveInv(s, t, a.c);
  }

  lemma MissMoves(s: State, a: Action)
    requires IsMiss(s, a)
    ensures var t := Apply(s, a);
            && SameService(s, t) && t.cache == s.cache && t.abandoned == s.abandoned && t.now == s.now
            && |t.pcs| == |s.pcs| && t.pcs == s.pcs[a.c := t.pcs[a.c]]
            && (t.pcs[a.c].Verifying? || t.pcs[a.c].Raised?
                || (s.pcs[a.c].SecondRead? && t.pcs[a.c] == Minting(s.pcs[a.c].lock, s.pcs[a.c].secret)))
  {
    hide Found, KeyAt, HeldBy, CanReturn;
  }

  lemma MissInv(s: State, a: Action)
    requires GrantInv(s) && IsMiss(s, a)
    ensures GrantInv(Apply(s, a))
  {
    MissMoves(s, a);
    assert PcOk(s, a.c);
    hide Origin, HostAllows, IsMiss, KeyAt, Apply, GrantInv, AnswerOk;
    assert PcOk(Apply(s, a), a.c);
    hide PcOk;
    MoveInv(s, Apply(s, a), a.c);
  }

  lemma ReadInv(s: State, a: Action)
    requires GrantInv(s) && Enabled(s, a) && (a.ReadCache? || a.RereadCache?)
    ensures GrantInv(Apply(s, a))
  {
    hide GrantInv, Apply, CanReturn;
    if a.outcome.Answered? && Found(s.pcs[a.c]).Some? { HitInv(s, a); } else { MissInv(s, a); }
  }

  lemma VerifyInv(s: State, c: nat, secret: Option<Secret>)
    requires GrantInv(s) && Enabled(s, Verify(c, secret))
    ensures GrantInv(Apply(s, Verify(c, secret)))
  {
    VerifiedOk(s, c, secret);
    VerifyMoves(s, c, secret);
    hide PcOk, Origin, GrantInv, Apply;
    MoveInv(s, Apply(s, Verify(c, secret)), c);
  }

  lemma VerifyMoves(s: State, c: nat, secret: Option<Secret>)
    requires Enabled(s, Verify(c, secret))
    ensures var t := Apply(s, Verify(c, secret));
            && SameService(s, t) && t.cache == s.cache && t.abandoned == s.abandoned && t.now == s.now
            && |t.pcs| == |s.pcs| && t.pcs == s.pcs[c := t.pcs[c]]
  {
    hide ValidateSecret, StoredTtl, KeyAt, HeldBy;
  }

  lemma StoredTtlNeedsCache(s: State, c: nat)
    requires c < |s.requests| && s.now >= 0.0 && StoredTtl(s, c) > 0
    ensures CanCache(s.requests, s.cacheDuration, c)
  {
    var expiration := s.requests[c].expiration;
    if expiration.Some? { SecondsUntilExpirationIsLargest(expiration.value, s.now, 1); }
  }

  lemma VerifiedOk(s: State, c: nat, secret: Option<Secret>)
    requires |s.pcs| == |s.requests| && s.now >= 0.0 && Enabled(s, Verify(c, secret))
    ensures PcOk(Apply(s, Verify(c, secret)), c)
  {
    if secret.Some? { ValidateExactly(secret.value, s.requests[c].target); }
    if StoredTtl(s, c) > 0 { StoredTtlNeedsCache(s, c); }
    hide HostAllows, CanCache, StoredTtl, ValidateSecret, GenerateCacheKey;
  }

  lemma MintDoneInv(s: State, c: nat, token: string, expiresAt: real, providerUntil: real)
    requires GrantInv(s) && Enabled(s, MintDone(c, token, expiresAt, providerUntil))
    ensures GrantInv(Apply(s, MintDone(c, token, expiresAt, providerUntil)))
  {
    var t := Apply(s, MintDone(c, token, expiresAt, providerUntil));
    assert PcOk(s, c);
    assert EffectiveCacheTtl(s.cacheDuration, expiresAt, s.now) <= s.cacheDuration;
    assert PcOk(t, c) by { hide HostAllows, GenerateCacheKey, EffectiveCacheTtl; }
    hide PcOk, Origin, GrantInv, EffectiveCacheTtl;
    MoveInv(s, t, c);
  }

  lemma GoOnInv(s: State, a: Action)
    requires GrantInv(s) && Enabled(s, a) && (a.Acquire? || a.MintFailed?)
    ensures GrantInv(Apply(s, a))
  {
    var t := Apply(s, a);
    assert PcOk(s, a.c);
    assert PcOk(t, a.c) by { hide HostAllows, CanCache, KeyAt; }
    hide PcOk, Origin, GrantInv;
    MoveInv(s, t, a.c);
  }

  lemma EndInv(s: State, a: Action)
    requires GrantInv(s) && Enabled(s, a) && (a.WriteDone? || a.CancelTask?)
    ensures GrantInv(Apply(s, a))
  {
    var t := Apply(s, a);
    assert PcOk(s, a.c);
    var pc := s.pcs[a.c];
    if pc.Writing? && pc.ttl > 0 { SameOrigin(s, t, KeyAt(s.requests, a.c), pc.grant); }
    assert PcOk(t, a.c) by { hide HostAllows, Origin, KeyAt; }
    hide PcOk, Origin, GrantInv, GenerateCacheKey;
    MoveInv(s, t, a.c);
  }

  lemma EnvironmentInv(s: State, a: Action)
    requires GrantInv(s) && Enabled(s, a) && (a.CollectLock? || a.Evict? || a.Tick?)
    ensures GrantInv(Apply(s, a))
  {
    var t := Apply(s, a);
    hide PcOk, Origin;
    forall d | 0 <= d < |t.pcs| ensures PcOk(t, d) { SamePcOk(s, t, d); }
    forall k | k in t.cache ensures Origin(t, k, t.cache[k].grant) { SameOrigin(s, t, k, t.cache[k].grant); }
    forall j | 0 <= j < |t.abandoned| ensures Origin(t, t.abandoned[j].key, t.abandoned[j].grant) {
      SameOrigin(s, t, t.abandoned[j].key, t.abandoned[j].grant);
    }
  }

  lemma StepGrantInv(s: State, a: Action)
    requires GrantInv(s) && Enabled(s, a)
    ensures GrantInv(Apply(s, a))
  {
    hide GrantInv, Enabled, Apply;
    match a
    case Look(c) => LookInv(s, c);
    case ReadCache(_, _) => ReadInv(s, a);
    case RereadCache(_, _) => ReadInv(s, a);
    case Verify(c, secret) => VerifyInv(s, c, secret);
    case MintDone(c, token, expiresAt, providerUntil) => MintDoneInv(s, c, token, expiresAt, providerUntil);
    case Acquire(_) => GoOnInv(s, a);
    case MintFailed(_) => GoOnInv(s, a);
    case WriteDone(_) => EndInv(s, a);
    case CancelTask(_) => EndInv(s, a);
    case Land(c) => LandInv(s, c);
    case LateLand(i) => LateLandInv(s, i);
    case CollectLock(_) => EnvironmentInv(s, a);
    case Evict(_) => EnvironmentInv(s, a);
    case Tick(_) => EnvironmentInv(s, a);
  }

  lemma {:induction false} RunGrantInv(s: State, acts: seq<Action>, t: State)
    requires GrantInv(s) && IsRun(s, acts, t)
    ensures GrantInv(t) && SameService(s, t)
    decreases |acts|
  {
    hide GrantInv, Enabled, Apply;
    if acts != [] {
      StepGrantInv(s, acts[0]);
      StepKeepsService(s, acts[0]);
      RunGrantInv(Apply(s, acts[0]), acts[1..], t);
    }
  }

  lemma ReachableGrants(requests: seq<Request>, cacheDuration: nat, acts: seq<Action>, s: State, c: nat)
    requires IsRun(Init(requests, cacheDuration), acts, s) && c < |s.pcs| && s.pcs[c].Returned?
    ensures s.requests == requests && s.cacheDuration == cacheDuration && c < |requests| == |s.pcs| && PcOk(s, c)
  {
    assert GrantInv(Init(requests, cacheDuration));
    RunGrantInv(Init(requests, cacheDuration), acts, s);
  }

  // ---- what a request is answered with ----

  /**
   Over any run, late writes and evictions included: whatever a request is answered with was authorised for a request with
   the same cache key, with that request's credentials and for that request's target.
   */
  lemma ResultHasAnOrigin(requests: seq<Request>, cacheDuration: nat, acts: seq<Action>, s: State, c: nat)
    requires IsRun(Init(requests, cacheDuration), acts, s) && c < |s.pcs| && s.pcs[c].Returned?
    ensures var grant := s.pcs[c].grant;
            && c < |requests| && grant.requester < |requests|
            && KeyAt(requests, grant.requester) == KeyAt(requests, c)
            && HostAllows(grant.secret, requests[grant.requester].target)
  {
    ReachableGrants(requests, cacheDuration, acts, s, c);
  }

  /**
   So a request with no newline in its payload and its target is answered only with a result for its own payload, from a
   secret without a host or with its own target as host, whatever the other requests are.
   */
  lemma HostAlwaysEnforced(requests: seq<Request>, cacheDuration: nat, acts: seq<Action>, s: State, c: nat)
    requires IsRun(Init(requests, cacheDuration), acts, s) && c < |s.pcs| && s.pcs[c].Returned?
    requires c < |requests| && '\n' !in requests[c].raw && '\n' !in TargetText(requests[c].target)
    ensures var grant := s.pcs[c].grant;
            && HostAllows(grant.secret, requests[c].target)
            && grant.requester < |requests| && requests[grant.requester].raw == requests[c].raw
  {
    ResultHasAnOrigin(requests, cacheDuration, acts, s, c);
    var d := s.pcs[c].grant.requester;
    CleanKeyIsUnique(requests[c].raw, TargetText(requests[c].target), requests[d].raw, TargetText(requests[d].target));
  }

  /** And so is every request when no target holds a newline, although payloads may. */
  lemma HostEnforcedForCleanTargets(requests: seq<Request>, cacheDuration: nat, acts: seq<Action>, s: State, c: nat)
    requires IsRun(Init(requests, cacheDuration), acts, s) && c < |s.pcs| && s.pcs[c].Returned?
    requires forall d | 0 <= d < |requests| :: '\n' !in TargetText(requests[d].target)
    ensures var grant := s.pcs[c].grant;
            && c < |requests| && HostAllows(grant.secret, requests[c].target)
            && grant.requester < |requests| && requests[grant.requester].raw == requests[c].raw
  {
    ResultHasAnOrigin(requests, cacheDuration, acts, s, c);
    var d := s.pcs[c].grant.requester;
    KeyInjective(requests[c].raw, requests[c].target, requests[d].raw, requests[d].target);
  }

  /**
   Whatever the payloads and the other requests are, a secret whose host holds no newline is never used for another target
   that holds none.
   */
  lemma CleanHostIsEnforced(requests: seq<Request>, cacheDuration: nat, acts: seq<Action>, s: State, c: nat)
    requires IsRun(Init(requests, cacheDuration), acts, s) && c < |s.pcs| && s.pcs[c].Returned? && c < |requests|
    requires '\n' !in TargetText(requests[c].target) && '\n' !in Host(s.pcs[c].grant.secret)
    ensures HostAllows(s.pcs[c].grant.secret, requests[c].target)
  {
    ResultHasAnOrigin(requests, cacheDuration, acts, s, c);
    var d := s.pcs[c].grant.requester;
    if Host(s.pcs[c].grant.secret) != "" {
      KeyInjective(requests[c].raw, requests[c].target, requests[d].raw, requests[d].target);
    }
  }

  // ---- exactly when the host check can be missed ----

  /** Request `d` can leave a result in the cache under the key of `c` whose secret is restricted to another host. */
  predicate Threatens(requests: seq<Request>, cacheDuration: nat, d: nat, c: nat)
    requires c < |requests|
  {
    && d < |requests| && KeyAt(requests, d) == KeyAt(requests, c) && requests[d].raw != "" && requests[c].raw != ""
    && CanCache(requests, cacheDuration, d)
    && TargetText(requests[d].target) != "" && TargetText(requests[d].target) != TargetText(requests[c].target)
  }

  ghost predicate AlwaysAllowed(requests: seq<Request>, cacheDuration: nat, c: nat)
    requires c < |requests|
  {
    forall acts, s | IsRun(Init(requests, cacheDuration), acts, s) && c < |s.pcs| && s.pcs[c].Returned? ::
      HostAllows(s.pcs[c].grant.secret, requests[c].target)
  }

  /** The run has left an entry restricted to `d`'s target under `d`'s key, and touched no other request. */
  ghost predicate Planted(requests: seq<Request>, cacheDuration: nat, d: nat, acts: seq<Action>, s: State)
    requires d < |requests|
  {
    && IsRun(Init(requests, cacheDuration), acts, s) && s.requests == requests && |s.pcs| == |requests|
    && (forall e | 0 <= e < |requests| && e != d :: s.pcs[e] == FirstRead(None))
    && KeyAt(requests, d) in s.cache && s.now < s.cache[KeyAt(requests, d)].until
    && Host(s.cache[KeyAt(requests, d)].grant.secret) == TargetText(requests[d].target)
  }

  /** The first steps of a request whose first read fails. */
  lemma Verified(requests: seq<Request>, cacheDuration: nat, d: nat, secret: Secret) returns (acts: seq<Action>, s: State)
    requires d < |requests| && requests[d].raw != "" && Host(secret) == TargetText(requests[d].target) != ""
    ensures IsRun(Init(requests, cacheDuration), acts, s)
    ensures var s1 := Goto(Init(requests, cacheDuration), d, Verifying);
            Enabled(s1, Verify(d, Some(secret))) && s == Apply(s1, Verify(d, Some(secret)))
  {
    var s0 := Init(requests, cacheDuration);
    var s1 := Apply(s0, ReadCache(d, Failed));
    s := Apply(s1, Verify(d, Some(secret)));
    EmptyRun(s0);
    hide IsRun, ValidateSecret, StoredTtl, GenerateCacheKey;
    RunSnoc(s0, [], s0, ReadCache(d, Failed));
    RunSnoc(s0, [] + [ReadCache(d, Failed)], s1, Verify(d, Some(secret)));
    acts := [] + [ReadCache(d, Failed)] + [Verify(d, Some(secret))];
  }

  lemma EmptyRun(s: State)
    ensures IsRun(s, [], s)
  {
  }

  /** A stored key whose credentials expire late enough is planted by its write. */
  lemma PlantStored(requests: seq<Request>, cacheDuration: nat, d: nat) returns (acts: seq<Action>, s: State)
    requires d < |requests| && requests[d].raw != "" && TargetText(requests[d].target) != ""
    requires cacheDuration == 0 && CanCache(requests, cacheDuration, d)
    ensures Planted(requests, cacheDuration, d, acts, s)
  {
    var s0 := Init(requests, cacheDuration);
    var secret := StoredKey("key", Some(TargetText(requests[d].target)));
    var before, s2 := Verified(requests, cacheDuration, d, secret);
    SecondsUntilExpirationIsLargest(requests[d].expiration.value, 0.0, 1);
    ValidateExactly(secret, requests[d].target);
    var ttl := StoredTtl(s0, d);
    assert ttl > 0;
    hide IsRun, ValidateSecret, SecondsUntilExpiration, GenerateCacheKey;
    assert s2 == Goto(s0, d, Writing(None, Grant("key", secret, d, None, None), ttl, 0.0, false));
    s := Apply(s2, Land(d));
    RunSnoc(s0, before, s2, Land(d));
    acts := before + [Land(d)];
  }

  /** The steps of a request up to its mint, when both reads fail. */
  lemma ReachesMint(requests: seq<Request>, cacheDuration: nat, d: nat, secret: Secret) returns (acts: seq<Action>, s: State)
    requires d < |requests| && requests[d].raw != "" && Host(secret) == TargetText(requests[d].target) != "" && secret.MintSecret?
    ensures IsRun(Init(requests, cacheDuration), acts, s)
    ensures var s0 := Init(requests, cacheDuration);
            && |s.pcs| == |requests| && s.pcs == s0.pcs[d := Minting(0, secret)] && s.requests == requests
            && s.cacheDuration == cacheDuration && s.now == 0.0 && s.owners == map[0 := d]
  {
    var s0 := Init(requests, cacheDuration);
    var before, s2 := Verified(requests, cacheDuration, d, secret);
    ValidateExactly(secret, requests[d].target);
    hide IsRun, ValidateSecret, GenerateCacheKey, StoredTtl;
    assert s2 == TakeMintLock(Goto(s0, d, Verifying), d, secret);
    var s3 := Apply(s2, Acquire(d));
    s := Apply(s3, RereadCache(d, Failed));
    RunSnoc(s0, before, s2, Acquire(d));
    RunSnoc(s0, before + [Acquire(d)], s3, RereadCache(d, Failed));
    acts := before + [Acquire(d)] + [RereadCache(d, Failed)];
  }

  /** With a positive cache duration a minted token that lives long enough is. */
  lemma PlantMinted(requests: seq<Request>, cacheDuration: nat, d: nat) returns (acts: seq<Action>, s: State)
    requires d < |requests| && requests[d].raw != "" && TargetText(requests[d].target) != "" && cacheDuration > 0
    ensures Planted(requests, cacheDuration, d, acts, s)
  {
    var s0 := Init(requests, cacheDuration);
    var secret := MintSecret(TargetText(requests[d].target), "arn:aws:iam::123456789012:role/federation/x");
    var before, s4 := ReachesMint(requests, cacheDuration, d, secret);
    var expiry := (cacheDuration + 60) as real;
    assert EffectiveCacheTtl(cacheDuration, expiry, 0.0) == cacheDuration;
    hide IsRun, EffectiveCacheTtl, GenerateCacheKey;
    var s5 := Apply(s4, MintDone(d, "token", expiry, expiry));
    s := Apply(s5, Land(d));
    RunSnoc(s0, before, s4, MintDone(d, "token", expiry, expiry));
    RunSnoc(s0, before + [MintDone(d, "token", expiry, expiry)], s5, Land(d));
    acts := before + [MintDone(d, "token", expiry, expiry)] + [Land(d)];
  }

  /** A run in which the threatened request is answered with a result restricted to another host. */
  lemma HostCanBeMissed(requests: seq<Request>, cacheDuration: nat, d: nat, c: nat) returns (acts: seq<Action>, s: State)
    requires c < |requests| && Threatens(requests, cacheDuration, d, c)
    ensures IsRun(Init(requests, cacheDuration), acts, s) && c < |s.pcs| && s.pcs[c].Returned?
    ensures !HostAllows(s.pcs[c].grant.secret, requests[c].target)
  {
    var before, planted;
    if cacheDuration > 0 {
      before, planted := PlantMinted(requests, cacheDuration, d);
    } else {
      before, planted := PlantStored(requests, cacheDuration, d);
    }
    hide IsRun, GenerateCacheKey;
    var looked := Apply(planted, Look(c));
    RunSnoc(Init(requests, cacheDuration), before, planted, Look(c));
    RunSnoc(Init(requests, cacheDuration), before + [Look(c)], looked, ReadCache(c, Answered));
    acts, s := before + [Look(c)] + [ReadCache(c, Answered)], Apply(looked, ReadCache(c, Answered));
  }

  /**
   The host check holds for a request in every run if and only if no other request threatens it: one with the same key,
   a payload, another non-empty target and something to cache.
   */
  lemma HostEnforcedExactly(requests: seq<Request>, cacheDuration: nat, c: nat)
    requires c < |requests|
    ensures AlwaysAllowed(requests, cacheDuration, c) <==>
            forall d | 0 <= d < |requests| :: !Threatens(requests, cacheDuration, d, c)
  {
    if AlwaysAllowed(requests, cacheDuration, c) {
      forall d | 0 <= d < |requests| ensures !Threatens(requests, cacheDuration, d, c) {
        if Threatens(requests, cacheDuration, d, c) { var acts, s := HostCanBeMissed(requests, cacheDuration, d, c); }
      }
    }
    if forall d | 0 <= d < |requests| :: !Threatens(requests, cacheDuration, d, c) {
      forall acts, s | IsRun(Init(requests, cacheDuration), acts, s) && c < |s.pcs| && s.pcs[c].Returned?
        ensures HostAllows(s.pcs[c].grant.secret, requests[c].target)
      {
        ReachableGrants(requests, cacheDuration, acts, s, c);
        assert !Threatens(requests, cacheDuration, s.pcs[c].grant.requester, c);
      }
    }
  }
}
