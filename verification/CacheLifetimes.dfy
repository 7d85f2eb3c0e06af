/** Over whole runs: how long entries stay cached, and how close to its provider's expiry a minted token may still be served. */
module CacheLifetimes {
  import opened Text
  import opened CacheKey
  import opened CacheTtl
  import opened SecretValidation
  import opened AuthService

  /**
   A write was given its TTL when it began: a minted token's by a reported expiry that is not too late, a stored key's by
   its credentials.
   */
  predicate WriteOk(requests: seq<Request>, cacheDuration: nat, grant: Grant, ttl: int, since: real) {
    if grant.providerUntil.Some? then
      && grant.expiresAt.Some? && grant.expiresAt.value <= grant.providerUntil.value
      && ttl == EffectiveCacheTtl(cacheDuration, grant.expiresAt.value, since)
    else
      grant.requester < |requests| && ttl == StoredKeyTtl(cacheDuration, requests[grant.requester].expiration, since)
  }

  /** Redis only answers with entries that are live then. */
  predicate AnswerOk(answer: Answer, now: real, onTime: bool) {
    answer.at <= now && (answer.found.Some? ==> answer.at < answer.found.value.until && EntryOk(answer.found.value, onTime))
  }

  predicate PcOk(requests: seq<Request>, cacheDuration: nat, c: nat, pc: Pc, now: real, onTime: bool) {
    && (pc.Writing? ==> pc.grant.requester == c && WriteOk(requests, cacheDuration, pc.grant, pc.ttl, pc.since))
    && (Reads(pc) && pc.answer.Some? ==> AnswerOk(pc.answer.value, now, onTime))
  }

  predicate AbandonedOk(requests: seq<Request>, cacheDuration: nat, w: Abandoned) {
    w.ttl > 0 && WriteOk(requests, cacheDuration, w.grant, w.ttl, w.since)
  }

  /** An entry is gone the safety margin, less what its write was delayed, before its token expires. */
  predicate EntryOk(e: Entry, onTime: bool) {
    && (e.grant.providerUntil.Some? ==> e.until + MARGIN - e.delay <= e.grant.providerUntil.value)
    && (onTime ==> e.delay <= WRITE_TIMEOUT_SECONDS)
  }

  const MARGIN: real := TOKEN_EXPIRY_SAFETY_MARGIN_SECONDS as real

  predicate EventOk(e: Event, onTime: bool) {
    e.Served? ==>
      e.answered < e.entry.until && e.answered <= e.at <= e.answered + READ_TIMEOUT_SECONDS && EntryOk(e.entry, onTime)
  }

  /** `onTime`: no abandoned write has landed. */
  ghost predicate FreshInv(s: State, onTime: bool) {
    && (forall c | 0 <= c < |s.pcs| :: PcOk(s.requests, s.cacheDuration, c, s.pcs[c], s.now, onTime))
    && (forall i | 0 <= i < |s.abandoned| :: AbandonedOk(s.requests, s.cacheDuration, s.abandoned[i]))
    && (forall k | k in s.cache :: EntryOk(s.cache[k], onTime))
    && forall i | 0 <= i < |s.events| :: EventOk(s.events[i], onTime)
  }

  lemma StoreInv(s: State, key: Key, grant: Grant, ttl: int, since: real, onTime: bool)
    requires FreshInv(s, onTime) && WriteOk(s.requests, s.cacheDuration, grant, ttl, since) && ttl > 0
    requires onTime ==> s.now <= since + WRITE_TIMEOUT_SECONDS
    ensures FreshInv(Store(s, key, grant, ttl, since), onTime)
  {
    if grant.providerUntil.Some? {
      EntryOutlivesNothing(s.cacheDuration, grant.expiresAt.value, since, s.now);
    }
    hide PcOk, AbandonedOk, EffectiveCacheTtl;
  }

  lemma LandInv(s: State, a: Action, onTime: bool)
    requires FreshInv(s, onTime) && Enabled(s, a) && (a.Land? || (a.LateLand? && !onTime))
    ensures FreshInv(Apply(s, a), onTime)
  {
    match a
    case Land(c) =>
      var pc := s.pcs[c];
      var t := Goto(s, c, pc.(landed := true));
      assert PcOk(s.requests, s.cacheDuration, c, pc, s.now, onTime);
      assert FreshInv(t, onTime) by { hide EntryOk, EventOk, AbandonedOk; }
      hide FreshInv, Store;
      StoreInv(t, KeyOf(s, c), pc.grant, pc.ttl, pc.since, onTime);
    case LateLand(i) =>
      var w := s.abandoned[i];
      var t := s.(abandoned := s.abandoned[..i] + s.abandoned[i + 1..]);
      assert AbandonedOk(s.requests, s.cacheDuration, w);
      assert FreshInv(t, onTime) by { hide EntryOk, EventOk, AbandonedOk, PcOk; }
      hide FreshInv, Store;
      StoreInv(t, w.key, w.grant, w.ttl, w.since, onTime);
  }

  /** A step that writes nothing to the cache moves one coroutine and may answer it from a live entry. */
  lemma MoveInv(s: State, t: State, c: nat, onTime: bool)
    requires FreshInv(s, onTime) && c < |s.pcs| && SameService(s, t) && t.cache == s.cache && t.now == s.now
    requires |t.pcs| == |s.pcs| && t.pcs == s.pcs[c := t.pcs[c]] && PcOk(t.requests, t.cacheDuration, c, t.pcs[c], t.now, onTime)
    requires t.abandoned == s.abandoned
             || (t.abandoned != [] && t.abandoned[..|t.abandoned| - 1] == s.abandoned
                 && AbandonedOk(t.requests, t.cacheDuration, t.abandoned[|t.abandoned| - 1]))
    requires t.events == s.events
             || (t.events != [] && t.events[..|t.events| - 1] == s.events && EventOk(t.events[|t.events| - 1], onTime))
    ensures FreshInv(t, onTime)
  {
    hide PcOk, EntryOk, EventOk, AbandonedOk;
    forall i | 0 <= i < |t.events| ensures EventOk(t.events[i], onTime) {
      if i < |s.events| { assert t.events[i] == t.events[..|s.events|][i]; }
    }
    forall i | 0 <= i < |t.abandoned| ensures AbandonedOk(t.requests, t.cacheDuration, t.abandoned[i]) {
      if i < |s.abandoned| { assert t.abandoned[i] == t.abandoned[..|s.abandoned|][i]; }
    }
  }

  lemma LookInv(s: State, c: nat, onTime: bool)
    requires FreshInv(s, onTime) && Enabled(s, Look(c))
    ensures FreshInv(Apply(s, Look(c)), onTime)
  {
    if Lookup(s, c).Some? { assert EntryOk(s.cache[KeyOf(s, c)], onTime); }
    assert AnswerOk(Answer(Lookup(s, c), s.now, |s.events|), s.now, onTime);
    hide GenerateCacheKey, FreshInv, AnswerOk, Lookup;
    MoveInv(s, Apply(s, Look(c)), c, onTime);
  }

  /** A read that returns an entry answers the request from it. */
  lemma HitInv(s: State, a: Action, onTime: bool)
    requires FreshInv(s, onTime) && Enabled(s, a) && (a.ReadCache? || a.RereadCache?)
    requires a.outcome.Answered? && Found(s.pcs[a.c]).Some?
    ensures FreshInv(Apply(s, a), onTime)
  {
    var pc := s.pcs[a.c];
    assert PcOk(s.requests, s.cacheDuration, a.c, s.pcs[a.c], s.now, onTime);
    assert EventOk(Served(a.c, pc.answer.value.found.value, pc.answer.value.at, s.now), onTime);
    hide GenerateCacheKey, FreshInv, EntryOk, EventOk, HeldBy;
    MoveInv(s, Apply(s, a), a.c, onTime);
  }

  lemma MissInv(s: State, a: Action, onTime: bool)
    requires FreshInv(s, onTime) && Enabled(s, a) && (a.ReadCache? || a.RereadCache?)
    requires !(a.outcome.Answered? && Found(s.pcs[a.c]).Some?)
    ensures FreshInv(Apply(s, a), onTime)
  {
    hide GenerateCacheKey, FreshInv, EntryOk, HeldBy, Found, KeyOf, CanReturn;
    MoveInv(s, Apply(s, a), a.c, onTime);
  }

  lemma ReadInv(s: State, a: Action, onTime: bool)
    requires FreshInv(s, onTime) && Enabled(s, a) && (a.ReadCache? || a.RereadCache?)
    ensures FreshInv(Apply(s, a), onTime)
  {
    hide FreshInv, Apply, GenerateCacheKey, CanReturn;
    if a.outcome.Answered? && Found(s.pcs[a.c]).Some? { HitInv(s, a, onTime); } else { MissInv(s, a, onTime); }
  }

  lemma VerifyInv(s: State, c: nat, secret: Option<Secret>, onTime: bool)
    requires FreshInv(s, onTime) && Enabled(s, Verify(c, secret))
    ensures FreshInv(Apply(s, Verify(c, secret)), onTime)
  {
    var t := Apply(s, Verify(c, secret));
    hide KeyAt, FreshInv, EffectiveCacheTtl, StoredKeyTtl, ValidateSecret, HeldBy;
    assert PcOk(t.requests, t.cacheDuration, c, t.pcs[c], t.now, onTime);
    hide PcOk, StoredTtl;
    MoveInv(s, t, c, onTime);
  }

  lemma MintDoneInv(s: State, a: Action, onTime: bool)
    requires FreshInv(s, onTime) && Enabled(s, a) && a.MintDone?
    ensures FreshInv(Apply(s, a), onTime)
  {
    var t := Apply(s, a);
    hide FreshInv, EffectiveCacheTtl, HeldBy;
    assert PcOk(t.requests, t.cacheDuration, a.c, t.pcs[a.c], t.now, onTime);
    hide PcOk;
    MoveInv(s, t, a.c, onTime);
  }

  lemma GoOnInv(s: State, a: Action, onTime: bool)
    requires FreshInv(s, onTime) && Enabled(s, a) && (a.Acquire? || a.MintFailed?)
    ensures FreshInv(Apply(s, a), onTime)
  {
    hide FreshInv, HeldBy;
    MoveInv(s, Apply(s, a), a.c, onTime);
  }

  /** A coroutine that stops waiting for its write may leave it behind. */
  lemma EndInv(s: State, a: Action, onTime: bool)
    requires FreshInv(s, onTime) && Enabled(s, a) && (a.WriteDone? || a.CancelTask?)
    ensures FreshInv(Apply(s, a), onTime)
  {
    assert PcOk(s.requests, s.cacheDuration, a.c, s.pcs[a.c], s.now, onTime);
    hide GenerateCacheKey, FreshInv, WriteOk, HeldBy;
    MoveInv(s, Apply(s, a), a.c, onTime);
  }

  lemma EnvironmentInv(s: State, a: Action, onTime: bool)
    requires FreshInv(s, onTime) && Enabled(s, a) && (a.CollectLock? || a.Evict? || a.Tick?)
    ensures FreshInv(Apply(s, a), onTime)
  {
    hide WriteOk, EntryOk, EventOk, AbandonedOk;
  }

  lemma StepFreshInv(s: State, a: Action, onTime: bool)
    requires FreshInv(s, onTime) && Enabled(s, a) && (onTime ==> !a.LateLand?)
    ensures FreshInv(Apply(s, a), onTime)
  {
    hide FreshInv, Apply, Enabled;
    match a
    case Look(c) => LookInv(s, c, onTime);
    case ReadCache(_, _) => ReadInv(s, a, onTime);
    case RereadCache(_, _) => ReadInv(s, a, onTime);
    case Verify(c, secret) => VerifyInv(s, c, secret, onTime);
    case MintDone(_, _, _, _) => MintDoneInv(s, a, onTime);
    case Acquire(_) => GoOnInv(s, a, onTime);
    case MintFailed(_) => GoOnInv(s, a, onTime);
    case WriteDone(_) => EndInv(s, a, onTime);
    case CancelTask(_) => EndInv(s, a, onTime);
    case Land(_) => LandInv(s, a, onTime);
    case LateLand(_) => LandInv(s, a, onTime);
    case CollectLock(_) => EnvironmentInv(s, a, onTime);
    case Evict(_) => EnvironmentInv(s, a, onTime);
    case Tick(_) => EnvironmentInv(s, a, onTime);
  }

  lemma {:induction false} RunFreshInv(s: State, acts: seq<Action>, t: State, onTime: bool)
    requires FreshInv(s, onTime) && IsRun(s, acts, t)
    requires onTime ==> forall i | 0 <= i < |acts| :: !acts[i].LateLand?
    ensures FreshInv(t, onTime)
    decreases |acts|
  {
    hide FreshInv, Apply, Enabled;
    if acts != [] {
      StepFreshInv(s, acts[0], onTime);
      RunFreshInv(Apply(s, acts[0]), acts[1..], t, onTime);
    }
  }

  /**
   Over any run, whatever the requests: when Redis answers a read with a minted token its provider will accept it for more
   than 60 s less the time its write took to land, and the answer is used at most 5 s later. If no write lands after its
   client has given up, that is more than 57 s when Redis answers and more than 52 s when the request is.
   */
  lemma ServedTokensAreFresh(requests: seq<Request>, cacheDuration: nat, acts: seq<Action>, s: State, i: nat)
    requires IsRun(Init(requests, cacheDuration), acts, s)
    requires i < |s.events| && s.events[i].Served? && s.events[i].entry.grant.providerUntil.Some?
    ensures var e := s.events[i];
            && e.entry.grant.providerUntil.value - e.answered > 60.0 - e.entry.delay
            && e.answered <= e.at <= e.answered + READ_TIMEOUT_SECONDS
    ensures (forall j | 0 <= j < |acts| :: !acts[j].LateLand?) ==>
              && s.events[i].entry.grant.providerUntil.value - s.events[i].answered > 57.0
              && s.events[i].entry.grant.providerUntil.value - s.events[i].at > 52.0
  {
    var start := Init(requests, cacheDuration);
    RunFreshInv(start, acts, s, false);
    assert EventOk(s.events[i], false);
    if forall j | 0 <= j < |acts| :: !acts[j].LateLand? {
      RunFreshInv(start, acts, s, true);
      assert EventOk(s.events[i], true);
    }
  }

  /** The write a landing performs, in time or late. */
  function Landing(s: State, a: Action): Abandoned
    requires Enabled(s, a) && (a.Land? || a.LateLand?)
  {
    match a
    case Land(c) => Abandoned(KeyOf(s, c), s.pcs[c].grant, s.pcs[c].ttl, s.pcs[c].since)
    case LateLand(i) => s.abandoned[i]
  }

  /**
   In every reachable state: the entry a write leaves, in time or late, lives as many whole seconds as the stored key's
   credentials did when the write began, or the cache duration if they have no end; and the one of a minted token as many,
   up to the cache duration, as left 60 s before its reported expiry.
   */
  lemma EntryLifetime(requests: seq<Request>, cacheDuration: nat, acts: seq<Action>, s: State, a: Action, d: nat)
    requires IsRun(Init(requests, cacheDuration), acts, s) && Enabled(s, a) && (a.Land? || a.LateLand?)
    ensures var w := Landing(s, a);
            && w.key in Apply(s, a).cache
            && var entry := Apply(s, a).cache[w.key];
            && entry.grant == w.grant
            && (w.grant.providerUntil.None? ==>
                  && w.grant.requester < |requests|
                  && var expiration := requests[w.grant.requester].expiration;
                  && (entry.until - s.now == d as real <==>
                      if expiration.Some? then d > 0 && LivesFor(expiration, w.since, d) else 0 < d == cacheDuration))
            && (w.grant.providerUntil.Some? ==>
                  && w.grant.expiresAt.Some?
                  && (entry.until - s.now >= d as real <==>
                      d == 0 || (d <= cacheDuration && w.since + d as real + 60.0 <= w.grant.expiresAt.value)))
  {
    RunFreshInv(Init(requests, cacheDuration), acts, s, false);
    RunKeepsService(Init(requests, cacheDuration), acts, s);
    var w := Landing(s, a);
    if a.Land? {
      assert PcOk(s.requests, s.cacheDuration, a.c, s.pcs[a.c], s.now, false);
    } else {
      assert AbandonedOk(s.requests, s.cacheDuration, s.abandoned[a.i]);
    }
    assert WriteOk(requests, cacheDuration, w.grant, w.ttl, w.since) && w.ttl > 0;
    hide PcOk, AbandonedOk, FreshInv, GenerateCacheKey;
    if w.grant.providerUntil.None? {
      StoredTtlExactly(cacheDuration, requests[w.grant.requester].expiration, w.since, d);
    } else if d > 0 {
      EffectiveCacheTtlIsLargest(cacheDuration, w.grant.expiresAt.value, w.since, d);
    }
    hide EffectiveCacheTtl, StoredKeyTtl, LivesFor;
    EntryOfLanding(s, a);
  }

  /** A landing leaves its write's grant for its TTL. */
  lemma EntryOfLanding(s: State, a: Action)
    requires Enabled(s, a) && (a.Land? || a.LateLand?)
    ensures var w := Landing(s, a);
            && w.key in Apply(s, a).cache && Apply(s, a).cache[w.key].grant == w.grant
            && Apply(s, a).cache[w.key].until - s.now == w.ttl as real
  {
    hide GenerateCacheKey;
  }
}
