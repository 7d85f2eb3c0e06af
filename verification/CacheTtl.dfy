/** Lifetimes: how long a result may stay cached, and why a cached token is never close to its provider's expiry. */
module CacheTtl {
  import opened Text

  const TOKEN_EXPIRY_SAFETY_MARGIN_SECONDS: int := 60
  const WRITE_TIMEOUT_SECONDS: real := 3.0
  const READ_TIMEOUT_SECONDS: real := 5.0
  const MINT_DEADLINE_SECONDS: real := 6.0
  const GCP_MIN_LIFETIME_SECONDS: int := 600

  /** Python's `int()` on a float: towards zero. */
  function Truncate(x: real): int {
    if x >= 0.0 then x.Floor else -((-x).Floor)
  }

  function Max(a: int, b: int): int { if a >= b then a else b }
  function Min(a: int, b: int): int { if a <= b then a else b }

  function EffectiveCacheTtl(cacheDuration: int, tokenExpiresAt: real, now: real): int {
    Max(0, Min(cacheDuration, Truncate(tokenExpiresAt - now) - TOKEN_EXPIRY_SAFETY_MARGIN_SECONDS))
  }

  /** None for credentials without an expiration. */
  function SecondsUntilExpiration(expiration: Option<real>, now: real): Option<int> {
    if expiration.None? then None else Some(Max(0, Truncate(expiration.value - now)))
  }

  /**
   The TTL is the largest whole number of seconds, up to the cache duration, after which the margin is still ahead; it is
   zero exactly when not even one second fits.
   */
  lemma EffectiveCacheTtlIsLargest(cacheDuration: int, tokenExpiresAt: real, now: real, d: int)
    requires d > 0
    ensures d <= EffectiveCacheTtl(cacheDuration, tokenExpiresAt, now) <==>
            d <= cacheDuration && now + d as real + 60.0 <= tokenExpiresAt
  {
  }

  /** Stored credentials: never past their expiration, and nothing once they have expired. */
  lemma SecondsUntilExpirationIsLargest(expiration: real, now: real, d: int)
    requires d > 0
    ensures d <= SecondsUntilExpiration(Some(expiration), now).value <==> now + d as real <= expiration
  {
  }

  /** A stored key is cached for what is left of its credentials' life, or for the cache duration if they have no end. */
  function StoredKeyTtl(cacheDuration: nat, expiration: Option<real>, now: real): int {
    var left := SecondsUntilExpiration(expiration, now);
    if left.Some? then left.value else cacheDuration
  }

  /** No expiration, or one between `d` and `d + 1` seconds ahead, where none ahead at all counts as zero. */
  predicate LivesFor(expiration: Option<real>, now: real, d: nat) {
    expiration.Some? ==> (d > 0 ==> now + d as real <= expiration.value) && expiration.value < now + (d + 1) as real
  }

  /**
   The TTL is the largest whole number of seconds that still ends before the credentials do, and the cache duration if they
   have no end. So it is the cache duration exactly when the credentials live that long to the second.
   */
  lemma StoredTtlExactly(cacheDuration: nat, expiration: Option<real>, now: real, d: nat)
    ensures d <= StoredKeyTtl(cacheDuration, expiration, now) <==>
            d == 0 || if expiration.Some? then now + d as real <= expiration.value else d <= cacheDuration
    ensures d == StoredKeyTtl(cacheDuration, expiration, now) <==>
            if expiration.Some? then LivesFor(expiration, now, d) else d == cacheDuration
  {
    if expiration.Some? {
      SecondsUntilExpirationIsLargest(expiration.value, now, d + 1);
      if d > 0 { SecondsUntilExpirationIsLargest(expiration.value, now, d); }
    }
  }

  // ---- expiry of minted tokens ----

  /** An OAuth response's expiry is counted from before the request was sent. */
  function OAuthExpiry(requestedAt: real, expiresIn: int): real {
    requestedAt + expiresIn as real
  }

  /** Google's timestamp, truncated to whole microseconds. */
  function GoogleExpiry(expireTime: real): real {
    (expireTime * 1_000_000.0).Floor as real / 1_000_000.0
  }

  /** So it is never later than the provider's own, and earlier by the time the request took to reach it. */
  lemma OAuthExpiryIsEarly(requestedAt: real, issuedAt: real, expiresIn: int)
    requires requestedAt <= issuedAt
    ensures OAuthExpiry(requestedAt, expiresIn) <= issuedAt + expiresIn as real
    ensures issuedAt + expiresIn as real - OAuthExpiry(requestedAt, expiresIn) == issuedAt - requestedAt
  {
  }

  lemma GoogleExpiryIsEarly(expireTime: real)
    ensures expireTime - 0.000_001 < GoogleExpiry(expireTime) <= expireTime
    ensures (GoogleExpiry(expireTime) * 1_000_000.0).Floor as real == GoogleExpiry(expireTime) * 1_000_000.0
  {
    var n := (expireTime * 1_000_000.0).Floor as real;
    assert n <= expireTime * 1_000_000.0 < n + 1.0;
  }

  /** A cache entry is gone the safety margin, less the delay of its write, before the token expires. */
  lemma EntryOutlivesNothing(cacheDuration: int, tokenExpiresAt: real, since: real, landed: real)
    requires EffectiveCacheTtl(cacheDuration, tokenExpiresAt, since) > 0
    ensures landed + EffectiveCacheTtl(cacheDuration, tokenExpiresAt, since) as real
            <= tokenExpiresAt - (TOKEN_EXPIRY_SAFETY_MARGIN_SECONDS as real - (landed - since))
  {
    EffectiveCacheTtlIsLargest(cacheDuration, tokenExpiresAt, since, EffectiveCacheTtl(cacheDuration, tokenExpiresAt, since));
  }

  /** A Google token of the minimum lifetime or more, minted within the deadline, is always cached. */
  lemma GcpTokenIsCached(cacheDuration: int, lifetime: int, startedAt: real, issuedAt: real, now: real)
    requires cacheDuration >= 1 && lifetime >= GCP_MIN_LIFETIME_SECONDS
    requires startedAt <= issuedAt && now <= startedAt + MINT_DEADLINE_SECONDS
    ensures EffectiveCacheTtl(cacheDuration, GoogleExpiry(issuedAt + lifetime as real), now)
            >= Min(cacheDuration, lifetime - 67)
    ensures EffectiveCacheTtl(cacheDuration, GoogleExpiry(issuedAt + lifetime as real), now) > 0
  {
    GoogleExpiryIsEarly(issuedAt + lifetime as real);
    EffectiveCacheTtlIsLargest(cacheDuration, GoogleExpiry(issuedAt + lifetime as real), now, Min(cacheDuration, lifetime - 67));
  }
}
