/** Acquiring a Redis connection: pings with capped exponential backoff while the server reports too many connections. */
module RedisRetry {
  datatype Ping = Pong | TooManyConnections | OtherError
  datatype Acquired = Client | NoClient | Error(ping: Ping)

  /** `0.1 * 1.5 ** k` */
  function Growth(k: nat): (g: real)
    ensures g > 0.0
  {
    if k == 0 then 0.1 else 1.5 * Growth(k - 1)
  }

  /** `min(0.1 * 1.5 ** k, 1.0)` */
  function Backoff(k: nat): (b: real)
    ensures 0.0 < b <= 1.0
  {
    if Growth(k) < 1.0 then Growth(k) else 1.0
  }

  /** A backoff times its jitter, which `0.8 + 0.4 * random.random()` keeps within [0.8, 1.2). */
  function Scaled(backoff: real, jitter: real): (t: real)
    requires backoff > 0.0 && 0.8 <= jitter < 1.2
    ensures 0.8 * backoff <= t < 1.2 * backoff
  {
    backoff * jitter
  }

  /** The sleep before the k-th retry. */
  function Sleep(k: nat, random: real): (t: real)
    requires 0.0 <= random < 1.0
    ensures 0.8 * Backoff(k) <= t < 1.2 * Backoff(k)
  {
    Scaled(Backoff(k), 0.8 + 0.4 * random)
  }

  /** The jitter is the random number itself, spread evenly over the span. */
  lemma SleepSpread(k: nat, random: real)
    requires 0.0 <= random < 1.0
    ensures Sleep(k, random) == 0.8 * Backoff(k) + random * (0.4 * Backoff(k))
  {
    Spread(Backoff(k), random);
  }

  lemma Spread(b: real, random: real)
    ensures b * (0.8 + 0.4 * random) == 0.8 * b + random * (0.4 * b)
  {
  }

  /** The sleeps before the first `n` retries. */
  function TotalSleep(n: nat, jitter: nat -> real): real
    requires forall i: nat :: 0.0 <= jitter(i) < 1.0
  {
    if n == 0 then 0.0 else TotalSleep(n - 1, jitter) + Sleep(n, jitter(n))
  }

  /** The backoffs of the first `n` retries. */
  function TotalBackoff(n: nat): (t: real)
    ensures t >= 0.0
  {
    if n == 0 then 0.0 else TotalBackoff(n - 1) + Backoff(n)
  }

  /** Every ping before the k-th was refused for too many connections. */
  ghost predicate RefusedBefore(ping: nat -> Ping, k: nat) {
    forall i | 0 <= i < k :: ping(i).TooManyConnections?
  }

  /**
   `ping(i)` is the outcome of the i-th ping and `jitter(i)` the random number drawn before the i-th retry.
   The trailing `return None` is reached only without a client or with a negative `maxRetries`.
   */
  method AcquireRedisConnection(hasClient: bool, maxRetries: int, ping: nat -> Ping, jitter: nat -> real)
    returns (r: Acquired, pings: nat, slept: real)
    requires forall i: nat :: 0.0 <= jitter(i) < 1.0
    ensures r.NoClient? <==> !hasClient || maxRetries < 0
    ensures r.NoClient? ==> pings == 0 && slept == 0.0
    ensures !r.NoClient? ==>
              && 1 <= pings <= maxRetries + 1 && RefusedBefore(ping, pings - 1)
              && (r.Client? <==> ping(pings - 1).Pong?) && (r.Error? ==> r.ping == ping(pings - 1))
              && (r.Error? && r.ping.TooManyConnections? ==> pings == maxRetries + 1)
    ensures pings > 0 ==> 0.8 * TotalBackoff(pings - 1) <= slept <= 1.2 * TotalBackoff(pings - 1)
    ensures pings > 0 ==> slept == TotalSleep(pings - 1, jitter)
    ensures maxRetries > 0 ==> slept < 1.2 * TotalBackoff(maxRetries)
  {
    hide Growth, Backoff, Sleep, TotalBackoff;
    TotalBackoffStep(0);
    TotalBackoffGrows(0, if maxRetries < 0 then 0 else maxRetries);
    pings, slept := 0, 0.0;
    if !hasClient { return NoClient, pings, slept; }
    var retryCount := 0;
    while retryCount <= maxRetries
      invariant 0 <= retryCount == pings
      invariant maxRetries >= 0 ==> retryCount <= maxRetries
      invariant maxRetries < 0 ==> retryCount == 0
      invariant RefusedBefore(ping, retryCount)
      invariant slept == TotalSleep(retryCount, jitter)
      invariant 0.8 * TotalBackoff(retryCount) <= slept <= 1.2 * TotalBackoff(retryCount)
      invariant retryCount > 0 ==> slept < 1.2 * TotalBackoff(retryCount)
      decreases maxRetries + 1 - retryCount
    {
      TotalBackoffGrows(retryCount, maxRetries);
      var outcome := ping(retryCount);
      pings := pings + 1;
      match outcome {
        case Pong => return Client, pings, slept;
        case TooManyConnections =>
          if retryCount < maxRetries {
            retryCount := retryCount + 1;
            slept := slept + Sleep(retryCount, jitter(retryCount));
            assert TotalBackoff(retryCount) == TotalBackoff(retryCount - 1) + Backoff(retryCount) by {
              TotalBackoffStep(retryCount);
            }
          } else {
            return Error(outcome), pings, slept;
          }
        case OtherError => return Error(outcome), pings, slept;
      }
    }
    r := NoClient;
  }

  lemma TotalBackoffStep(n: nat)
    ensures TotalBackoff(0) == 0.0
    ensures n > 0 ==> TotalBackoff(n) == TotalBackoff(n - 1) + Backoff(n)
  {
  }

  lemma {:induction false} TotalBackoffGrows(m: nat, n: nat)
    requires m <= n
    ensures m < n ==> TotalBackoff(m) < TotalBackoff(n)
  {
    if m < n { TotalBackoffGrows(m, n - 1); }
  }

  /** For the default of eight retries that is 5.97375 s. */
  lemma DefaultSleepBound()
    ensures 1.2 * TotalBackoff(8) == 5.97375
  {
    assert Growth(1) == 0.15 && Growth(2) == 0.225 && Growth(3) == 0.3375;
    assert Growth(4) == 0.50625 && Growth(5) == 0.759375 && Growth(6) == 1.1390625;
    assert Growth(7) == 1.70859375 && Growth(8) == 2.562890625;
    assert TotalBackoff(1) == 0.15 && TotalBackoff(2) == 0.375 && TotalBackoff(3) == 0.7125;
    assert TotalBackoff(4) == 1.21875 && TotalBackoff(5) == 1.978125 && TotalBackoff(6) == 2.978125;
  }
}
