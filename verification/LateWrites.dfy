/**
 What is left of the one-mint-per-window property when Redis performs writes whose clients have given up: the last write
 still counts, but it may be a shorter one than the write before it.
 */
module LateWrites {
  import opened Text
  import opened CacheKey
  import opened CacheTtl
  import opened SecretValidation
  import opened AuthService

  /** No eviction of `k` and no failed second read for it; late landings and stored keys are allowed. */
  ghost predicate Calm(s: State, a: Action, k: Key) {
    match a
    case Evict(j) => j != k
    case RereadCache(c, outcome) => c < |s.requests| && KeyOf(s, c) == k ==> !outcome.Failed?
    case _ => true
  }

  ghost predicate IsCalmRun(s: State, acts: seq<Action>, t: State, k: Key)
    decreases |acts|
  {
    if acts == [] then s == t
    else Enabled(s, acts[0]) && Calm(s, acts[0], k) && IsCalmRun(Apply(s, acts[0]), acts[1..], t, k)
  }

  predicate WritesKey(e: Event, k: Key) { e.CacheWritten? && e.key == k }

  function WindowEnd(e: Event): real
    requires e.CacheWritten?
  {
    e.at + e.ttl as real
  }

  /** When the window of the last write for `k` ends. */
  function LastEnd(events: seq<Event>, k: Key): Option<real> {
    if events == [] then None
    else
      var last := events[|events| - 1];
      if WritesKey(last, k) then Some(WindowEnd(last)) else LastEnd(events[..|events| - 1], k)
  }

  /** By `now` every window is over that was open to the first `seen` events. */
  ghost predicate OverBy(events: seq<Event>, seen: nat, now: real, k: Key) {
    seen <= |events| && (LastEnd(events[..seen], k).Some? ==> now >= LastEnd(events[..seen], k).value)
  }

  /** A mint starts only after the windows Redis knew of when it answered the second read. */
  ghost predicate Respects(events: seq<Event>, j: nat, k: Key)
    requires j < |events|
  {
    events[j].MintStarted? && events[j].key == k ==> events[j].seen <= j && OverBy(events, events[j].seen, events[j].at, k)
  }

  /** A second read that found nothing. */
  predicate WillMint(pc: Pc) {
    pc.SecondRead? && pc.answer.Some? && Found(pc).None?
  }

  ghost predicate CalmInv(s: State, k: Key) {
    && |s.pcs| == |s.requests|
    && (forall c | 0 <= c < |s.requests| && KeyOf(s, c) == k :: s.requests[c].raw != "")
    && (k in s.cache <==> LastEnd(s.events, k).Some?)
    && (k in s.cache ==> s.cache[k].until == LastEnd(s.events, k).value)
    && (forall c | 0 <= c < |s.pcs| && KeyOf(s, c) == k && WillMint(s.pcs[c]) ::
          OverBy(s.events, s.pcs[c].answer.value.seen, s.now, k))
    && forall j | 0 <= j < |s.events| :: Respects(s.events, j, k)
  }

  lemma LastEndAppend(events: seq<Event>, e: Event, k: Key)
    ensures LastEnd(events + [e], k) == if WritesKey(e, k) then Some(WindowEnd(e)) else LastEnd(events, k)
  {
    assert (events + [e])[..|events|] == events;
  }

  lemma OverByAppend(events: seq<Event>, e: Event, seen: nat, now: real, later: real, k: Key)
    requires OverBy(events, seen, now, k) && now <= later
    ensures OverBy(events + [e], seen, later, k) && OverBy(events, seen, later, k)
  {
    assert (events + [e])[..seen] == events[..seen];
    hide LastEnd;
  }

  lemma RespectsAppend(events: seq<Event>, e: Event, k: Key)
    requires forall j | 0 <= j < |events| :: Respects(events, j, k)
    requires e.MintStarted? && e.key == k ==> OverBy(events, e.seen, e.at, k)
    ensures forall j | 0 <= j < |events + [e]| :: Respects(events + [e], j, k)
  {
    var all := events + [e];
    forall j | 0 <= j < |all| ensures Respects(all, j, k) {
      if j < |events| { assert Respects(events, j, k); }
      if all[j].MintStarted? && all[j].key == k { OverByAppend(events, e, all[j].seen, all[j].at, all[j].at, k); }
    }
  }

  /**
   A step logs at most one event; only a landing changes the entry of `k`; a mint for it starts only from a second read
   that found nothing, and a second read finds nothing only when there is no live entry.
   */
  ghost predicate Shape(s: State, t: State, k: Key, e: Option<Event>) {
    && |t.pcs| == |s.pcs| && t.requests == s.requests && t.now >= s.now
    && t.events == (if e.Some? then s.events + [e.value] else s.events)
    && (e.Some? && e.value.MintStarted? && e.value.key == k ==>
          exists c | 0 <= c < |s.pcs| && c < |s.requests| ::
            KeyOf(s, c) == k && WillMint(s.pcs[c]) && e.value.seen == s.pcs[c].answer.value.seen && e.value.at == s.now)
    && (e.Some? && WritesKey(e.value, k) ==> t.now == s.now && k in t.cache && t.cache[k].until == WindowEnd(e.value))
    && (!(e.Some? && WritesKey(e.value, k)) ==>
          (k in t.cache <==> k in s.cache) && (k in s.cache ==> t.cache[k] == s.cache[k]))
    && (forall c | 0 <= c < |t.pcs| && c < |t.requests| && KeyOf(t, c) == k && WillMint(t.pcs[c]) ::
          t.pcs[c] == s.pcs[c]
          || (e.None? && t.now == s.now && !Live(s, k) && t.pcs[c].answer.value.seen == |s.events|))
  }

  lemma StepShape(s: State, a: Action, k: Key) returns (e: Option<Event>)
    requires Enabled(s, a) && Calm(s, a, k)
    requires forall c | 0 <= c < |s.requests| && KeyOf(s, c) == k :: s.requests[c].raw != ""
    ensures Shape(s, Apply(s, a), k, e)
  {
    hide Apply, Enabled, Shape;
    if a.RereadCache? { e := RereadShape(s, a, k); }
    else if a.Land? || a.LateLand? { e := LandShape(s, a, k); }
    else if a.ReadCache? { e := ReadShape(s, a, k); }
    else if a.Look? { e := None; LookShape(s, a, k); }
    else { e := None; QuietShape(s, a, k); }
  }

  lemma RereadShape(s: State, a: Action, k: Key) returns (e: Option<Event>)
    requires Enabled(s, a) && a.RereadCache? && Calm(s, a, k)
    requires forall c | 0 <= c < |s.requests| && KeyOf(s, c) == k :: s.requests[c].raw != ""
    ensures Shape(s, Apply(s, a), k, e)
  {
    hide KeyAt, HeldBy, Live;
    var answer := s.pcs[a.c].answer;
    e := if a.outcome.TimedOut? then None
         else if a.outcome.Answered? && Found(s.pcs[a.c]).Some? then
           Some(Served(a.c, answer.value.found.value, answer.value.at, s.now))
         else Some(MintStarted(KeyOf(s, a.c), s.now, if answer.Some? then answer.value.seen else |s.events|));
    assert e.Some? && e.value.MintStarted? && e.value.key == k ==> WillMint(s.pcs[a.c]);
  }

  lemma ReadShape(s: State, a: Action, k: Key) returns (e: Option<Event>)
    requires Enabled(s, a) && a.ReadCache?
    ensures Shape(s, Apply(s, a), k, e)
  {
    hide KeyAt, Live, HeldBy;
    var answer := s.pcs[a.c].answer;
    e := if a.outcome.Answered? && Found(s.pcs[a.c]).Some? then
           Some(Served(a.c, answer.value.found.value, answer.value.at, s.now)) else None;
  }

  lemma LookShape(s: State, a: Action, k: Key)
    requires Enabled(s, a) && a.Look?
    ensures Shape(s, Apply(s, a), k, None)
  {
    hide KeyAt, Live;
  }

  lemma LandShape(s: State, a: Action, k: Key) returns (e: Option<Event>)
    requires Enabled(s, a) && (a.Land? || a.LateLand?)
    ensures Shape(s, Apply(s, a), k, e)
  {
    hide KeyAt, Live;
    e := Some(if a.Land? then CacheWritten(KeyOf(s, a.c), s.now, s.pcs[a.c].ttl)
              else CacheWritten(s.abandoned[a.i].key, s.now, s.abandoned[a.i].ttl));
  }

  lemma QuietShape(s: State, a: Action, k: Key)
    requires Enabled(s, a) && Calm(s, a, k)
    requires !a.RereadCache? && !a.ReadCache? && !a.Look? && !a.Land? && !a.LateLand?
    ensures Shape(s, Apply(s, a), k, None)
  {
    hide Apply, Enabled, Shape;
    if a.Verify? || a.MintDone? { BeginShape(s, a, k); }
    else if a.WriteDone? || a.CancelTask? || a.MintFailed? || a.Acquire? { EndShape(s, a, k); }
    else { EnvironmentShape(s, a, k); }
  }

  /** One coroutine moves on, and not to a second read that found nothing. */
  predicate MovesOn(s: State, t: State, c: nat) {
    && c < |s.pcs| == |t.pcs| && t.requests == s.requests && t.now == s.now && t.events == s.events && t.cache == s.cache
    && t.pcs == s.pcs[c := t.pcs[c]] && !WillMint(t.pcs[c])
  }

  lemma MovesOnShape(s: State, t: State, c: nat, k: Key)
    requires MovesOn(s, t, c)
    ensures Shape(s, t, k, None)
  {
    hide KeyAt, Live;
  }

  lemma BeginShape(s: State, a: Action, k: Key)
    requires Enabled(s, a) && (a.Verify? || a.MintDone?)
    ensures Shape(s, Apply(s, a), k, None)
  {
    assert MovesOn(s, Apply(s, a), a.c) by { hide KeyAt, HeldBy, ValidateSecret, StoredTtl, EffectiveCacheTtl; }
    hide Apply, Enabled, Shape;
    MovesOnShape(s, Apply(s, a), a.c, k);
  }

  lemma EndShape(s: State, a: Action, k: Key)
    requires Enabled(s, a) && (a.WriteDone? || a.CancelTask? || a.MintFailed? || a.Acquire?)
    ensures Shape(s, Apply(s, a), k, None)
  {
    assert MovesOn(s, Apply(s, a), a.c) by { hide HeldBy, Abandon; }
    hide Apply, Enabled, Shape;
    MovesOnShape(s, Apply(s, a), a.c, k);
  }

  lemma EnvironmentShape(s: State, a: Action, k: Key)
    requires Enabled(s, a) && Calm(s, a, k) && (a.Tick? || a.Evict? || a.CollectLock?)
    ensures Shape(s, Apply(s, a), k, None)
  {
    hide KeyAt, Live;
  }

  lemma ShapeKeepsInv(s: State, t: State, k: Key, e: Option<Event>)
    requires CalmInv(s, k) && Shape(s, t, k, e)
    ensures CalmInv(t, k)
  {
    forall c | 0 <= c < |t.requests| ensures KeyOf(t, c) == KeyOf(s, c) {}
    hide KeyAt, LastEnd;
    if e.Some? {
      LastEndAppend(s.events, e.value, k);
      RespectsAppend(s.events, e.value, k);
    }
    assert s.events[..|s.events|] == s.events;
    forall c | 0 <= c < |t.pcs| && KeyOf(t, c) == k && WillMint(t.pcs[c])
      ensures OverBy(t.events, t.pcs[c].answer.value.seen, t.now, k)
    {
      if t.pcs[c] == s.pcs[c] {
        OverByAppend(s.events, if e.Some? then e.value else MintStarted(k, 0.0, 0), t.pcs[c].answer.value.seen, s.now, t.now, k);
      }
    }
    hide Respects, OverBy;
  }

  lemma StepCalmInv(s: State, a: Action, k: Key)
    requires CalmInv(s, k) && Enabled(s, a) && Calm(s, a, k)
    ensures CalmInv(Apply(s, a), k)
  {
    var e := StepShape(s, a, k);
    hide Apply, Enabled, Shape, CalmInv;
    ShapeKeepsInv(s, Apply(s, a), k, e);
  }

  lemma {:induction false} RunCalmInv(s: State, acts: seq<Action>, t: State, k: Key)
    requires CalmInv(s, k) && IsCalmRun(s, acts, t, k)
    ensures CalmInv(t, k)
    decreases |acts|
  {
    hide CalmInv, Apply, Enabled;
    if acts != [] {
      StepCalmInv(s, acts[0], k);
      RunCalmInv(Apply(s, acts[0]), acts[1..], t, k);
    }
  }

  lemma {:induction false} LastEndIsOfAWrite(events: seq<Event>, k: Key, i: nat)
    requires i < |events| && WritesKey(events[i], k)
    ensures LastEnd(events, k).Some?
    ensures exists l | i <= l < |events| :: WritesKey(events[l], k) && LastEnd(events, k) == Some(WindowEnd(events[l]))
  {
    var last := |events| - 1;
    if !WritesKey(events[last], k) {
      LastEndIsOfAWrite(events[..last], k, i);
      var l :| i <= l < last && WritesKey(events[..last][l], k)
               && LastEnd(events[..last], k) == Some(WindowEnd(events[..last][l]));
      assert WritesKey(events[l], k);
    }
  }

  lemma InitCalmInv(requests: seq<Request>, cacheDuration: nat, k: Key)
    requires forall c | 0 <= c < |requests| && KeyAt(requests, c) == k :: requests[c].raw != ""
    ensures CalmInv(Init(requests, cacheDuration), k)
  {
  }

  /** Exactly when a key is live: from its last write, in time or late, until that write's window ends. */
  lemma LiveExactly(requests: seq<Request>, cacheDuration: nat, acts: seq<Action>, s: State, k: Key)
    requires forall c | 0 <= c < |requests| && KeyAt(requests, c) == k :: requests[c].raw != ""
    requires IsCalmRun(Init(requests, cacheDuration), acts, s, k)
    ensures Live(s, k) <==> LastEnd(s.events, k).Some? && s.now < LastEnd(s.events, k).value
  {
    InitCalmInv(requests, cacheDuration, k);
    RunCalmInv(Init(requests, cacheDuration), acts, s, k);
  }

  /**
   Exactly when an open window does not protect its key: a second read, answered inside the window of a write for `k`, finds
   nothing, and so leads to a mint, if and only if the last write for `k` is another one whose window is over.
   */
  lemma WindowIsBrokenExactly(
    requests: seq<Request>, cacheDuration: nat, acts: seq<Action>, s: State, k: Key, c: nat, i: nat)
    requires forall d | 0 <= d < |requests| && KeyAt(requests, d) == k :: requests[d].raw != ""
    requires IsCalmRun(Init(requests, cacheDuration), acts, s, k)
    requires i < |s.events| && WritesKey(s.events[i], k) && s.now < WindowEnd(s.events[i])
    requires Enabled(s, Look(c)) && KeyOf(s, c) == k && s.pcs[c].SecondRead?
    ensures LastEnd(s.events, k).Some?
    ensures WillMint(Apply(s, Look(c)).pcs[c]) <==> LastEnd(s.events, k).value <= s.now
    ensures WillMint(Apply(s, Look(c)).pcs[c]) ==>
              exists l | i < l < |s.events| ::
                WritesKey(s.events[l], k) && LastEnd(s.events, k) == Some(WindowEnd(s.events[l]))
  {
    LiveExactly(requests, cacheDuration, acts, s, k);
    LastEndIsOfAWrite(s.events, k, i);
    hide LastEnd, IsCalmRun;
  }

  /**
   Writes landing late, and writes that take no lock, can break into a window only one way: a mint for `k` whose second read
   Redis answered inside the window of an earlier write, or that starts inside it, starts after a later write whose own
   window is shorter, and not before that one's end. `i` is a write Redis had performed by then.
   */
  lemma WindowsEndWithTheLastWrite(
    requests: seq<Request>, cacheDuration: nat, acts: seq<Action>, s: State, k: Key, i: nat, j: nat)
    requires forall c | 0 <= c < |requests| && KeyAt(requests, c) == k :: requests[c].raw != ""
    requires IsCalmRun(Init(requests, cacheDuration), acts, s, k)
    requires j < |s.events| && s.events[j].MintStarted? && s.events[j].key == k
    requires i < s.events[j].seen && i < |s.events| && WritesKey(s.events[i], k)
    ensures s.events[j].seen <= j
    ensures exists l | i <= l < s.events[j].seen :: WritesKey(s.events[l], k) && s.events[j].at >= WindowEnd(s.events[l])
    ensures s.events[j].at < WindowEnd(s.events[i]) ==>
              exists l | i < l < s.events[j].seen ::
                WritesKey(s.events[l], k) && WindowEnd(s.events[l]) < WindowEnd(s.events[i])
  {
    InitCalmInv(requests, cacheDuration, k);
    RunCalmInv(Init(requests, cacheDuration), acts, s, k);
    assert Respects(s.events, j, k);
    var seen := s.events[j].seen;
    LastEndIsOfAWrite(s.events[..seen], k, i);
    var l :| i <= l < seen && WritesKey(s.events[..seen][l], k)
             && LastEnd(s.events[..seen], k) == Some(WindowEnd(s.events[..seen][l]));
    assert WritesKey(s.events[l], k) && s.events[j].at >= WindowEnd(s.events[l]);
  }

  // ---- a run in which a window is broken ----

  const KEY: Key := "payload\n"
  const SECRET: Secret := MintSecret("", "arn:aws:iam::123456789012:role/federation/x")
  const THREE: seq<Request> := [REQUEST, REQUEST, REQUEST]
  const REQUEST: Request := Request("payload", None, None)
  const START: State := Init(THREE, 300)

  lemma {:induction false} CalmSnoc(s: State, acts: seq<Action>, t: State, a: Action, k: Key)
    requires IsCalmRun(s, acts, t, k) && Enabled(t, a) && Calm(t, a, k)
    ensures IsCalmRun(s, acts + [a], Apply(t, a), k)
    decreases |acts|
  {
    hide Enabled, Apply, Calm;
    if acts == [] {
      assert [a][1..] == [] && [] + [a] == [a];
      EmptyCalmRun(Apply(t, a), k);
    } else {
      CalmSnoc(Apply(s, acts[0]), acts[1..], t, a, k);
      assert (acts + [a])[1..] == acts[1..] + [a];
    }
  }

  lemma EmptyCalmRun(s: State, k: Key)
    ensures IsCalmRun(s, [], s, k)
  {
  }

  /** A state of the run: nobody holds a lock. */
  ghost predicate Between(acts: seq<Action>, s: State) {
    IsCalmRun(START, acts, s, KEY) && s.requests == THREE && |s.pcs| == 3 && s.cacheDuration == 300 && s.owners == map[]
  }

  /** The state after `c`'s second read found nothing. */
  function Started(s: State, t: State, c: nat): State
    requires c < |t.pcs| == |s.pcs| && t.pcs[c].Minting?
  {
    s.(pcs := s.pcs[c := Minting(t.pcs[c].lock, SECRET)], locks := t.locks, nextLock := t.nextLock,
       owners := map[t.pcs[c].lock := c], events := s.events + [MintStarted(KEY, s.now, |s.events|)])
  }

  lemma Misses(acts: seq<Action>, s: State, c: nat) returns (longer: seq<Action>, t: State)
    requires Between(acts, s) && c < 3 && s.pcs[c] == FirstRead(None) && !Live(s, KEY)
    ensures IsCalmRun(START, longer, t, KEY) && t == Goto(s, c, Verifying)
  {
    assert KeyOf(s, c) == KEY;
    hide IsCalmRun, KeyAt;
    var s1 := Apply(s, Look(c));
    assert s1 == s.(pcs := s.pcs[c := FirstRead(Some(Answer(None, s.now, |s.events|)))]);
    hide Live;
    CalmSnoc(START, acts, s, Look(c), KEY);
    CalmSnoc(START, acts + [Look(c)], s1, ReadCache(c, Answered), KEY);
    t := Apply(s1, ReadCache(c, Answered));
    assert s1.pcs[c := Verifying] == s.pcs[c := Verifying];
    longer := acts + [Look(c)] + [ReadCache(c, Answered)];
  }

  lemma AsksForLock(acts: seq<Action>, s: State, c: nat) returns (longer: seq<Action>, t: State)
    requires Between(acts, s) && c < 3 && s.pcs[c] == FirstRead(None) && !Live(s, KEY)
    ensures IsCalmRun(START, longer, t, KEY) && |t.pcs| == 3 && t.pcs[c].AwaitingLock?
    ensures t == s.(pcs := s.pcs[c := AwaitingLock(t.pcs[c].lock, SECRET)], locks := t.locks, nextLock := t.nextLock)
  {
    var before, s1 := Misses(acts, s, c);
    ValidateExactly(SECRET, REQUEST.target);
    hide IsCalmRun, KeyAt, Live, ValidateSecret, HostAllows, StoredTtl;
    t := Apply(s1, Verify(c, Some(SECRET)));
    CalmSnoc(START, before, s1, Verify(c, Some(SECRET)), KEY);
    longer := before + [Verify(c, Some(SECRET))];
  }

  lemma TakesLock(acts: seq<Action>, s: State, c: nat) returns (longer: seq<Action>, t: State)
    requires Between(acts, s) && c < 3 && s.pcs[c] == FirstRead(None) && !Live(s, KEY)
    ensures IsCalmRun(START, longer, t, KEY) && |t.pcs| == 3 && t.pcs[c].SecondRead?
    ensures var lock := t.pcs[c].lock;
            t == s.(pcs := s.pcs[c := SecondRead(lock, SECRET, None)], locks := t.locks, nextLock := t.nextLock,
                    owners := map[lock := c])
  {
    var before, s1 := AsksForLock(acts, s, c);
    t := Apply(s1, Acquire(c));
    hide IsCalmRun;
    CalmSnoc(START, before, s1, Acquire(c), KEY);
    longer := before + [Acquire(c)];
  }

  lemma StartsMint(acts: seq<Action>, s: State, c: nat) returns (longer: seq<Action>, t: State)
    requires Between(acts, s) && c < 3 && s.pcs[c] == FirstRead(None) && !Live(s, KEY)
    ensures IsCalmRun(START, longer, t, KEY) && |t.pcs| == 3 && t.pcs[c].Minting? && t == Started(s, t, c)
  {
    var before, s1 := TakesLock(acts, s, c);
    assert KeyOf(s1, c) == KEY;
    hide IsCalmRun, KeyAt;
    var s2 := Apply(s1, Look(c));
    assert s2 == s1.(pcs := s1.pcs[c := SecondRead(s1.pcs[c].lock, SECRET, Some(Answer(None, s.now, |s.events|)))]);
    hide Live;
    CalmSnoc(START, before, s1, Look(c), KEY);
    CalmSnoc(START, before + [Look(c)], s2, RereadCache(c, Answered), KEY);
    t := Apply(s2, RereadCache(c, Answered));
    longer := before + [Look(c)] + [RereadCache(c, Answered)];
  }

  /** The mint of `c` ends with a token that expires `ttl + 60` seconds from now. */
  lemma BeginsWrite(acts: seq<Action>, s: State, c: nat, ttl: nat) returns (longer: seq<Action>, t: State, grant: Grant)
    requires IsCalmRun(START, acts, s, KEY) && s.requests == THREE && |s.pcs| == 3 && s.cacheDuration == 300
    requires c < 3 && s.pcs[c].Minting? && 0 < ttl <= 300
    ensures IsCalmRun(START, longer, t, KEY) && grant.providerUntil.Some?
    ensures t == s.(pcs := s.pcs[c := Writing(Some(s.pcs[c].lock), grant, ttl, s.now, false)])
  {
    var expiry := s.now + (ttl + 60) as real;
    var a := MintDone(c, "token", expiry, expiry);
    assert EffectiveCacheTtl(300, expiry, s.now) == ttl;
    grant := Grant("token", s.pcs[c].secret, c, Some(expiry), Some(expiry));
    hide EffectiveCacheTtl, IsCalmRun;
    t := Apply(s, a);
    CalmSnoc(START, acts, s, a, KEY);
    longer := acts + [a];
  }

  /** It is written in time, and the lock released. */
  lemma Writes(acts: seq<Action>, s: State, c: nat, ttl: nat) returns (longer: seq<Action>, t: State)
    requires IsCalmRun(START, acts, s, KEY) && s.requests == THREE && |s.pcs| == 3 && s.cacheDuration == 300
    requires c < 3 && s.pcs[c].Minting? && s.owners == map[s.pcs[c].lock := c] && 0 < ttl <= 300
    ensures Between(longer, t) && t.now == s.now && t.abandoned == s.abandoned
    ensures forall d | 0 <= d < 3 && d != c :: t.pcs[d] == s.pcs[d]
    ensures t.events == s.events + [CacheWritten(KEY, s.now, ttl)]
  {
    var before, s1, grant := BeginsWrite(acts, s, c, ttl);
    assert KeyOf(s1, c) == KEY;
    hide IsCalmRun, KeyAt;
    var s2 := Apply(s1, Land(c));
    t := Apply(s2, WriteDone(c));
    CalmSnoc(START, before, s1, Land(c), KEY);
    CalmSnoc(START, before + [Land(c)], s2, WriteDone(c), KEY);
    longer := before + [Land(c)] + [WriteDone(c)];
  }

  /** Or its coroutine is cancelled, which releases the lock and leaves the write on the wire. */
  lemma GivesUp(acts: seq<Action>, s: State, c: nat, ttl: nat) returns (longer: seq<Action>, t: State)
    requires IsCalmRun(START, acts, s, KEY) && s.requests == THREE && |s.pcs| == 3 && s.cacheDuration == 300
    requires c < 3 && s.pcs[c].Minting? && s.owners == map[s.pcs[c].lock := c] && 0 < ttl <= 300
    ensures Between(longer, t) && t.now == s.now && t.events == s.events && t.cache == s.cache
    ensures forall d | 0 <= d < 3 && d != c :: t.pcs[d] == s.pcs[d]
    ensures |t.abandoned| == |s.abandoned| + 1
            && t.abandoned[|s.abandoned|].key == KEY && t.abandoned[|s.abandoned|].ttl == ttl
  {
    var before, s1, grant := BeginsWrite(acts, s, c, ttl);
    assert KeyOf(s1, c) == KEY;
    hide IsCalmRun, KeyAt, ValidateSecret, StoredTtl, Lookup, Live;
    t := Apply(s1, CancelTask(c));
    CalmSnoc(START, before, s1, CancelTask(c), KEY);
    longer := before + [CancelTask(c)];
  }

  /** The abandoned write lands late, and time passes. */
  lemma LandsLate(acts: seq<Action>, s: State, dt: real) returns (longer: seq<Action>, t: State)
    requires Between(acts, s) && |s.abandoned| == 1 && s.abandoned[0].key == KEY && dt >= s.abandoned[0].ttl as real >= 0.0
    ensures Between(longer, t) && t.pcs == s.pcs && t.now == s.now + dt && !Live(t, KEY)
    ensures t.events == s.events + [CacheWritten(KEY, s.now, s.abandoned[0].ttl)]
  {
    hide IsCalmRun;
    var s1 := Apply(s, LateLand(0));
    t := Apply(s1, Tick(dt));
    CalmSnoc(START, acts, s, LateLand(0), KEY);
    CalmSnoc(START, acts + [LateLand(0)], s1, Tick(dt), KEY);
    longer := acts + [LateLand(0)] + [Tick(dt)];
  }

  /** The first request mints and gives up its write; the second mints and writes. */
  lemma OneWriteOnTheWire() returns (acts: seq<Action>, s: State)
    ensures Between(acts, s) && s.pcs[2] == FirstRead(None) && s.now == 0.0
    ensures |s.events| == 3 && s.events[2] == CacheWritten(KEY, 0.0, 300)
    ensures |s.abandoned| == 1 && s.abandoned[0].key == KEY && s.abandoned[0].ttl == 10
  {
    EmptyCalmRun(START, KEY);
    var acts1, s1 := StartsMint([], START, 0);
    var acts2, s2 := GivesUp(acts1, s1, 0, 10);
    hide IsCalmRun, KeyAt, Enabled, Apply;
    var acts3, s3 := StartsMint(acts2, s2, 1);
    acts, s := Writes(acts3, s3, 1, 300);
  }

  /**
   One mint per window fails when writes land late. The first request's mint gives a short TTL and its write is abandoned;
   the second's is written for 300 s; the abandoned write lands over it; and 20 s later the third request mints.
   */
  lemma LateWriteBreaksWindow() returns (acts: seq<Action>, s: State, i: nat, j: nat)
    ensures IsCalmRun(Init(THREE, 300), acts, s, KEY)
    ensures i < j < |s.events| && WritesKey(s.events[i], KEY)
    ensures s.events[j].MintStarted? && s.events[j].key == KEY && s.events[j].at < WindowEnd(s.events[i])
  {
    var acts1, s1 := OneWriteOnTheWire();
    hide IsCalmRun, KeyAt, Enabled, Apply, Live;
    var acts2, s2 := LandsLate(acts1, s1, 20.0);
    acts, s := StartsMint(acts2, s2, 2);
    i, j := 2, 4;
  }
}
