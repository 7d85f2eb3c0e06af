/**
 What a mint's outcome says about the answers it got: which replies mint, what the returned token and the logged user were
 taken from, what STS is asked for, who gets that far, and which answers lead to which error.
 */
module MintOutcomes {
  import opened Text
  import opened CacheTtl
  import opened FederationRole
  import opened TokenMint
  import Arn

  // ---- one reply ----

  /** A 200 response with an access token that lives. */
  predicate Grants(reply: Reply) {
    && reply.Response? && reply.status == 200 && reply.body.Some?
    && reply.body.value.accessToken.Some? && reply.body.value.accessToken != Some("")
    && reply.body.value.expiresIn.Some? && reply.body.value.expiresIn.value > 0
  }

  predicate GrantsGoogle(reply: Reply) {
    && reply.Response? && reply.status == 200 && reply.body.Some?
    && reply.body.value.googleToken.Some? && reply.body.value.googleToken != Some("")
    && reply.body.value.expireTime.Some?
  }

  /** What any other reply raises. */
  function Refusal(reply: Reply): Error {
    if reply.TransportFailure? || reply.status >= 500 || reply.status == 429 then UpstreamServiceError
    else AuthenticationError
  }

  /**
   The reply to the exchange mints exactly if it grants a token, and then that one: it is reported to expire `expiresIn`
   seconds after the request was sent, and the provider accepts it until as long after it was issued. For Google the token
   is sent on as the bearer of a second hop. Every reply counts that arrives within 6 s of the mint's start.
   */
  lemma ExchangeReply(s: State, m: nat, reply: Reply, issuedAt: real)
    requires m < |s.phases| == |s.requests| && s.phases[m].Exchanging? && s.now < s.phases[m].startedAt + 6.0
    requires s.phases[m].requestedAt <= issuedAt <= s.now
    ensures Enabled(s, OnReply(m, reply, issuedAt)) && |Apply(s, OnReply(m, reply, issuedAt)).phases| == |s.phases|
    ensures var p, q := s.phases[m], Apply(s, OnReply(m, reply, issuedAt)).phases[m];
            if !Grants(reply) then q == Raised(Refusal(reply), p)
            else
              var token, lifetime := reply.body.value.accessToken.value, reply.body.value.expiresIn.value as real;
              q == if s.requests[m].kind == GcpWif then Impersonating(p.startedAt, p.identity, p.proof, token)
                   else Minted(p.startedAt, p.identity, p.proof, "", token, p.requestedAt + lifetime, issuedAt + lifetime, s.now)
  {
  }

  /** The reply to the second hop mints exactly if it holds Google's token and expiry, which is at most a microsecond cut. */
  lemma ImpersonationReply(s: State, m: nat, reply: Reply, issuedAt: real)
    requires m < |s.phases| == |s.requests| && s.phases[m].Impersonating? && s.now < s.phases[m].startedAt + 6.0
    ensures Enabled(s, OnReply(m, reply, issuedAt)) && |Apply(s, OnReply(m, reply, issuedAt)).phases| == |s.phases|
    ensures var p, q := s.phases[m], Apply(s, OnReply(m, reply, issuedAt)).phases[m];
            if !GrantsGoogle(reply) then q == Raised(Refusal(reply), p)
            else
              var token, until := reply.body.value.googleToken.value, reply.body.value.expireTime.value;
              && q == Minted(p.startedAt, p.identity, p.proof, p.bearer, token, q.expiresAt, until, s.now)
              && until - 0.000_001 < q.expiresAt <= until
              && (q.expiresAt * 1_000_000.0).Floor as real == q.expiresAt * 1_000_000.0
  {
    if GrantsGoogle(reply) { GoogleExpiryIsEarly(reply.body.value.expireTime.value); }
    hide GoogleExpiry;
  }

  // ---- over a run ----

  ghost predicate Replied(acts: seq<Action>, m: nat, b: Body, issuedAt: real) {
    OnReply(m, Response(200, Some(b)), issuedAt) in acts
  }

  ghost predicate RoleAssumed(acts: seq<Action>, m: nat, at: real, sourceIdentity: Option<string>) {
    OnRole(m, Assumed(at, sourceIdentity)) in acts
  }

  /** The user is the source identity STS answered with, or else the caller's role. */
  ghost predicate UserTold(acts: seq<Action>, m: nat, identity: Identity) {
    exists at, sourceIdentity :: RoleAssumed(acts, m, at, sourceIdentity)
      && identity.user == match sourceIdentity
                          case None => identity.principal
                          case Some(user) => if user == "" then identity.principal else user
  }

  ghost predicate BearerTold(acts: seq<Action>, m: nat, bearer: string) {
    exists b, issuedAt :: Replied(acts, m, b, issuedAt) && b.accessToken == Some(bearer)
  }

  /** The token and its end stand in one reply. */
  ghost predicate TokenTold(acts: seq<Action>, m: nat, google: bool, token: string, until: real) {
    exists b, issuedAt :: Replied(acts, m, b, issuedAt)
      && if google then b.googleToken == Some(token) && b.expireTime == Some(until)
         else b.accessToken == Some(token) && b.expiresIn.Some? && until == issuedAt + b.expiresIn.value as real
  }

  ghost predicate Told(acts: seq<Action>, m: nat, kind: SecretKind, p: Phase) {
    && (p.Proving? || HasProof(p) ==> UserTold(acts, m, p.identity))
    && (p.Impersonating? ==> BearerTold(acts, m, p.bearer))
    && (p.Minted? ==>
          && TokenTold(acts, m, kind == GcpWif, p.token, p.providerUntil)
          && (if kind == GcpWif then BearerTold(acts, m, p.bearer) else p.bearer == ""))
  }

  ghost predicate AllTold(acts: seq<Action>, s: State) {
    && |s.phases| == |s.requests|
    && forall m | 0 <= m < |s.phases| :: KindOk(s.requests[m], s.phases[m]) && Told(acts, m, s.requests[m].kind, s.phases[m])
  }

  /** A step moves the phase of its own mint only. */
  function Mover(a: Action): Option<nat> {
    if a.Tick? then None else Some(a.m)
  }

  lemma OthersStay(s: State, a: Action, m: nat)
    requires Enabled(s, a) && m < |s.phases| && Mover(a) != Some(m)
    ensures Apply(s, a).phases[m] == s.phases[m]
  {
    hide Admit, ParseOAuth, ParseGoogle, PostJson, OAuthExpiry, GoogleExpiry, IdentityFor, RouteOf;
  }

  lemma StepKeeps(s: State, a: Action)
    requires Enabled(s, a)
    ensures Apply(s, a).requests == s.requests && Apply(s, a).config == s.config && |Apply(s, a).phases| == |s.phases|
  {
    hide Admit, ParseOAuth, ParseGoogle, PostJson, OAuthExpiry, GoogleExpiry, IdentityFor, RouteOf;
  }

  lemma ReplyTold(acts: seq<Action>, s: State, m: nat, reply: Reply, issuedAt: real)
    requires AllTold(acts, s) && Enabled(s, OnReply(m, reply, issuedAt)) && OnReply(m, reply, issuedAt) in acts
    ensures |Apply(s, OnReply(m, reply, issuedAt)).phases| == |s.phases|
    ensures Told(acts, m, s.requests[m].kind, Apply(s, OnReply(m, reply, issuedAt)).phases[m])
  {
    assert KindOk(s.requests[m], s.phases[m]) && Told(acts, m, s.requests[m].kind, s.phases[m]);
    hide Apply, UserTold;
    if s.phases[m].Exchanging? {
      ExchangeReply(s, m, reply, issuedAt);
      if Grants(reply) { assert Replied(acts, m, reply.body.value, issuedAt); }
    } else {
      ImpersonationReply(s, m, reply, issuedAt);
      if GrantsGoogle(reply) { assert Replied(acts, m, reply.body.value, issuedAt); }
    }
  }

  lemma MoveTold(acts: seq<Action>, s: State, a: Action)
    requires AllTold(acts, s) && Enabled(s, a) && Mover(a).Some? && !a.OnReply? && a in acts
    ensures |Apply(s, a).phases| == |s.phases|
    ensures Told(acts, a.m, s.requests[a.m].kind, Apply(s, a).phases[a.m])
  {
    assert Told(acts, a.m, s.requests[a.m].kind, s.phases[a.m]);
    if a.OnRole? && a.role.Assumed? {
      assert RoleAssumed(acts, a.m, a.role.at, a.role.sourceIdentity);
    }
    hide Admit, RouteOf, Arn.CallerProject, BearerTold, TokenTold;
  }

  lemma StepTold(acts: seq<Action>, s: State, a: Action)
    requires Inv(s) && AllTold(acts, s) && Enabled(s, a) && a in acts
    ensures AllTold(acts, Apply(s, a)) && Inv(Apply(s, a))
  {
    var t := Apply(s, a);
    StepInv(s, a);
    StepKeeps(s, a);
    KindsOk(t);
    hide Inv, Apply, Enabled, Told, KindOk;
    forall m | 0 <= m < |t.phases| ensures Told(acts, m, t.requests[m].kind, t.phases[m]) {
      if Mover(a) != Some(m) { OthersStay(s, a, m); }
      else if a.OnReply? { ReplyTold(acts, s, m, a.reply, a.issuedAt); }
      else { MoveTold(acts, s, a); }
    }
  }

  lemma KindsOk(s: State)
    requires Inv(s)
    ensures |s.phases| == |s.requests| && forall m | 0 <= m < |s.phases| :: KindOk(s.requests[m], s.phases[m])
  {
    forall m | 0 <= m < |s.phases| ensures KindOk(s.requests[m], s.phases[m]) { assert MintOk(s, m); }
  }

  lemma {:induction false} RunTold(all: seq<Action>, s: State, acts: seq<Action>, t: State)
    requires Inv(s) && AllTold(all, s) && IsRun(s, acts, t) && forall a | a in acts :: a in all
    ensures AllTold(all, t) && t.requests == s.requests
    decreases |acts|
  {
    hide Inv, AllTold, Enabled, Apply;
    if acts != [] {
      StepTold(all, s, acts[0]);
      StepKeeps(s, acts[0]);
      RunTold(all, Apply(s, acts[0]), acts[1..], t);
    }
  }

  /**
   Over any run: a returned token is the one a 200 reply to that mint named, with the end that reply gave it; Google's second
   hop carried the token of an earlier reply; and the user is the one STS named when it let that mint assume the role.
   */
  lemma ReturnsWhatWasReplied(config: Config, requests: seq<Request>, acts: seq<Action>, s: State, m: nat)
    requires IsRun(Init(config, requests), acts, s) && m < |s.phases|
    ensures |s.phases| == |requests|
    ensures s.phases[m].Minted? ==>
              && TokenTold(acts, m, requests[m].kind == GcpWif, s.phases[m].token, s.phases[m].providerUntil)
              && (requests[m].kind == GcpWif ==> BearerTold(acts, m, s.phases[m].bearer))
              && UserTold(acts, m, s.phases[m].identity)
  {
    var start := Init(config, requests);
    InitInv(config, requests);
    assert AllTold(acts, start);
    RunTold(acts, start, acts, s);
    assert Told(acts, m, s.requests[m].kind, s.phases[m]);
  }

  // ---- what STS is asked for, and by whom ----

  /**
   Every AssumeRole names the secret's role and the caller's own; every identity token is for the secret's audience, signed
   with ES384 and valid for 1800 s for OpenAI, with RS256 and for 900 s for the others.
   */
  lemma StsIsAsked(s: State, i: nat)
    requires Reachable(s) && i < |s.events|
    ensures var e := s.events[i];
            && e.mint < |s.requests|
            && var r := s.requests[e.mint];
            && r.kind != Unrouted && Arn.CallerRoleName(r.principal).Ok?
            && (e.AssumeRole? ==> e == AssumeRole(e.mint, r.roleArn, Arn.CallerRoleName(r.principal).value))
            && (e.GetWebIdentityToken? ==>
                  e == if r.kind == OpenAiWif then GetWebIdentityToken(e.mint, r.audience, ES384, 1800)
                       else GetWebIdentityToken(e.mint, r.audience, RS256, 900))
            && (e.Exchange? ==> e.provider == r.kind)
            && (e.Impersonate? ==> r.kind == GcpWif)
  {
    ReachableInv(s);
    Located(s, i);
    var m := s.events[i].mint;
    var p := Reached(s.phases[m]);
    var before := Trace(s.events[..i], m);
    assert KindOk(s.requests[m], p) && Admitted(s, m);
    hide Inv, MintOk, Trace, Attempt, ValidateFederationRoleArn, Arn.CallerRoleName, Arn.CallerSession, KindOk, Reached, RouteOf;
    var attempt := Attempt(s.config, s.requests[m], m, p);
    assert attempt[|before|] == (before + [s.events[i]])[|before|] == s.events[i];
    Asked(s.config, s.requests[m], m, p, |before|);
  }

  lemma Asked(config: Config, r: Request, m: nat, p: Phase, k: nat)
    requires k < |Attempt(config, r, m, p)| && KindOk(r, p) && Admit(config, r).Good?
    ensures var e := Attempt(config, r, m, p)[k];
            && r.kind != Unrouted
            && (e.AssumeRole? ==> e == AssumeRole(m, r.roleArn, Admit(config, r).value.0))
            && (e.GetWebIdentityToken? ==>
                  e == if r.kind == OpenAiWif then GetWebIdentityToken(m, r.audience, ES384, 1800)
                       else GetWebIdentityToken(m, r.audience, RS256, 900))
            && (e.Exchange? ==> e.provider == r.kind)
            && (e.Impersonate? ==> r.kind == GcpWif)
  {
    RouteFound(config, r);
    hide Admit;
  }

  /**
   Who is admitted, for a principal read from any text: the role must be an accepted one and the secret's type have a route;
   the text must have an assumed role with a legal name and a session; and STS's endpoint must be known.
   */
  lemma AdmittedExactly(config: Config, r: Request, arn: string, parts: seq<string>, segments: seq<string>)
    requires r.principal == Arn.ParseIdentityFromArn(arn)
    requires Arn.PartsOf(arn, ':', parts) && (|parts| >= 6 ==> Arn.PartsOf(parts[5], '/', segments))
    ensures var accepted := ValidateFederationRoleArn(r.roleArn, config.allowedAccountIds, config.rolePathPrefix) == Accepted;
            var named := Arn.Occurs(arn, "assumed-role") && |parts| >= 6 && |segments| >= 3
                         && 2 <= |segments[1]| <= 64 && (forall c | c in segments[1] :: Arn.IsNameChar(c)) && segments[2] != "";
            Admit(config, r) ==
            if !accepted || r.kind == Unrouted then Bad(AuthenticationError)
            else if !named then Bad(CredentialsError)
            else if !config.hasStsEndpoint then Bad(ConfigurationError)
            else Good((segments[1], segments[2]))
  {
    Arn.CallersExactly(arn, parts, segments);
    hide ValidateFederationRoleArn, Arn.CallerRoleName, Arn.CallerSession, Arn.ParseIdentityFromArn, Arn.Occurs, Arn.PartsOf;
  }

  /** So in every run whatever a mint sends, it sends for a caller whose ARN is that of an assumed role. */
  lemma OnlyAssumedRolesMint(s: State, i: nat, arn: string, parts: seq<string>, segments: seq<string>)
    requires Reachable(s) && i < |s.events| && s.events[i].mint < |s.requests|
    requires s.requests[s.events[i].mint].principal == Arn.ParseIdentityFromArn(arn)
    requires Arn.PartsOf(arn, ':', parts) && (|parts| >= 6 ==> Arn.PartsOf(parts[5], '/', segments))
    ensures Arn.Occurs(arn, "assumed-role") && |parts| >= 6 && |segments| >= 3 && segments[2] != ""
    ensures s.events[i].AssumeRole? ==> s.events[i].sessionName == segments[1]
    ensures s.events[i].MintLogged? ==>
              s.events[i].identity.principal == segments[1] && s.events[i].identity.session == segments[2]
  {
    ReachableInv(s);
    Located(s, i);
    StsIsAsked(s, i);
    var m := s.events[i].mint;
    AdmittedExactly(s.config, s.requests[m], arn, parts, segments);
    assert Admitted(s, m);
    if s.events[i].MintLogged? {
      LoggedTrace(s, i);
      assert IdentityOk(s.config, s.requests[m], s.phases[m]);
    }
    hide Inv, Trace, Attempt, ValidateFederationRoleArn, Arn.CallerProject, Arn.ParseIdentityFromArn, Arn.Occurs, Arn.PartsOf;
  }

  // ---- which answers end a mint how ----

  predicate Ends(config: Config, r: Request, a: Action, m: nat, error: Error)
    requires error != AuthenticationError
  {
    match error
    case Cancelled => a == CancelTask(m)
    case ConfigurationError => a == Begin(m) && Admit(config, r) == Bad(error)
    case CredentialsError => (a == Begin(m) && Admit(config, r) == Bad(error)) || a == OnRole(m, RoleRefused("ExpiredToken"))
    case UpstreamServiceError => SaysUnavailable(a, m)
  }

  predicate Over(p: Phase) { p.Minted? || p.Raised? }

  lemma EndsStep(s: State, a: Action, m: nat, error: Error)
    requires Enabled(s, a) && m < |s.phases| && m < |s.requests| && !Over(s.phases[m]) && error != AuthenticationError
    ensures |Apply(s, a).phases| == |s.phases|
    ensures Apply(s, a).phases[m].Raised? && Apply(s, a).phases[m].error == error <==>
            Ends(s.config, s.requests[m], a, m, error)
  {
    hide Admit, ParseOAuth, ParseGoogle, PostJson, OAuthExpiry, GoogleExpiry, IdentityFor, RouteOf;
  }

  lemma OverStep(s: State, a: Action, m: nat, error: Error)
    requires Enabled(s, a) && m < |s.phases| && m < |s.requests| && Over(s.phases[m]) && error != AuthenticationError
    ensures |Apply(s, a).phases| == |s.phases| && Apply(s, a).phases[m] == s.phases[m]
    ensures !Ends(s.config, s.requests[m], a, m, error)
  {
    hide Admit, ParseOAuth, ParseGoogle, PostJson, OAuthExpiry, GoogleExpiry, IdentityFor, RouteOf;
  }

  lemma {:induction false} OverStays(s: State, acts: seq<Action>, t: State, m: nat, error: Error)
    requires IsRun(s, acts, t) && m < |s.phases| && m < |s.requests| && Over(s.phases[m]) && error != AuthenticationError
    ensures |t.phases| == |s.phases| && t.phases[m] == s.phases[m]
    ensures forall a | a in acts :: !Ends(s.config, s.requests[m], a, m, error)
    decreases |acts|
  {
    hide Enabled, Apply, Ends;
    if acts != [] {
      OverStep(s, acts[0], m, error);
      StepKeeps(s, acts[0]);
      OverStays(Apply(s, acts[0]), acts[1..], t, m, error);
    }
  }

  /**
   Over any run: a mint ends as unavailable, as a credentials error, as a configuration error or cancelled if and only if one
   of the answers and checks that mean so came up; any other end without a token is an authentication error.
   */
  lemma {:induction false} EndsExactly(s: State, acts: seq<Action>, t: State, m: nat, error: Error)
    requires IsRun(s, acts, t) && m < |s.phases| && m < |s.requests| && !Over(s.phases[m]) && error != AuthenticationError
    ensures |t.phases| == |s.phases|
    ensures t.phases[m].Raised? && t.phases[m].error == error <==>
            exists a :: a in acts && Ends(s.config, s.requests[m], a, m, error)
    decreases |acts|
  {
    hide Enabled, Apply, Ends;
    if acts != [] {
      EndsStep(s, acts[0], m, error);
      StepKeeps(s, acts[0]);
      var next := Apply(s, acts[0]);
      if Over(next.phases[m]) {
        OverStays(next, acts[1..], t, m, error);
      } else {
        EndsExactly(next, acts[1..], t, m, error);
      }
      assert acts == [acts[0]] + acts[1..];
    }
  }

  // ---- good answers mint ----

  lemma Cons(s: State, a: Action, acts: seq<Action>, t: State)
    requires Enabled(s, a) && IsRun(Apply(s, a), acts, t)
    ensures IsRun(s, [a] + acts, t)
  {
    hide Enabled, Apply;
    assert ([a] + acts)[1..] == acts;
  }

  function FirstAnswers(s: State, m: nat, sourceIdentity: Option<string>, d1: real, d2: real, d3: real): seq<Action> {
    [Begin(m), Tick(d1), OnRole(m, Assumed(s.now + d1, sourceIdentity)), Tick(d2), OnToken(m, Issued), Tick(d3)]
  }

  lemma UpToExchange(s: State, m: nat, sourceIdentity: Option<string>, d1: real, d2: real, d3: real) returns (t: State)
    requires m < |s.phases| == |s.requests| && s.phases[m].Ready? && Admit(s.config, s.requests[m]).Good?
    requires d1 >= 0.0 && d2 >= 0.0 && d3 >= 0.0 && d1 + d2 < 6.0
    ensures IsRun(s, FirstAnswers(s, m, sourceIdentity, d1, d2, d3), t)
    ensures t.requests == s.requests && |t.phases| == |s.phases| && t.now == s.now + d1 + d2 + d3
    ensures t.phases[m].Exchanging? && t.phases[m].startedAt == s.now && t.phases[m].requestedAt <= t.now
  {
    hide Admit, RouteOf, IdentityFor;
    var a1, a2, a3, a4, a5, a6 :=
      Begin(m), Tick(d1), OnRole(m, Assumed(s.now + d1, sourceIdentity)), Tick(d2), OnToken(m, Issued), Tick(d3);
    var s1 := Apply(s, a1);
    var s2 := Apply(s1, a2);
    var s3 := Apply(s2, a3);
    var s4 := Apply(s3, a4);
    var s5 := Apply(s4, a5);
    t := Apply(s5, a6);
    EmptyRun(t);
    assert t.requests == s.requests && |t.phases| == |s.phases| && t.phases[m].Exchanging?;
    hide Enabled, Apply, IsRun;
    Cons(s5, a6, [], t);
    Cons(s4, a5, [a6], t);
    Cons(s3, a4, [a5, a6], t);
    Cons(s2, a3, [a4, a5, a6], t);
    Cons(s1, a2, [a3, a4, a5, a6], t);
    Cons(s, a1, [a2, a3, a4, a5, a6], t);
  }

  /** The answers a mint needs: after `d1`, `d2`, `d3` seconds, and `d4` more for Google's second hop. */
  function GoodAnswers(s: State, m: nat, sourceIdentity: Option<string>, b: Body, d1: real, d2: real, d3: real, d4: real)
    : seq<Action>
    requires m < |s.requests|
  {
    var reply := OnReply(m, Response(200, Some(b)), s.now + d1 + d2 + d3);
    FirstAnswers(s, m, sourceIdentity, d1, d2, d3) + [reply]
    + if s.requests[m].kind == GcpWif then [Tick(d4), reply] else []
  }

  lemma OneReply(s: State, acts: seq<Action>, t: State, m: nat, b: Body, issuedAt: real) returns (u: State)
    requires IsRun(s, acts, t) && m < |t.phases| == |t.requests| && t.phases[m].Exchanging?
    requires t.now < t.phases[m].startedAt + 6.0 && t.phases[m].requestedAt <= issuedAt <= t.now
    requires Grants(Response(200, Some(b)))
    ensures IsRun(s, acts + [OnReply(m, Response(200, Some(b)), issuedAt)], u)
    ensures |u.phases| == |t.phases| == |u.requests| && u.now == t.now
    ensures var p, q := t.phases[m], u.phases[m];
            if t.requests[m].kind == GcpWif then q.Impersonating? && q.startedAt == p.startedAt
            else q.Minted? && q.token == b.accessToken.value
  {
    var a := OnReply(m, Response(200, Some(b)), issuedAt);
    ExchangeReply(t, m, Response(200, Some(b)), issuedAt);
    RunSnoc(s, acts, t, a);
    u := Apply(t, a);
    hide IsRun;
  }

  lemma SecondReply(s: State, acts: seq<Action>, t: State, m: nat, b: Body, issuedAt: real, dt: real) returns (u: State)
    requires IsRun(s, acts, t) && m < |t.phases| == |t.requests| && t.phases[m].Impersonating?
    requires dt >= 0.0 && t.now + dt < t.phases[m].startedAt + 6.0 && GrantsGoogle(Response(200, Some(b)))
    ensures IsRun(s, acts + [Tick(dt), OnReply(m, Response(200, Some(b)), issuedAt)], u)
    ensures |u.phases| == |t.phases| && u.phases[m].Minted? && u.phases[m].token == b.googleToken.value
  {
    var a := OnReply(m, Response(200, Some(b)), issuedAt);
    var waited := t.(now := t.now + dt);
    assert Enabled(t, Tick(dt)) && Apply(t, Tick(dt)) == waited;
    hide Apply, Enabled, IsRun;
    RunSnoc(s, acts, t, Tick(dt));
    ImpersonationReply(waited, m, Response(200, Some(b)), issuedAt);
    RunSnoc(s, acts + [Tick(dt)], waited, a);
    u := Apply(waited, a);
    assert acts + [Tick(dt)] + [a] == acts + [Tick(dt), a];
  }

  /** Such answers within the deadline always end an admissible mint with the token they name. */
  lemma GoodAnswersMint(s: State, m: nat, sourceIdentity: Option<string>, b: Body, d1: real, d2: real, d3: real, d4: real)
    returns (t: State)
    requires m < |s.phases| == |s.requests| && s.phases[m].Ready? && Admit(s.config, s.requests[m]).Good?
    requires d1 >= 0.0 && d2 >= 0.0 && d3 >= 0.0 && d4 >= 0.0 && d1 + d2 + d3 + d4 < 6.0
    requires Grants(Response(200, Some(b))) && (s.requests[m].kind == GcpWif ==> GrantsGoogle(Response(200, Some(b))))
    ensures IsRun(s, GoodAnswers(s, m, sourceIdentity, b, d1, d2, d3, d4), t)
    ensures |t.phases| == |s.phases| && t.phases[m].Minted?
    ensures t.phases[m].token == if s.requests[m].kind == GcpWif then b.googleToken.value else b.accessToken.value
  {
    hide IsRun, Admit, FirstAnswers;
    var acts, issuedAt := FirstAnswers(s, m, sourceIdentity, d1, d2, d3), s.now + d1 + d2 + d3;
    var asked := UpToExchange(s, m, sourceIdentity, d1, d2, d3);
    t := OneReply(s, acts, asked, m, b, issuedAt);
    var reply := OnReply(m, Response(200, Some(b)), issuedAt);
    if s.requests[m].kind == GcpWif {
      t := SecondReply(s, acts + [reply], t, m, b, issuedAt, d4);
    } else {
      assert acts + [reply] + [] == acts + [reply];
    }
  }
}
