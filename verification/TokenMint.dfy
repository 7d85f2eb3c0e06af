/**
 Minting a provider token: validate the federation role, look up the route, assume the role, ask STS for a web identity
 token and exchange it, all under one deadline. Any number of mints interleave at their awaits. `events` lists the requests
 they send and the lines they log, in order.
 */
module TokenMint {
  import opened Text
  import opened CacheTtl
  import opened FederationRole
  import Arn

  datatype SecretKind = AnthropicWif | OpenAiWif | OpenRouterWif | GcpWif | Unrouted
  datatype Algorithm = RS256 | ES384
  datatype Route = Route(algorithm: Algorithm, tokenSeconds: int, impersonates: bool)

  const FEDERATION_SESSION_SECONDS: int := 3600

  function RouteOf(kind: SecretKind): Option<Route> {
    match kind
    case AnthropicWif => Some(Route(RS256, 900, false))
    case OpenAiWif => Some(Route(ES384, 1800, false))
    case OpenRouterWif => Some(Route(RS256, 900, false))
    case GcpWif => Some(Route(RS256, 900, true))
    case Unrouted => None
  }

  datatype Config = Config(allowedAccountIds: seq<string>, rolePathPrefix: string, hasStsEndpoint: bool)
  datatype Request = Request(principal: Arn.PrincipalInfo, kind: SecretKind, roleArn: string, audience: string)
  datatype Identity = Identity(roleArn: string, user: string, principal: string, session: string, project: string)
  datatype Error = AuthenticationError | CredentialsError | UpstreamServiceError | ConfigurationError | Cancelled

  /** Identity tokens are numbered in the order STS issues them; `providerUntil` is when the provider stops accepting a token. */
  datatype Phase =
    | Ready
    | Assuming(startedAt: real)
    | Proving(startedAt: real, identity: Identity, assumedAt: real)
    | Exchanging(startedAt: real, identity: Identity, proof: nat, requestedAt: real)
    | Impersonating(startedAt: real, identity: Identity, proof: nat, bearer: string)
    | Minted(startedAt: real, identity: Identity, proof: nat, bearer: string, token: string, expiresAt: real,
             providerUntil: real, at: real)
    | Raised(error: Error, during: Phase)

  datatype Event =
    | AssumeRole(mint: nat, roleArn: string, sessionName: string)
    | GetWebIdentityToken(mint: nat, audience: string, algorithm: Algorithm, seconds: int)
    | Exchange(mint: nat, provider: SecretKind, proof: nat)
    | Impersonate(mint: nat, bearer: string)
    | MintLogged(mint: nat, identity: Identity, proof: nat)

  datatype State = State(
    config: Config, requests: seq<Request>, phases: seq<Phase>, now: real, nextToken: nat, events: seq<Event>)

  datatype RoleAnswer = Assumed(at: real, sourceIdentity: Option<string>) | RoleRefused(code: string) | RoleUnreachable
  datatype TokenAnswer = Issued | TokenRefused | TokenUnreachable

  /** A JSON object's fields of interest, present when they have the required type and range. */
  datatype Body = Body(
    accessToken: Option<string>, expiresIn: Option<int>, googleToken: Option<string>, expireTime: Option<real>)
  datatype Reply = TransportFailure | Response(status: int, body: Option<Body>)

  datatype Action =
    | Begin(m: nat)
    | OnRole(m: nat, role: RoleAnswer)
    | OnToken(m: nat, issue: TokenAnswer)
    | OnReply(m: nat, reply: Reply, issuedAt: real)
    | Deadline(m: nat)
    | CancelTask(m: nat)
    | Tick(dt: real)

  function Init(config: Config, requests: seq<Request>): State {
    State(config, requests, seq(|requests|, _ => Ready), 0.0, 0, [])
  }

  // ---- pieces of a step ----

  predicate InFlight(p: Phase) {
    p.Assuming? || p.Proving? || p.Exchanging? || p.Impersonating?
  }

  predicate InTime(s: State, m: nat) {
    m < |s.phases| && InFlight(s.phases[m]) && s.now < s.phases[m].startedAt + MINT_DEADLINE_SECONDS
  }

  function Goto(s: State, m: nat, p: Phase): State
    requires m < |s.phases|
  {
    s.(phases := s.phases[m := p])
  }

  function Send(s: State, m: nat, p: Phase, sent: Event): State
    requires m < |s.phases|
  {
    Goto(s, m, p).(events := s.events + [sent])
  }

  function Fail(s: State, m: nat, error: Error): State
    requires m < |s.phases|
  {
    Goto(s, m, Raised(error, s.phases[m]))
  }

  datatype Checked<T> = Good(value: T) | Bad(error: Error)

  /** The status and body checks every provider call shares. */
  function PostJson(reply: Reply): (r: Checked<Body>)
    ensures r.Bad? ==> r.error == AuthenticationError || r.error == UpstreamServiceError
    ensures r == Bad(UpstreamServiceError) <==> reply.TransportFailure? || reply.status >= 500 || reply.status == 429
  {
    match reply
    case TransportFailure => Bad(UpstreamServiceError)
    case Response(status, body) =>
      if status != 200 then Bad(if status >= 500 || status == 429 then UpstreamServiceError else AuthenticationError)
      else if body.None? then Bad(AuthenticationError)
      else Good(body.value)
  }

  function ParseOAuth(b: Body): (r: Checked<(string, int)>)
    ensures r.Bad? ==> r.error == AuthenticationError
    ensures r.Good? ==> r.value.0 != ""
  {
    if b.accessToken.Some? && b.accessToken.value != "" && b.expiresIn.Some? && b.expiresIn.value > 0
    then Good((b.accessToken.value, b.expiresIn.value)) else Bad(AuthenticationError)
  }

  function ParseGoogle(b: Body): (r: Checked<(string, real)>)
    ensures r.Bad? ==> r.error == AuthenticationError
    ensures r.Good? ==> r.value.0 != ""
  {
    if b.googleToken.Some? && b.googleToken.value != "" && b.expireTime.Some?
    then Good((b.googleToken.value, b.expireTime.value)) else Bad(AuthenticationError)
  }

  function IdentityFor(r: Request, roleName: string, session: string, sourceIdentity: Option<string>): Identity {
    var user := if sourceIdentity.Some? && sourceIdentity.value != "" then sourceIdentity.value else roleName;
    Identity(r.roleArn, user, roleName, session, Arn.CallerProject(r.principal))
  }

  /** What must hold before anything is sent. */
  function Admit(config: Config, r: Request): (names: Checked<(string, string)>)
    ensures names.Bad? ==> names.error != UpstreamServiceError && names.error != Cancelled
    ensures names.Good? ==> Arn.IsRoleSessionName(names.value.0) && names.value.1 != ""
  {
    if ValidateFederationRoleArn(r.roleArn, config.allowedAccountIds, config.rolePathPrefix) != Accepted
       || RouteOf(r.kind).None? then Bad(AuthenticationError)
    else
      var roleName, session := Arn.CallerRoleName(r.principal), Arn.CallerSession(r.principal);
      if !roleName.Ok? || !session.Ok? then Bad(CredentialsError)
      else if !config.hasStsEndpoint then Bad(ConfigurationError)
      else Good((roleName.value, session.value))
  }

  predicate Admitted(s: State, m: nat)
  {
    m < |s.requests| && Admit(s.config, s.requests[m]).Good?
  }

  function FinishMint(s: State, m: nat, p: Phase): State
    requires m < |s.phases| && p.Minted?
  {
    Send(s, m, p, MintLogged(m, p.identity, p.proof))
  }

  function ExchangeAnswered(s: State, m: nat, reply: Reply, issuedAt: real): State
    requires m < |s.phases| && m < |s.requests| && s.phases[m].Exchanging?
  {
    var p := s.phases[m];
    var body := PostJson(reply);
    if body.Bad? then Fail(s, m, body.error)
    else
      var parsed := ParseOAuth(body.value);
      if parsed.Bad? then Fail(s, m, parsed.error)
      else
        var (token, expiresIn) := parsed.value;
        if s.requests[m].kind == GcpWif then
          Send(s, m, Impersonating(p.startedAt, p.identity, p.proof, token), Impersonate(m, token))
        else
          FinishMint(s, m, Minted(p.startedAt, p.identity, p.proof, "", token, OAuthExpiry(p.requestedAt, expiresIn),
                                  issuedAt + expiresIn as real, s.now))
  }

  function ImpersonationAnswered(s: State, m: nat, reply: Reply): State
    requires m < |s.phases| && s.phases[m].Impersonating?
  {
    var p := s.phases[m];
    var body := PostJson(reply);
    if body.Bad? then Fail(s, m, body.error)
    else
      var parsed := ParseGoogle(body.value);
      if parsed.Bad? then Fail(s, m, parsed.error)
      else
        var (token, expireTime) := parsed.value;
        FinishMint(s, m, Minted(p.startedAt, p.identity, p.proof, p.bearer, token, GoogleExpiry(expireTime), expireTime, s.now))
  }

  // ---- steps ----

  /**
   An answer counts only before the deadline; `at` and `issuedAt` say when the other side acted on the request. `Admitted`
   holds of every mint in flight.
   */
  predicate Enabled(s: State, a: Action) {
    |s.phases| == |s.requests| &&
    match a
    case Begin(m) => m < |s.phases| && s.phases[m].Ready?
    case OnRole(m, role) =>
      InTime(s, m) && s.phases[m].Assuming? && Admitted(s, m)
      && (role.Assumed? ==> s.phases[m].startedAt <= role.at <= s.now)
    case OnToken(m, _) => InTime(s, m) && s.phases[m].Proving? && Admitted(s, m)
    case OnReply(m, _, issuedAt) =>
      InTime(s, m) && (s.phases[m].Exchanging? || s.phases[m].Impersonating?)
      && (s.phases[m].Exchanging? ==> s.phases[m].requestedAt <= issuedAt <= s.now)
    case Deadline(m) => m < |s.phases| && InFlight(s.phases[m]) && !InTime(s, m)
    case CancelTask(m) => m < |s.phases| && InFlight(s.phases[m])
    case Tick(dt) => dt >= 0.0
  }

  function Apply(s: State, a: Action): State
    requires Enabled(s, a)
  {
    match a
    case Begin(m) =>
      var admit := Admit(s.config, s.requests[m]);
      if admit.Bad? then Fail(s, m, admit.error)
      else Send(s, m, Assuming(s.now), AssumeRole(m, s.requests[m].roleArn, admit.value.0))
    case OnRole(m, role) =>
      var r := s.requests[m];
      (match role
       case Assumed(at, sourceIdentity) =>
         var (roleName, session) := Admit(s.config, r).value;
         var route := RouteOf(r.kind).value;
         Send(s, m, Proving(s.phases[m].startedAt, IdentityFor(r, roleName, session, sourceIdentity), at),
              GetWebIdentityToken(m, r.audience, route.algorithm, route.tokenSeconds))
       case RoleRefused(code) => Fail(s, m, if code == "ExpiredToken" then CredentialsError else AuthenticationError)
       case RoleUnreachable => Fail(s, m, UpstreamServiceError))
    case OnToken(m, issue) =>
      (match issue
       case Issued =>
         Send(s, m, Exchanging(s.phases[m].startedAt, s.phases[m].identity, s.nextToken, s.now),
              Exchange(m, s.requests[m].kind, s.nextToken)).(nextToken := s.nextToken + 1)
       case TokenRefused => Fail(s, m, AuthenticationError)
       case TokenUnreachable => Fail(s, m, UpstreamServiceError))
    case OnReply(m, reply, issuedAt) =>
      if s.phases[m].Exchanging? then ExchangeAnswered(s, m, reply, issuedAt) else ImpersonationAnswered(s, m, reply)
    case Deadline(m) => Fail(s, m, UpstreamServiceError)
    case CancelTask(m) => Fail(s, m, Cancelled)
    case Tick(dt) => s.(now := s.now + dt)
  }

  ghost predicate IsRun(s: State, acts: seq<Action>, t: State)
    decreases |acts|
  {
    if acts == [] then s == t else Enabled(s, acts[0]) && IsRun(Apply(s, acts[0]), acts[1..], t)
  }

  // ---- traces ----

  /** What one mint sent and logged. */
  ghost function Trace(events: seq<Event>, m: nat): seq<Event> {
    if events == [] then []
    else
      var rest := Trace(events[..|events| - 1], m);
      if events[|events| - 1].mint == m then rest + [events[|events| - 1]] else rest
  }

  /** The last phase before an error. */
  function Reached(p: Phase): Phase {
    if p.Raised? then p.during else p
  }

  /** How far a phase has come: nothing, role, identity token, exchange, impersonation, done. */
  function Attempt(config: Config, r: Request, m: nat, p: Phase): seq<Event> {
    if p.Ready? || p.Raised? || Admit(config, r).Bad? then []
    else
      var route := RouteOf(r.kind).value;
      var role := [AssumeRole(m, r.roleArn, Admit(config, r).value.0)];
      var proof := role + [GetWebIdentityToken(m, r.audience, route.algorithm, route.tokenSeconds)];
      match p
      case Assuming(_) => role
      case Proving(_, _, _) => proof
      case Exchanging(_, _, n, _) => proof + [Exchange(m, r.kind, n)]
      case Impersonating(_, _, n, bearer) => proof + [Exchange(m, r.kind, n), Impersonate(m, bearer)]
      case Minted(_, identity, n, bearer, _, _, _, _) =>
        proof + [Exchange(m, r.kind, n)] + (if route.impersonates then [Impersonate(m, bearer)] else [])
        + [MintLogged(m, identity, n)]
  }

  predicate HasProof(p: Phase) { p.Exchanging? || p.Impersonating? || p.Minted? }

  /** Only Google's exchange takes a second hop, and its tokens carry Google's own expiry. */
  predicate KindOk(r: Request, p: Phase) {
    && (p.Impersonating? ==> r.kind == GcpWif)
    && (p.Minted? ==> p.token != "" && (r.kind == GcpWif ==> p.expiresAt == GoogleExpiry(p.providerUntil)))
  }

  predicate TimesOk(now: real, p: Phase) {
    match p
    case Assuming(startedAt) => startedAt <= now
    case Proving(startedAt, _, assumedAt) => startedAt <= assumedAt <= now
    case Exchanging(startedAt, _, _, requestedAt) => startedAt <= requestedAt <= now
    case Impersonating(startedAt, _, _, _) => startedAt <= now
    case Minted(startedAt, _, _, _, _, expiresAt, providerUntil, at) =>
      startedAt <= at < startedAt + MINT_DEADLINE_SECONDS && at <= now && expiresAt <= providerUntil < expiresAt + 6.0
    case _ => true
  }

  predicate IdentityOk(config: Config, r: Request, p: Phase) {
    Admit(config, r).Good? && (p.Proving? || HasProof(p)) ==>
      var (roleName, session) := Admit(config, r).value;
      && p.identity.roleArn == r.roleArn && p.identity.principal == roleName
      && p.identity.session == session && p.identity.project == Arn.CallerProject(r.principal)
      && p.identity.user != "" && p.identity.session != ""
  }

  /** Which errors can end a mint, and where: nothing was sent exactly when it was not admitted. */
  predicate FailureOk(config: Config, r: Request, during: Phase, error: Error) {
    && (during.Ready? ==> Admit(config, r) == Bad(error))
    && (error.CredentialsError? ==> during.Ready? || during.Assuming?)
    && (error.ConfigurationError? ==> during.Ready?)
  }

  ghost predicate MintOk(s: State, m: nat)
    requires m < |s.phases| && m < |s.requests|
  {
    var p := Reached(s.phases[m]);
    && !p.Raised?
    && (s.phases[m].Raised? ==>
          (p.Ready? || InFlight(p)) && FailureOk(s.config, s.requests[m], p, s.phases[m].error))
    && (!p.Ready? ==> Admitted(s, m))
    && Trace(s.events, m) == Attempt(s.config, s.requests[m], m, p)
    && (HasProof(p) ==> p.proof < s.nextToken)
    && KindOk(s.requests[m], p) && TimesOk(s.now, p) && IdentityOk(s.config, s.requests[m], p)
  }

  ghost predicate Inv(s: State) {
    && |s.phases| == |s.requests|
    && (forall m | 0 <= m < |s.phases| :: MintOk(s, m))
    && (forall e | e in s.events :: e.mint < |s.phases|)
    && forall m, n | 0 <= m < n < |s.phases| && HasProof(Reached(s.phases[m])) && HasProof(Reached(s.phases[n])) ::
         Reached(s.phases[m]).proof != Reached(s.phases[n]).proof
  }

  lemma InitInv(config: Config, requests: seq<Request>)
    ensures Inv(Init(config, requests))
  {
  }

  /** What a step may do to the rest of the state: nothing but let time pass and issue tokens. */
  ghost predicate Steps(s: State, t: State, m: nat) {
    && t.config == s.config && t.requests == s.requests && |t.phases| == |s.phases| == |s.requests| && m < |s.phases|
    && (forall n | 0 <= n < |s.phases| && n != m :: t.phases[n] == s.phases[n])
    && t.now >= s.now && t.nextToken >= s.nextToken
    && (t.events == s.events || (exists e: Event :: e.mint == m && t.events == s.events + [e]))
  }

  lemma TraceOther(events: seq<Event>, e: Event, n: nat)
    requires e.mint != n
    ensures Trace(events + [e], n) == Trace(events, n)
  {
    assert (events + [e])[..|events|] == events;
  }

  lemma MintOkKept(s: State, t: State, n: nat)
    requires n < |s.phases| == |s.requests| && n < |t.phases| && MintOk(s, n)
    requires t.config == s.config && t.requests == s.requests && t.phases[n] == s.phases[n]
    requires t.now >= s.now && t.nextToken >= s.nextToken && Trace(t.events, n) == Trace(s.events, n)
    ensures MintOk(t, n)
  {
    hide Admit, Attempt, IdentityOk, Trace;
  }

  lemma OthersKept(s: State, t: State, m: nat, n: nat)
    requires Inv(s) && Steps(s, t, m) && n < |s.phases| && n != m
    ensures MintOk(t, n)
  {
    assert MintOk(s, n);
    if t.events != s.events {
      var e: Event :| e.mint == m && t.events == s.events + [e];
      TraceOther(s.events, e, n);
    }
    hide MintOk, Trace;
    MintOkKept(s, t, n);
  }

  lemma StepKeepsInv(s: State, t: State, m: nat)
    requires Inv(s) && Steps(s, t, m) && MintOk(t, m)
    requires HasProof(Reached(t.phases[m])) ==>
               var proof := Reached(t.phases[m]).proof;
               proof >= s.nextToken || (HasProof(Reached(s.phases[m])) && Reached(s.phases[m]).proof == proof)
    ensures Inv(t)
  {
    forall n | 0 <= n < |t.phases| && n != m ensures MintOk(t, n) { OthersKept(s, t, m, n); }
    hide MintOk;
    ProofsBelow(s);
  }

  lemma ProofsBelow(s: State)
    requires Inv(s)
    ensures forall n | 0 <= n < |s.phases| && HasProof(Reached(s.phases[n])) :: Reached(s.phases[n]).proof < s.nextToken
  {
    forall n | 0 <= n < |s.phases| && HasProof(Reached(s.phases[n])) ensures Reached(s.phases[n]).proof < s.nextToken {
      assert MintOk(s, n);
    }
  }

  lemma FailInv(s: State, m: nat, error: Error)
    requires Inv(s) && m < |s.phases| && m < |s.requests| && (s.phases[m].Ready? || InFlight(s.phases[m]))
    requires FailureOk(s.config, s.requests[m], s.phases[m], error)
    ensures Inv(Fail(s, m, error))
  {
    var t := Fail(s, m, error);
    assert MintOk(s, m);
    assert MintOk(t, m) by { hide Admit, Attempt, IdentityOk, Trace, FailureOk; }
    hide MintOk;
    StepKeepsInv(s, t, m);
  }

  lemma TraceSent(events: seq<Event>, e: Event)
    ensures Trace(events + [e], e.mint) == Trace(events, e.mint) + [e]
  {
    assert (events + [e])[..|events|] == events;
  }

  lemma TickInv(s: State, dt: real)
    requires Inv(s) && dt >= 0.0
    ensures Inv(s.(now := s.now + dt))
  {
    var t := s.(now := s.now + dt);
    hide MintOk;
    forall m | 0 <= m < |t.phases| ensures MintOk(t, m) { MintOkKept(s, t, m); }
  }

  /** A phase that may follow once `e` is sent and `nextToken - s.nextToken` identity tokens are issued. */
  ghost predicate Follows(s: State, m: nat, p: Phase, e: Event, nextToken: nat)
    requires m < |s.phases| == |s.requests|
  {
    && (s.phases[m].Ready? || InFlight(s.phases[m])) && e.mint == m && nextToken >= s.nextToken
    && !p.Raised? && !p.Ready? && Admitted(s, m)
    && Attempt(s.config, s.requests[m], m, p) == Attempt(s.config, s.requests[m], m, s.phases[m]) + [e]
    && (HasProof(p) ==> p.proof < nextToken)
    && KindOk(s.requests[m], p) && TimesOk(s.now, p) && IdentityOk(s.config, s.requests[m], p)
  }

  lemma SentOk(s: State, m: nat, p: Phase, e: Event, nextToken: nat)
    requires m < |s.phases| == |s.requests| && MintOk(s, m) && Follows(s, m, p, e, nextToken)
    ensures MintOk(Send(s, m, p, e).(nextToken := nextToken), m)
  {
    var t := Send(s, m, p, e).(nextToken := nextToken);
    TraceSent(s.events, e);
    hide Admit, Attempt, IdentityOk, TimesOk, KindOk, Trace;
  }

  /** Sending the next request of a mint. */
  lemma SendInv(s: State, m: nat, p: Phase, e: Event, nextToken: nat)
    requires Inv(s) && m < |s.phases| && Follows(s, m, p, e, nextToken)
    requires HasProof(p) ==> p.proof >= s.nextToken || (HasProof(s.phases[m]) && s.phases[m].proof == p.proof)
    ensures Inv(Send(s, m, p, e).(nextToken := nextToken))
  {
    hide MintOk, Attempt, IdentityOk, TimesOk, KindOk, Admitted;
    SentOk(s, m, p, e, nextToken);
    StepKeepsInv(s, Send(s, m, p, e).(nextToken := nextToken), m);
  }

  lemma BeginInv(s: State, m: nat)
    requires Inv(s) && Enabled(s, Begin(m))
    ensures Inv(Apply(s, Begin(m)))
  {
    var admit := Admit(s.config, s.requests[m]);
    if admit.Bad? {
      FailInv(s, m, admit.error);
    } else {
      var e := AssumeRole(m, s.requests[m].roleArn, admit.value.0);
      assert Follows(s, m, Assuming(s.now), e, s.nextToken) by { hide Admit, Arn.CallerProject; }
      hide Inv, Follows, Admit;
      SendInv(s, m, Assuming(s.now), e, s.nextToken);
    }
  }

  lemma OnRoleInv(s: State, m: nat, role: RoleAnswer)
    requires Inv(s) && Enabled(s, OnRole(m, role))
    ensures Inv(Apply(s, OnRole(m, role)))
  {
    if role.Assumed? {
      var r := s.requests[m];
      var (roleName, session) := Admit(s.config, r).value;
      var route := RouteOf(r.kind).value;
      var p := Proving(s.phases[m].startedAt, IdentityFor(r, roleName, session, role.sourceIdentity), role.at);
      var e := GetWebIdentityToken(m, r.audience, route.algorithm, route.tokenSeconds);
      assert Follows(s, m, p, e, s.nextToken) by { hide Admit, Arn.CallerProject, RouteOf; }
      hide Inv, Follows, Admit, RouteOf, IdentityFor;
      SendInv(s, m, p, e, s.nextToken);
    } else {
      hide Admit, Inv;
      FailInv(s, m, if role.RoleUnreachable? then UpstreamServiceError
                    else if role.code == "ExpiredToken" then CredentialsError else AuthenticationError);
    }
  }

  lemma OnTokenInv(s: State, m: nat, issue: TokenAnswer)
    requires Inv(s) && Enabled(s, OnToken(m, issue))
    ensures Inv(Apply(s, OnToken(m, issue)))
  {
    if issue.Issued? {
      var p := Exchanging(s.phases[m].startedAt, s.phases[m].identity, s.nextToken, s.now);
      var e := Exchange(m, s.requests[m].kind, s.nextToken);
      assert MintOk(s, m);
      assert Follows(s, m, p, e, s.nextToken + 1) by { hide Admit, Arn.CallerProject, RouteOf; }
      hide Inv, Follows, Admit;
      SendInv(s, m, p, e, s.nextToken + 1);
    } else {
      hide Admit, Inv;
      FailInv(s, m, if issue.TokenUnreachable? then UpstreamServiceError else AuthenticationError);
    }
  }

  lemma FinishInv(s: State, m: nat, p: Phase)
    requires Inv(s) && m < |s.phases| && InTime(s, m) && p.Minted? && HasProof(s.phases[m])
    requires var q := s.phases[m];
             && p.startedAt == q.startedAt && p.identity == q.identity && p.proof == q.proof && p.at == s.now
             && (if q.Impersonating? then p.bearer == q.bearer else s.requests[m].kind != GcpWif)
    requires p.expiresAt <= p.providerUntil < p.expiresAt + 6.0
    requires m < |s.requests| && KindOk(s.requests[m], p)
    ensures Inv(FinishMint(s, m, p))
  {
    assert MintOk(s, m);
    assert Follows(s, m, p, MintLogged(m, p.identity, p.proof), s.nextToken) by { hide Admit, Arn.CallerProject; }
    hide Inv, Follows, Admit;
    SendInv(s, m, p, MintLogged(m, p.identity, p.proof), s.nextToken);
  }

  lemma ImpersonateInv(s: State, m: nat, token: string)
    requires Inv(s) && m < |s.phases| && InTime(s, m) && s.phases[m].Exchanging? && s.requests[m].kind == GcpWif
    ensures var q := s.phases[m];
            Inv(Send(s, m, Impersonating(q.startedAt, q.identity, q.proof, token), Impersonate(m, token)))
  {
    var q := s.phases[m];
    var p := Impersonating(q.startedAt, q.identity, q.proof, token);
    assert MintOk(s, m);
    assert Follows(s, m, p, Impersonate(m, token), s.nextToken) by { hide Admit, Arn.CallerProject; }
    hide Inv, Follows, Admit;
    SendInv(s, m, p, Impersonate(m, token), s.nextToken);
  }

  lemma ExchangeInv(s: State, m: nat, reply: Reply, issuedAt: real)
    requires Inv(s) && Enabled(s, OnReply(m, reply, issuedAt)) && s.phases[m].Exchanging?
    ensures Inv(ExchangeAnswered(s, m, reply, issuedAt))
  {
    var q := s.phases[m];
    assert MintOk(s, m);
    assert Admitted(s, m) && q.startedAt <= q.requestedAt by { hide Admit; }
    assert InTime(s, m);
    var body := PostJson(reply);
    var parsed := if body.Good? then ParseOAuth(body.value) else Bad(body.error);
    hide PostJson, ParseOAuth;
    if parsed.Bad? {
      hide Inv;
      FailInv(s, m, parsed.error);
    } else {
      var (token, expiresIn) := parsed.value;
      if s.requests[m].kind == GcpWif {
        hide Inv, Admit, MintOk;
        ImpersonateInv(s, m, token);
      } else {
        OAuthExpiryIsEarly(q.requestedAt, issuedAt, expiresIn);
        hide Inv, Admit, MintOk, OAuthExpiry;
        FinishInv(s, m, Minted(q.startedAt, q.identity, q.proof, "", token, OAuthExpiry(q.requestedAt, expiresIn),
                               issuedAt + expiresIn as real, s.now));
      }
    }
  }

  lemma ImpersonationInv(s: State, m: nat, reply: Reply)
    requires Inv(s) && InTime(s, m) && s.phases[m].Impersonating?
    ensures Inv(ImpersonationAnswered(s, m, reply))
  {
    var q := s.phases[m];
    assert MintOk(s, m);
    hide Inv, Admit, PostJson, ParseGoogle, MintOk;
    var body := PostJson(reply);
    var parsed := if body.Good? then ParseGoogle(body.value) else Bad(body.error);
    if parsed.Bad? {
      FailInv(s, m, parsed.error);
    } else {
      var (token, expireTime) := parsed.value;
      GoogleExpiryIsEarly(expireTime);
      hide GoogleExpiry;
      FinishInv(s, m, Minted(q.startedAt, q.identity, q.proof, q.bearer, token, GoogleExpiry(expireTime), expireTime, s.now));
    }
  }

  lemma OnReplyInv(s: State, m: nat, reply: Reply, issuedAt: real)
    requires Inv(s) && Enabled(s, OnReply(m, reply, issuedAt))
    ensures Inv(Apply(s, OnReply(m, reply, issuedAt)))
  {
    hide Inv, ExchangeAnswered, ImpersonationAnswered, Admit;
    if s.phases[m].Exchanging? { ExchangeInv(s, m, reply, issuedAt); } else { ImpersonationInv(s, m, reply); }
  }

  lemma StepInv(s: State, a: Action)
    requires Inv(s) && Enabled(s, a)
    ensures Inv(Apply(s, a))
  {
    hide Inv, Admit, ExchangeAnswered, ImpersonationAnswered;
    match a
    case Begin(m) => BeginInv(s, m);
    case OnRole(m, role) => OnRoleInv(s, m, role);
    case OnToken(m, issue) => OnTokenInv(s, m, issue);
    case OnReply(m, reply, issuedAt) => OnReplyInv(s, m, reply, issuedAt);
    case Deadline(m) => FailInv(s, m, UpstreamServiceError);
    case CancelTask(m) => FailInv(s, m, Cancelled);
    case Tick(dt) => TickInv(s, dt);
  }

  lemma {:induction false} RunInv(s: State, acts: seq<Action>, t: State)
    requires Inv(s) && IsRun(s, acts, t)
    ensures Inv(t) && t.config == s.config && t.requests == s.requests
    decreases |acts|
  {
    hide Inv, Admit;
    if acts != [] {
      StepInv(s, acts[0]);
      RunInv(Apply(s, acts[0]), acts[1..], t);
    }
  }

  // ---- what every run keeps ----

  ghost predicate Reachable(s: State) {
    exists config, requests, acts :: IsRun(Init(config, requests), acts, s)
  }

  lemma ReachableInv(s: State)
    requires Reachable(s)
    ensures Inv(s)
  {
    var config, requests, acts :| IsRun(Init(config, requests), acts, s);
    InitInv(config, requests);
    RunInv(Init(config, requests), acts, s);
  }

  lemma {:induction false} TracePrefix(events: seq<Event>, i: nat, m: nat)
    requires i <= |events|
    ensures Trace(events[..i], m) <= Trace(events, m)
    decreases |events|
  {
    if i < |events| {
      TracePrefix(events[..|events| - 1], i, m);
      assert events[..|events| - 1][..i] == events[..i];
    } else {
      assert events[..i] == events;
    }
  }

  lemma TakeOneMore(events: seq<Event>, i: nat)
    requires i < |events|
    ensures events[..i + 1] == events[..i] + [events[i]]
  {
  }

  /** An event stands in its mint's trace right after what that mint did before it. */
  lemma TraceAt(events: seq<Event>, i: nat)
    requires i < |events|
    ensures var m := events[i].mint; var before := Trace(events[..i], m);
            && Trace(events[..i + 1], m) == before + [events[i]] && before + [events[i]] <= Trace(events, m)
  {
    hide Trace;
    TakeOneMore(events, i);
    TraceSent(events[..i], events[i]);
    TracePrefix(events, i + 1, events[i].mint);
  }

  lemma TraceLater(events: seq<Event>, i: nat, j: nat)
    requires i < j < |events| && events[i].mint == events[j].mint
    ensures |Trace(events[..i], events[i].mint)| < |Trace(events[..j], events[i].mint)|
  {
    hide Trace;
    TraceAt(events, i);
    assert events[..j][..i + 1] == events[..i + 1];
    TracePrefix(events[..j], i + 1, events[i].mint);
  }

  lemma AttemptShape(config: Config, r: Request, m: nat, p: Phase, k: nat)
    requires k < |Attempt(config, r, m, p)|
    ensures var e := Attempt(config, r, m, p)[k];
            && (e.AssumeRole? <==> k == 0) && (e.GetWebIdentityToken? <==> k == 1) && (e.Exchange? <==> k == 2)
            && (k == 2 ==> HasProof(p) && e == Exchange(m, r.kind, p.proof))
            && (e.MintLogged? ==> p.Minted? && k == |Attempt(config, r, m, p)| - 1 && e == MintLogged(m, p.identity, p.proof))
  {
    hide Admit;
  }

  /** Position of an event in the attempt of its mint. */
  lemma Located(s: State, i: nat)
    requires Inv(s) && i < |s.events|
    ensures var m := s.events[i].mint; var before := Trace(s.events[..i], m);
            && m < |s.phases| && MintOk(s, m) && !Reached(s.phases[m]).Ready?
            && before + [s.events[i]] <= Attempt(s.config, s.requests[m], m, Reached(s.phases[m]))
  {
    var m := s.events[i].mint;
    assert s.events[i] in s.events;
    assert MintOk(s, m);
    hide Admit;
    TraceAt(s.events, i);
    var before := Trace(s.events[..i], m);
    assert |before + [s.events[i]]| > 0;
  }

  /**
   Every request to a provider follows, in its own mint, an accepted role ARN, a found route, one AssumeRole as the caller
   and one GetWebIdentityToken with that route's algorithm and lifetime; and no other exchange ever uses its token.
   */
  lemma ExchangeIsJustified(s: State, i: nat)
    requires Reachable(s) && i < |s.events| && s.events[i].Exchange?
    ensures var m := s.events[i].mint;
            && m < |s.requests|
            && var r := s.requests[m];
            && ValidateFederationRoleArn(r.roleArn, s.config.allowedAccountIds, s.config.rolePathPrefix) == Accepted
            && RouteOf(r.kind).Some? && s.events[i].provider == r.kind && Arn.CallerRoleName(r.principal).Ok?
            && Trace(s.events[..i + 1], m) ==
               [AssumeRole(m, r.roleArn, Arn.CallerRoleName(r.principal).value),
                GetWebIdentityToken(m, r.audience, RouteOf(r.kind).value.algorithm, RouteOf(r.kind).value.tokenSeconds),
                s.events[i]]
    ensures forall j | 0 <= j < |s.events| && s.events[j].Exchange? && s.events[j].proof == s.events[i].proof :: j == i
  {
    ReachableInv(s);
    ExchangeTrace(s, i);
    forall j | 0 <= j < |s.events| && s.events[j].Exchange? && s.events[j].proof == s.events[i].proof ensures j == i {
      if j != i {
        OneExchange(s, i, j);
      }
    }
  }

  lemma ExchangeTrace(s: State, i: nat)
    requires Inv(s) && i < |s.events| && s.events[i].Exchange?
    ensures var m := s.events[i].mint;
            && m < |s.requests|
            && var r := s.requests[m];
            && Admitted(s, m) && RouteOf(r.kind).Some?
            && HasProof(Reached(s.phases[m])) && s.events[i] == Exchange(m, r.kind, Reached(s.phases[m]).proof)
            && Trace(s.events[..i + 1], m) ==
               [AssumeRole(m, r.roleArn, Admit(s.config, r).value.0),
                GetWebIdentityToken(m, r.audience, RouteOf(r.kind).value.algorithm, RouteOf(r.kind).value.tokenSeconds),
                s.events[i]]
  {
    Located(s, i);
    TraceAt(s.events, i);
    var m := s.events[i].mint;
    var before := Trace(s.events[..i], m);
    var p := Reached(s.phases[m]);
    var attempt := Attempt(s.config, s.requests[m], m, p);
    AttemptShape(s.config, s.requests[m], m, p, |before|);
    assert attempt[|before|] == s.events[i] == (before + [s.events[i]])[|before|];
    assert before == attempt[..2];
  }

  lemma OneExchange(s: State, i: nat, j: nat)
    requires Inv(s) && i < |s.events| && j < |s.events| && i != j && s.events[i].Exchange? && s.events[j].Exchange?
    ensures s.events[i].proof != s.events[j].proof
  {
    ExchangeTrace(s, i);
    ExchangeTrace(s, j);
    TraceAt(s.events, i);
    TraceAt(s.events, j);
    if s.events[i].mint == s.events[j].mint {
      TraceLater(s.events, if i < j then i else j, if i < j then j else i);
      assert false;
    }
  }

  /**
   How a failed mint ended says how far it came: nothing was sent exactly when the role, the route, the caller or the
   configuration was not acceptable, a credentials error comes before any identity token, and a configuration error
   before anything is sent.
   */
  lemma ErrorsSayHowFar(s: State, m: nat)
    requires Reachable(s) && m < |s.phases| && m < |s.requests| && s.phases[m].Raised?
    ensures var error, sent := s.phases[m].error, Trace(s.events, m);
            && (sent == [] <==> Admit(s.config, s.requests[m]) == Bad(error))
            && (sent != [] <==> Admit(s.config, s.requests[m]).Good?)
            && (error.CredentialsError? ==> |sent| <= 1) && (error.ConfigurationError? ==> sent == [])
            && forall i | 0 <= i < |sent| :: !sent[i].MintLogged?
  {
    ReachableInv(s);
    assert MintOk(s, m);
    hide Admit, Trace;
  }

  lemma LoggedTrace(s: State, i: nat)
    requires Inv(s) && i < |s.events| && s.events[i].MintLogged?
    ensures var m := s.events[i].mint;
            && m < |s.phases| && s.phases[m].Minted?
            && s.events[i] == MintLogged(m, s.phases[m].identity, s.phases[m].proof)
            && Trace(s.events[..i + 1], m) == Attempt(s.config, s.requests[m], m, s.phases[m])
  {
    Located(s, i);
    TraceAt(s.events, i);
    var m := s.events[i].mint;
    assert m < |s.phases|;
    var p := Reached(s.phases[m]);
    assert s.phases[m].Raised? ==> InFlight(p) || p.Ready?;
    hide Trace, Admit, TimesOk, IdentityOk;
    var before := Trace(s.events[..i], m);
    var attempt := Attempt(s.config, s.requests[m], m, p);
    AttemptShape(s.config, s.requests[m], m, p, |before|);
    assert attempt[|before|] == s.events[i] == (before + [s.events[i]])[|before|];
  }

  lemma LastOfTrace(events: seq<Event>, m: nat)
    requires Trace(events, m) != []
    ensures exists i | 0 <= i < |events| ::
              events[i].mint == m && events[i] == Trace(events, m)[|Trace(events, m)| - 1]
  {
    if events[|events| - 1].mint != m { LastOfTrace(events[..|events| - 1], m); }
  }

  /**
   A mint logs one line exactly when it returns a token: the line names the identity the token was minted for and the
   identity token exchanged for it, is the last thing the mint does and is never repeated.
   */
  lemma LoggedIffReturned(s: State, m: nat)
    requires Reachable(s) && m < |s.phases|
    ensures s.phases[m].Minted? <==> exists i | 0 <= i < |s.events| :: s.events[i].MintLogged? && s.events[i].mint == m
    ensures forall i, j | 0 <= i < j < |s.events| && s.events[i].mint == m && s.events[j].mint == m ::
              !s.events[i].MintLogged?
    ensures forall i | 0 <= i < |s.events| && s.events[i].MintLogged? && s.events[i].mint == m ::
              s.events[i] == MintLogged(m, s.phases[m].identity, s.phases[m].proof)
  {
    ReachableInv(s);
    forall i | 0 <= i < |s.events| && s.events[i].MintLogged? && s.events[i].mint == m
      ensures s.phases[m].Minted? && s.events[i] == MintLogged(m, s.phases[m].identity, s.phases[m].proof)
    {
      LoggedTrace(s, i);
    }
    if s.phases[m].Minted? { MintedIsLogged(s, m); }
    forall i, j | 0 <= i < j < |s.events| && s.events[i].mint == m && s.events[j].mint == m
      ensures !s.events[i].MintLogged?
    {
      if s.events[i].MintLogged? { NothingAfterLog(s, i, j); }
    }
  }

  lemma MintedIsLogged(s: State, m: nat)
    requires Inv(s) && m < |s.phases| && s.phases[m].Minted?
    ensures exists i | 0 <= i < |s.events| :: s.events[i].MintLogged? && s.events[i].mint == m
  {
    assert MintOk(s, m);
    hide Admit, Trace;
    LastOfTrace(s.events, m);
  }

  lemma NothingAfterLog(s: State, i: nat, j: nat)
    requires Inv(s) && i < |s.events| && j < |s.events| && s.events[i].mint == s.events[j].mint
    requires s.events[i].MintLogged?
    ensures j <= i
  {
    if i < j {
      LoggedTrace(s, i);
      Located(s, j);
      hide Inv, MintOk, Trace, Attempt;
      TraceAt(s.events, i);
      TraceLater(s.events, i, j);
      assert false;
    }
  }

  /**
   A token is returned only within the deadline. It is reported to expire no later than the provider will stop accepting
   it, and at most six seconds earlier.
   */
  lemma ReturnedInTime(s: State, m: nat)
    requires Reachable(s) && m < |s.phases| && s.phases[m].Minted?
    ensures var p := s.phases[m];
            && p.startedAt <= p.at < p.startedAt + MINT_DEADLINE_SECONDS
            && p.expiresAt <= p.providerUntil < p.expiresAt + 6.0 && p.token != ""
  {
    ReachableInv(s);
    assert MintOk(s, m);
  }

  /** One step past the deadline. */
  lemma OverDeadline(s: State, a: Action, m: nat)
    requires m < |s.phases| && InFlight(s.phases[m]) && s.now >= s.phases[m].startedAt + MINT_DEADLINE_SECONDS
    requires Enabled(s, a)
    ensures var t := Apply(s, a);
            && |t.phases| == |t.requests| == |s.phases| && t.now >= s.now && Trace(t.events, m) == Trace(s.events, m)
            && t.phases[m] in {s.phases[m], Raised(UpstreamServiceError, s.phases[m]), Raised(Cancelled, s.phases[m])}
  {
    hide Trace, Admit, ParseOAuth, ParseGoogle, PostJson, OAuthExpiry, GoogleExpiry, IdentityFor, RouteOf;
    var t := Apply(s, a);
    if t.events != s.events {
      var e := t.events[|t.events| - 1];
      assert t.events == s.events + [e] && e.mint != m;
      TraceOther(s.events, e, m);
    }
  }

  /** The session STS is asked to sign for always outlives the identity token it is asked for, which is within STS's range. */
  lemma TokenFitsSession(s: State, m: nat)
    requires Reachable(s) && InTime(s, m) && m < |s.requests| && s.phases[m].Proving?
    ensures RouteOf(s.requests[m].kind).Some?
    ensures var seconds := RouteOf(s.requests[m].kind).value.tokenSeconds;
            && 60 <= seconds <= 3600
            && s.now + seconds as real < s.phases[m].assumedAt + FEDERATION_SESSION_SECONDS as real
  {
    ReachableInv(s);
    assert MintOk(s, m);
    hide ValidateFederationRoleArn, Arn.CallerRoleName, Arn.CallerSession;
  }

  /** The line of a mint for a session of `role` names that role, that session and the role's project. */
  lemma MintLineNamesCaller(s: State, i: nat, account: string, role: string, session: string)
    requires Reachable(s) && i < |s.events| && s.events[i].MintLogged?
    requires Arn.IsField(account) && Arn.IsField(role) && Arn.IsField(session)
    requires Arn.IsRoleSessionName(role) && session != ""
    requires s.events[i].mint < |s.requests|
    requires s.requests[s.events[i].mint].principal ==
             Arn.ParseIdentityFromArn(Arn.AssumedRoleArn(account, role, session))
    ensures var identity := s.events[i].identity;
            && identity.roleArn == s.requests[s.events[i].mint].roleArn
            && identity.principal == role && identity.session == session && identity.user != ""
            && identity.project == match Arn.ProjectOfRole(role)
                                   case None => ""
                                   case Some(p) => if p == "unknown" then "" else p
  {
    ReachableInv(s);
    LoggedTrace(s, i);
    assert MintOk(s, s.events[i].mint);
    Arn.IdentityRoundTrip(account, role, session);
    Arn.ProjectRoundTrip(account, role, session);
    hide ValidateFederationRoleArn, Arn.CallerRoleName, Arn.CallerSession, Arn.CallerProject, Arn.ParseIdentityFromArn,
      Arn.AssumedRoleArn, Arn.ProjectOfRole, Trace, Attempt, TimesOk;
  }

  /** A minted Google token with at least the minimum lifetime is always worth caching when it is returned. */
  lemma GcpMintIsCached(s: State, m: nat, cacheDuration: int, lifetime: int)
    requires Reachable(s) && m < |s.phases| && m < |s.requests| && s.phases[m].Minted? && s.requests[m].kind == GcpWif
    requires cacheDuration >= 1 && lifetime >= GCP_MIN_LIFETIME_SECONDS
    requires s.phases[m].providerUntil >= s.phases[m].startedAt + lifetime as real
    ensures EffectiveCacheTtl(cacheDuration, s.phases[m].expiresAt, s.phases[m].at) >= Min(cacheDuration, lifetime - 67) > 0
  {
    ReachableInv(s);
    assert MintOk(s, m);
    var p := s.phases[m];
    GcpTokenIsCached(cacheDuration, lifetime, p.startedAt, p.providerUntil - lifetime as real, p.at);
  }

  // ---- how a mint can end ----

  /** A mint that has ended stays as it ended and sends and logs nothing more. */
  lemma EndedStep(s: State, a: Action, m: nat)
    requires Enabled(s, a) && m < |s.phases| && (s.phases[m].Raised? || s.phases[m].Minted?)
    ensures var t := Apply(s, a);
            && t.phases[m] == s.phases[m] && |t.phases| == |s.phases| && Trace(t.events, m) == Trace(s.events, m)
            && !SaysUnavailable(a, m)
  {
    hide Trace, Admit, ParseOAuth, ParseGoogle, PostJson, OAuthExpiry, GoogleExpiry, IdentityFor, RouteOf;
    var t := Apply(s, a);
    if t.events != s.events {
      var e := t.events[|t.events| - 1];
      assert t.events == s.events + [e] && e.mint != m;
      TraceOther(s.events, e, m);
    }
  }

  lemma {:induction false} EndedStays(s: State, acts: seq<Action>, t: State, m: nat)
    requires IsRun(s, acts, t) && m < |s.phases| && (s.phases[m].Raised? || s.phases[m].Minted?)
    ensures |t.phases| == |s.phases| && t.phases[m] == s.phases[m] && Trace(t.events, m) == Trace(s.events, m)
    ensures forall i | 0 <= i < |acts| :: !SaysUnavailable(acts[i], m)
    decreases |acts|
  {
    hide Enabled, Apply, Trace, SaysUnavailable;
    if acts != [] {
      EndedStep(s, acts[0], m);
      EndedStays(Apply(s, acts[0]), acts[1..], t, m);
      assert forall i | 1 <= i < |acts| :: acts[i] == acts[1..][i - 1];
    }
  }

  /** STS or the provider could not be reached or said that it is overloaded or failing, or time ran out. */
  predicate SaysUnavailable(a: Action, m: nat) {
    match a
    case OnRole(n, role) => n == m && role.RoleUnreachable?
    case OnToken(n, issue) => n == m && issue.TokenUnreachable?
    case OnReply(n, reply, _) => n == m && (reply.TransportFailure? || reply.status >= 500 || reply.status == 429)
    case Deadline(n) => n == m
    case _ => false
  }

  lemma UnavailableStep(s: State, a: Action, m: nat)
    requires Enabled(s, a) && m < |s.phases| && !s.phases[m].Raised? && !s.phases[m].Minted?
    ensures var t := Apply(s, a);
            && |t.phases| == |s.phases|
            && (SaysUnavailable(a, m) <==> t.phases[m].Raised? && t.phases[m].error == UpstreamServiceError)
  {
    hide Admit, ParseOAuth, ParseGoogle, PostJson, OAuthExpiry, GoogleExpiry, IdentityFor, RouteOf;
  }

  /**
   Over any run: a mint ends as unavailable if and only if one of its calls was answered that way or its time ran out, and
   whatever was answered before that it has not returned a token.
   */
  lemma {:induction false} UnavailableExactly(s: State, acts: seq<Action>, t: State, m: nat)
    requires IsRun(s, acts, t) && m < |s.phases| && !s.phases[m].Raised? && !s.phases[m].Minted?
    ensures m < |t.phases|
    ensures t.phases[m].Raised? && t.phases[m].error == UpstreamServiceError <==>
            exists i | 0 <= i < |acts| :: SaysUnavailable(acts[i], m)
    decreases |acts|
  {
    hide Enabled, Apply, SaysUnavailable;
    if acts != [] {
      UnavailableStep(s, acts[0], m);
      var next := Apply(s, acts[0]);
      assert forall i | 1 <= i < |acts| :: acts[i] == acts[1..][i - 1];
      if next.phases[m].Raised? || next.phases[m].Minted? {
        EndedStays(next, acts[1..], t, m);
      } else {
        UnavailableExactly(next, acts[1..], t, m);
        if i: nat :| i < |acts[1..]| && SaysUnavailable(acts[1..][i], m) { assert SaysUnavailable(acts[i + 1], m); }
      }
    }
  }

  /**
   From a mint whose time is over, every run leaves it where it is or ends it as unavailable or cancelled: it sends and
   logs nothing more and never returns a token. And the step that ends it stays possible until it happens.
   */
  lemma {:induction false} OverdueNeverReturns(s: State, acts: seq<Action>, t: State, m: nat)
    requires m < |s.phases| && InFlight(s.phases[m]) && s.now >= s.phases[m].startedAt + MINT_DEADLINE_SECONDS
    requires |s.phases| == |s.requests| && IsRun(s, acts, t)
    ensures m < |t.phases| && Trace(t.events, m) == Trace(s.events, m)
    ensures t.phases[m] in {s.phases[m], Raised(UpstreamServiceError, s.phases[m]), Raised(Cancelled, s.phases[m])}
    ensures t.phases[m] == s.phases[m] ==> Enabled(t, Deadline(m))
    decreases |acts|
  {
    hide Apply, Trace;
    if acts != [] {
      OverDeadline(s, acts[0], m);
      var next := Apply(s, acts[0]);
      if next.phases[m] == s.phases[m] {
        OverdueNeverReturns(next, acts[1..], t, m);
      } else {
        EndedStays(next, acts[1..], t, m);
      }
    }
  }

  lemma EmptyRun(s: State)
    ensures IsRun(s, [], s)
  {
  }

  lemma {:induction false} RunSnoc(s: State, acts: seq<Action>, t: State, a: Action)
    requires IsRun(s, acts, t) && Enabled(t, a)
    ensures IsRun(s, acts + [a], Apply(t, a))
    decreases |acts|
  {
    hide Enabled, Apply;
    if acts == [] {
      assert [a][1..] == [] && [] + [a] == [a];
      EmptyRun(Apply(t, a));
    } else {
      RunSnoc(Apply(s, acts[0]), acts[1..], t, a);
      assert (acts + [a])[1..] == acts[1..] + [a];
    }
  }

  lemma ReachableStep(s: State, a: Action)
    requires Reachable(s) && Enabled(s, a)
    ensures Reachable(Apply(s, a))
  {
    var config, requests, acts :| IsRun(Init(config, requests), acts, s);
    hide Enabled, Apply, IsRun;
    RunSnoc(Init(config, requests), acts, s, a);
  }

  // ---- the object ----

  /** One method per action. A valid object is the end of a run, so a history of calls on it is one. */
  class TokenMintService {
    const config: Config
    const requests: seq<Request>
    var phases: seq<Phase>
    var now: real
    var nextToken: nat
    var events: seq<Event>

    ghost function View(): State
      reads this
    {
      State(config, requests, phases, now, nextToken, events)
    }

    predicate Shaped()
      reads this
    {
      |phases| == |requests|
    }

    ghost predicate Valid()
      reads this
    {
      Shaped() && Reachable(View())
    }

    constructor (config: Config, requests: seq<Request>)
      ensures Valid() && View() == Init(config, requests)
    {
      this.config, this.requests := config, requests;
      phases, now, nextToken, events := seq(|requests|, _ => Ready), 0.0, 0, [];
      new;
      EmptyRun(Init(config, requests));
    }

    method Move(m: nat, p: Phase, sent: Event)
      requires Shaped() && m < |phases|
      modifies this`phases, this`events
      ensures Shaped() && View() == Send(old(View()), m, p, sent)
    {
      phases, events := phases[m := p], events + [sent];
    }

    method Raise(m: nat, error: Error)
      requires Shaped() && m < |phases|
      modifies this`phases
      ensures Shaped() && View() == Fail(old(View()), m, error)
    {
      phases := phases[m := Raised(error, phases[m])];
    }

    predicate Waiting(m: nat)
      reads this
    {
      m < |phases| && InFlight(phases[m]) && now < phases[m].startedAt + MINT_DEADLINE_SECONDS
    }

    /** `mint` up to its first await. */
    method Mint(m: nat) returns (ran: bool)
      requires Valid()
      modifies this
      ensures Valid() && ran == Enabled(old(View()), Begin(m))
      ensures View() == if ran then Apply(old(View()), Begin(m)) else old(View())
    {
      hide Reachable;
      hide ValidateFederationRoleArn, Arn.CallerRoleName, Arn.CallerSession;
      ran := m < |phases| && phases[m].Ready?;
      if ran {
        var r := requests[m];
        var verdict := ValidateFederationRoleArn(r.roleArn, config.allowedAccountIds, config.rolePathPrefix);
        if verdict != Accepted || RouteOf(r.kind).None? {
          Raise(m, AuthenticationError);
        } else {
          var roleName, session := Arn.CallerRoleName(r.principal), Arn.CallerSession(r.principal);
          if !roleName.Ok? || !session.Ok? {
            Raise(m, CredentialsError);
          } else if !config.hasStsEndpoint {
            Raise(m, ConfigurationError);
          } else {
            Move(m, Assuming(now), AssumeRole(m, r.roleArn, roleName.value));
          }
        }
      }
      if ran { ReachableStep(old(View()), Begin(m)); }
    }

    method OnRoleAnswered(m: nat, role: RoleAnswer) returns (ran: bool)
      requires Valid()
      modifies this
      ensures Valid() && ran == Enabled(old(View()), OnRole(m, role))
      ensures View() == if ran then Apply(old(View()), OnRole(m, role)) else old(View())
    {
      hide Reachable;
      hide Admit, RouteOf, IdentityFor;
      ran := Waiting(m) && phases[m].Assuming? && Admit(config, requests[m]).Good?
             && (role.Assumed? ==> phases[m].startedAt <= role.at <= now);
      if ran {
        var r := requests[m];
        match role {
          case RoleRefused(code) =>
            if code == "ExpiredToken" { Raise(m, CredentialsError); } else { Raise(m, AuthenticationError); }
          case RoleUnreachable => Raise(m, UpstreamServiceError);
          case Assumed(at, sourceIdentity) =>
            RouteFound(config, r);
            var (roleName, session) := Admit(config, r).value;
            var route := RouteOf(r.kind).value;
            Move(m, Proving(phases[m].startedAt, IdentityFor(r, roleName, session, sourceIdentity), at),
                 GetWebIdentityToken(m, r.audience, route.algorithm, route.tokenSeconds));
        }
      }
      if ran { ReachableStep(old(View()), OnRole(m, role)); }
    }

    method OnTokenAnswered(m: nat, issue: TokenAnswer) returns (ran: bool)
      requires Valid()
      modifies this
      ensures Valid() && ran == Enabled(old(View()), OnToken(m, issue))
      ensures View() == if ran then Apply(old(View()), OnToken(m, issue)) else old(View())
    {
      hide Reachable;
      hide Admit;
      ran := Waiting(m) && phases[m].Proving? && Admit(config, requests[m]).Good?;
      if ran {
        match issue {
          case TokenRefused => Raise(m, AuthenticationError);
          case TokenUnreachable => Raise(m, UpstreamServiceError);
          case Issued =>
            var proof := nextToken;
            nextToken := nextToken + 1;
            Move(m, Exchanging(phases[m].startedAt, phases[m].identity, proof, now), Exchange(m, requests[m].kind, proof));
        }
      }
      if ran { ReachableStep(old(View()), OnToken(m, issue)); }
    }

    method OnProviderReply(m: nat, reply: Reply, issuedAt: real) returns (ran: bool)
      requires Valid()
      modifies this
      ensures Valid() && ran == Enabled(old(View()), OnReply(m, reply, issuedAt))
      ensures View() == if ran then Apply(old(View()), OnReply(m, reply, issuedAt)) else old(View())
    {
      hide Reachable;
      hide PostJson, ParseOAuth, ParseGoogle, OAuthExpiry, GoogleExpiry, Admit;
      ran := Waiting(m) && (phases[m].Exchanging? || phases[m].Impersonating?)
             && (phases[m].Exchanging? ==> phases[m].requestedAt <= issuedAt <= now);
      if ran {
        var p := phases[m];
        var body := PostJson(reply);
        if body.Bad? {
          Raise(m, body.error);
        } else if p.Exchanging? {
          OnExchanged(m, ParseOAuth(body.value), issuedAt);
        } else {
          OnImpersonated(m, ParseGoogle(body.value));
        }
      }
      if ran { ReachableStep(old(View()), OnReply(m, reply, issuedAt)); }
    }

    method OnExchanged(m: nat, parsed: Checked<(string, int)>, issuedAt: real)
      requires Shaped() && m < |phases| && phases[m].Exchanging?
      modifies this`phases, this`events
      ensures Shaped() && View() == var s := old(View()); var p := s.phases[m];
                                   if parsed.Bad? then Fail(s, m, parsed.error)
                                   else if requests[m].kind == GcpWif then
                                     Send(s, m, Impersonating(p.startedAt, p.identity, p.proof, parsed.value.0),
                                          Impersonate(m, parsed.value.0))
                                   else
                                     FinishMint(s, m, Minted(p.startedAt, p.identity, p.proof, "", parsed.value.0,
                                                             OAuthExpiry(p.requestedAt, parsed.value.1),
                                                             issuedAt + parsed.value.1 as real, now))
    {
      var p := phases[m];
      if parsed.Bad? {
        Raise(m, parsed.error);
      } else if requests[m].kind == GcpWif {
        Move(m, Impersonating(p.startedAt, p.identity, p.proof, parsed.value.0), Impersonate(m, parsed.value.0));
      } else {
        Move(m, Minted(p.startedAt, p.identity, p.proof, "", parsed.value.0, OAuthExpiry(p.requestedAt, parsed.value.1),
                       issuedAt + parsed.value.1 as real, now),
             MintLogged(m, p.identity, p.proof));
      }
    }

    method OnImpersonated(m: nat, parsed: Checked<(string, real)>)
      requires Shaped() && m < |phases| && phases[m].Impersonating?
      modifies this`phases, this`events
      ensures Shaped() && View() == var s := old(View()); var p := s.phases[m];
                                   if parsed.Bad? then Fail(s, m, parsed.error)
                                   else
                                     FinishMint(s, m, Minted(p.startedAt, p.identity, p.proof, p.bearer, parsed.value.0,
                                                             GoogleExpiry(parsed.value.1), parsed.value.1, now))
    {
      var p := phases[m];
      if parsed.Bad? {
        Raise(m, parsed.error);
      } else {
        Move(m, Minted(p.startedAt, p.identity, p.proof, p.bearer, parsed.value.0, GoogleExpiry(parsed.value.1),
                       parsed.value.1, now),
             MintLogged(m, p.identity, p.proof));
      }
    }

    method OnDeadline(m: nat) returns (ran: bool)
      requires Valid()
      modifies this`phases
      ensures Valid() && ran == Enabled(old(View()), Deadline(m))
      ensures View() == if ran then Apply(old(View()), Deadline(m)) else old(View())
    {
      hide Reachable;
      ran := m < |phases| && InFlight(phases[m]) && !Waiting(m);
      if ran { Raise(m, UpstreamServiceError); }
      if ran { ReachableStep(old(View()), Deadline(m)); }
    }

    method OnTick(dt: real)
      requires Valid() && dt >= 0.0
      modifies this`now
      ensures Valid() && View() == Apply(old(View()), Tick(dt))
    {
      hide Reachable;
      now := now + dt;
      ReachableStep(old(View()), Tick(dt));
    }

    method OnCancelled(m: nat) returns (ran: bool)
      requires Valid()
      modifies this`phases
      ensures Valid() && ran == Enabled(old(View()), CancelTask(m))
      ensures View() == if ran then Apply(old(View()), CancelTask(m)) else old(View())
    {
      hide Reachable;
      ran := m < |phases| && InFlight(phases[m]);
      if ran { Raise(m, Cancelled); }
      if ran { ReachableStep(old(View()), CancelTask(m)); }
    }
  }

  lemma RouteFound(config: Config, r: Request)
    requires Admit(config, r).Good?
    ensures RouteOf(r.kind).Some?
  {
    hide ValidateFederationRoleArn, Arn.CallerRoleName, Arn.CallerSession;
  }
}
