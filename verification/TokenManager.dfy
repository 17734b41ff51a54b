/**
 * The FMC token lifecycle as a step machine.
 *
 * The code between two awaits runs atomically, so one step is one synchronous
 * segment: a call of getToken or forceReauth up to its first await, the
 * continuation that runs when an auth POST is answered, the later `finally`
 * callback that clears the single-flight slot, and close().
 *
 * `State` is the specification level: the manager's closure variables, the
 * promises it created, and the history of what it did. The class in
 * TokenManagerClass.dfy holds the same variables and is proved against it.
 */
module TokenManager {
  import opened Prelude

  type Token = string

  const PROACTIVE_REFRESH_MS: real := 1440000.0
  const MAX_REFRESHES: nat := 3

  datatype AuthError =
    | CalledAfterClose
    | StatusError(status: int)
    | MissingTokenHeader
    | TransportError(message: string)

  /** An `auth_fatal` status: the only login answers that latch. */
  predicate BadCredentials(e: AuthError) { e.StatusError? && (e.status == 401 || e.status == 403) }

  /** What an auth POST comes back with: a transport failure, or a status and the headers that matter. */
  datatype Reply =
    | NoReply(message: string)
    | Reply(status: int, access: Option<Token>, refresh: Option<Token>, domain: Option<string>)

  datatype Post = Login(isReauth: bool) | Refresh(access: Token, refresh: Token)

  /** Why a POST was issued. A forced login remembers the token it discarded. */
  datatype Cause = ByGetToken | ByForce(discarded: Option<Token>) | ByFallback

  /** One single-flight promise: its POST is outstanding, it settled but its `finally` has not run, or it is finished. */
  datatype Flight = Posted(post: Post) | Settled(outcome: Result<Token, AuthError>) | Finished(outcome: Result<Token, AuthError>)

  datatype Manager = Manager(
    accessToken: Option<Token>,
    refreshToken: Option<Token>,
    domainUuid: Option<string>,
    refreshCount: nat,
    proactiveRefreshAt: Option<real>,
    hasEverAuthenticated: bool,
    inFlight: Option<nat>,
    closed: bool,
    credentialsFailure: Option<AuthError>,
    flights: seq<Flight>)

  datatype Event =
    | PostIssued(post: Post, cause: Cause)
    | LoginOk(token: Token, refresh: Option<Token>, domain: Option<string>, at: real, isReauth: bool)
    | LoginFailed(error: AuthError)
    | RefreshOk(token: Token, refresh: Option<Token>, domain: Option<string>, at: real)
    | RefreshRejected(status: int)
    | RefreshErrored(error: AuthError)
    | ReauthCalled(presented: Token, current: Option<Token>)
    | CloseCalled

  /** Everything that happened so far, newest last. */
  datatype History = Start | Then(before: History, last: Event)

  datatype State = State(m: Manager, clock: real, log: History)

  /** What a call gives back at once: it throws, returns a token, or returns the promise of a flight. */
  datatype Answer = Threw(error: AuthError) | Returned(token: Token) | Joined(flight: nat)

  const Fresh: Manager := Manager(None, None, None, 0, None, false, None, false, None, [])

  function Initial(now: real): State { State(Fresh, now, Start) }

  // ---------------------------------------------------------------- segments

  /** Joins the flight in the slot, or starts a new one from `m` for `post`. */
  function Acquire(m: Manager, log: History, post: Post, cause: Cause): (Manager, History, Answer)
  {
    if m.inFlight.Some? then (m, log, Joined(m.inFlight.value))
    else (m.(flights := m.flights + [Posted(post)], inFlight := Some(|m.flights|)),
          Then(log, PostIssued(post, cause)),
          Joined(|m.flights|))
  }

  /** The POST of a proactive renewal: a refresh while the quota lasts and a pair is held, else a login. */
  function RenewalPost(m: Manager): Post
  {
    if m.refreshCount < MAX_REFRESHES && m.accessToken.Some? && m.refreshToken.Some?
    then Refresh(m.accessToken.value, m.refreshToken.value)
    else Login(true)
  }

  predicate RenewalDue(m: Manager, now: real)
  {
    m.proactiveRefreshAt.Some? && now >= m.proactiveRefreshAt.value
  }

  function GetToken(m: Manager, log: History, now: real): (Manager, History, Answer)
  {
    if m.closed then (m, log, Threw(CalledAfterClose))
    else if m.credentialsFailure.Some? then (m, log, Threw(m.credentialsFailure.value))
    else if m.accessToken.None? then Acquire(m, log, Login(m.hasEverAuthenticated), ByGetToken)
    else if RenewalDue(m, now) then Acquire(m, log, RenewalPost(m), ByGetToken)
    else (m, log, Returned(m.accessToken.value))
  }

  function ForceReauth(m: Manager, log: History, stale: Token): (Manager, History, Answer)
  {
    if m.closed then (m, log, Threw(CalledAfterClose))
    else if m.credentialsFailure.Some? then (m, log, Threw(m.credentialsFailure.value))
    else
      var called := Then(log, ReauthCalled(stale, m.accessToken));
      if m.inFlight.Some? then (m, called, Joined(m.inFlight.value))
      else if m.accessToken.Some? && m.accessToken.value != stale then (m, called, Returned(m.accessToken.value))
      else Acquire(m.(accessToken := None, refreshToken := None), called, Login(true), ByForce(m.accessToken))
  }

  function Close(m: Manager, log: History): (Manager, History)
  {
    (m.(closed := true, accessToken := None, refreshToken := None), Then(log, CloseCalled))
  }

  /** A 204 that carries a token installs the new pair and re-arms the renewal. */
  function Install(m: Manager, r: Reply, now: real): Manager
    requires r.Reply? && r.access.Some?
  {
    m.(accessToken := r.access, refreshToken := r.refresh,
       domainUuid := if r.domain.Some? then r.domain else m.domainUuid,
       proactiveRefreshAt := Some(now + PROACTIVE_REFRESH_MS))
  }

  function Settle(m: Manager, f: nat, outcome: Result<Token, AuthError>): Manager
    requires f < |m.flights|
  {
    m.(flights := m.flights[f := Settled(outcome)])
  }

  function LoginError(r: Reply): (e: Option<AuthError>)
  {
    if r.NoReply? then Some(TransportError(r.message))
    else if r.status != 204 then Some(StatusError(r.status))
    else if r.access.None? then Some(MissingTokenHeader)
    else None
  }

  /** The continuation of a login POST. */
  function OnLoginReply(m: Manager, log: History, f: nat, r: Reply, now: real): (Manager, History)
    requires f < |m.flights| && m.flights[f].Posted? && m.flights[f].post.Login?
  {
    match LoginError(r)
    case Some(e) =>
      (Settle(m, f, Err(e)).(credentialsFailure := if BadCredentials(e) then Some(e) else m.credentialsFailure),
       Then(log, LoginFailed(e)))
    case None =>
      (Settle(Install(m, r, now), f, Ok(r.access.value)).(refreshCount := 0, hasEverAuthenticated := true),
       Then(log, LoginOk(r.access.value, r.refresh, r.domain, now, m.flights[f].post.isReauth)))
  }

  /** The continuation of a refresh POST: any answered status but 204 drops the pair and logs in within the same flight. */
  function OnRefreshReply(m: Manager, log: History, f: nat, r: Reply, now: real): (Manager, History)
    requires f < |m.flights| && m.flights[f].Posted? && m.flights[f].post.Refresh?
  {
    match LoginError(r)
    case None =>
      (Settle(Install(m, r, now), f, Ok(r.access.value)).(refreshCount := m.refreshCount + 1),
       Then(log, RefreshOk(r.access.value, r.refresh, r.domain, now)))
    case Some(StatusError(status)) =>
      (m.(accessToken := None, refreshToken := None, flights := m.flights[f := Posted(Login(true))]),
       Then(Then(log, RefreshRejected(status)), PostIssued(Login(true), ByFallback)))
    case Some(e) =>
      (Settle(m, f, Err(e)), Then(log, RefreshErrored(e)))
  }

  /** The `finally` callback: clears the slot if it still holds this flight. */
  function OnFinally(m: Manager, f: nat): Manager
    requires f < |m.flights| && m.flights[f].Settled?
  {
    m.(flights := m.flights[f := Finished(m.flights[f].outcome)],
       inFlight := if m.inFlight == Some(f) then None else m.inFlight)
  }

  // -------------------------------------------------------------------- runs

  datatype Action =
    | CallGetToken(now: real)
    | CallForceReauth(stale: Token, now: real)
    | CallClose
    | PostAnswered(flight: nat, reply: Reply, now: real)
    | RunFinally(flight: nat)

  /** The answered or finally step can only run for a flight in the right phase; clocks never go back. */
  predicate Enabled(s: State, a: Action)
  {
    match a
    case CallGetToken(now) => s.clock <= now
    case CallForceReauth(_, now) => s.clock <= now
    case CallClose => true
    case PostAnswered(f, _, now) => s.clock <= now && f < |s.m.flights| && s.m.flights[f].Posted?
    case RunFinally(f) => f < |s.m.flights| && s.m.flights[f].Settled?
  }

  /** One step; an action that cannot happen now changes nothing. */
  function Step(s: State, a: Action): State
  {
    if !Enabled(s, a) then s else
    match a
    case CallGetToken(now) =>
      var (m, log, _) := GetToken(s.m, s.log, now); State(m, now, log)
    case CallForceReauth(stale, now) =>
      var (m, log, _) := ForceReauth(s.m, s.log, stale); State(m, now, log)
    case CallClose =>
      var (m, log) := Close(s.m, s.log); State(m, s.clock, log)
    case PostAnswered(f, r, now) =>
      var (m, log) := if s.m.flights[f].post.Login? then OnLoginReply(s.m, s.log, f, r, now)
                      else OnRefreshReply(s.m, s.log, f, r, now);
      State(m, now, log)
    case RunFinally(f) => State(OnFinally(s.m, f), s.clock, s.log)
  }

  /** Any interleaving is a sequence of actions. */
  function Exec(s: State, actions: seq<Action>): State
    decreases |actions|
  {
    if actions == [] then s else Exec(Step(s, actions[0]), actions[1..])
  }

  // ------------------------------------------------- what the history says

  function Outstanding(log: History): int
  {
    match log
    case Start => 0
    case Then(h, e) =>
      Outstanding(h) + (match e
                        case PostIssued(_, _) => 1
                        case LoginOk(_, _, _, _, _) => -1
                        case LoginFailed(_) => -1
                        case RefreshOk(_, _, _, _) => -1
                        case RefreshRejected(_) => -1
                        case RefreshErrored(_) => -1
                        case _ => 0)
  }

  function Posts(log: History): nat
  {
    match log
    case Start => 0
    case Then(h, e) => Posts(h) + if e.PostIssued? then 1 else 0
  }

  function RefreshesSinceLogin(log: History): nat
  {
    match log
    case Start => 0
    case Then(_, LoginOk(_, _, _, _, _)) => 0
    case Then(h, e) => RefreshesSinceLogin(h) + if e.RefreshOk? then 1 else 0
  }

  /** The newest token the server issued, and when. */
  function LastIssued(log: History): Option<(Token, real)>
  {
    match log
    case Start => None
    case Then(_, LoginOk(t, _, _, at, _)) => Some((t, at))
    case Then(_, RefreshOk(t, _, _, at)) => Some((t, at))
    case Then(h, _) => LastIssued(h)
  }

  function IssuedTokens(log: History): set<Token>
  {
    match log
    case Start => {}
    case Then(h, LoginOk(t, _, _, _, _)) => IssuedTokens(h) + {t}
    case Then(h, RefreshOk(t, _, _, _)) => IssuedTokens(h) + {t}
    case Then(h, _) => IssuedTokens(h)
  }

  /** The tokens the server issued, in order. */
  function IssuedSeq(log: History): seq<Token>
  {
    match log
    case Start => []
    case Then(h, LoginOk(t, _, _, _, _)) => IssuedSeq(h) + [t]
    case Then(h, RefreshOk(t, _, _, _)) => IssuedSeq(h) + [t]
    case Then(h, _) => IssuedSeq(h)
  }

  /** The server hands out each token value at most once. */
  predicate NeverReissues(log: History)
  {
    match log
    case Start => true
    case Then(h, LoginOk(t, _, _, _, _)) => t !in IssuedTokens(h) && NeverReissues(h)
    case Then(h, RefreshOk(t, _, _, _)) => t !in IssuedTokens(h) && NeverReissues(h)
    case Then(h, _) => NeverReissues(h)
  }

  function LoginFailures(log: History): nat
  {
    match log
    case Start => 0
    case Then(h, e) => LoginFailures(h) + if e.LoginFailed? then 1 else 0
  }

  /** Logins started by forceReauth. */
  function ForcedLogins(log: History): nat
  {
    match log
    case Start => 0
    case Then(h, e) => ForcedLogins(h) + if e.PostIssued? && e.cause.ByForce? then 1 else 0
  }

  /** Those that had no token to discard. */
  function ForcedWithoutToken(log: History): nat
  {
    match log
    case Start => 0
    case Then(h, e) => ForcedWithoutToken(h) + if e.PostIssued? && e.cause == ByForce(None) then 1 else 0
  }

  function DiscardedTokens(log: History): set<Token>
  {
    match log
    case Start => {}
    case Then(h, PostIssued(_, ByForce(Some(t)))) => DiscardedTokens(h) + {t}
    case Then(h, _) => DiscardedTokens(h)
  }

  /** Tokens some forceReauth call presented while they were the manager's current token. */
  function PresentedWhileCurrent(log: History): set<Token>
  {
    match log
    case Start => {}
    case Then(h, ReauthCalled(t, Some(c))) => PresentedWhileCurrent(h) + if t == c then {t} else {}
    case Then(h, _) => PresentedWhileCurrent(h)
  }

  // --------------------------------------------------------------- invariant

  predicate Active(m: Manager) { m.inFlight.Some? }

  predicate PostOutstanding(m: Manager)
  {
    m.inFlight.Some? && m.inFlight.value < |m.flights| && m.flights[m.inFlight.value].Posted?
  }

  /** The slot holds exactly the one flight that is not finished. */
  ghost predicate SingleFlight(m: Manager)
  {
    && (m.inFlight.Some? ==> m.inFlight.value < |m.flights| && !m.flights[m.inFlight.value].Finished?)
    && (forall f :: 0 <= f < |m.flights| && !m.flights[f].Finished? ==> m.inFlight == Some(f))
  }

  ghost predicate Inv(s: State)
  {
    var m := s.m;
    && SingleFlight(m)
    && Outstanding(s.log) == (if PostOutstanding(m) then 1 else 0)
    && m.refreshCount == RefreshesSinceLogin(s.log) <= MAX_REFRESHES
    && (PostOutstanding(m) && m.flights[m.inFlight.value].post.Refresh? ==> m.refreshCount < MAX_REFRESHES)
    && (m.accessToken.Some? ==> IssuedMatches(s))
    && (m.credentialsFailure.Some? ==> BadCredentials(m.credentialsFailure.value) && !PostOutstanding(m))
    && (PostOutstanding(m) && m.flights[m.inFlight.value].post.Refresh? ==> m.hasEverAuthenticated)
    && (m.hasEverAuthenticated <==> LastIssued(s.log).Some?)
  }

  /** The current token is the newest issued one, and its renewal is armed 24 minutes after it was issued. */
  ghost predicate IssuedMatches(s: State)
    requires s.m.accessToken.Some?
  {
    && LastIssued(s.log).Some?
    && LastIssued(s.log).value.0 == s.m.accessToken.value
    && LastIssued(s.log).value.1 <= s.clock
    && s.m.proactiveRefreshAt == Some(LastIssued(s.log).value.1 + PROACTIVE_REFRESH_MS)
  }

  lemma GetTokenKeepsInv(s: State, now: real)
    requires Inv(s) && s.clock <= now
    ensures Inv(Step(s, CallGetToken(now)))
  {
  }

  lemma ForceReauthKeepsInv(s: State, stale: Token, now: real)
    requires Inv(s) && s.clock <= now
    ensures Inv(Step(s, CallForceReauth(stale, now)))
  {
  }

  lemma CloseKeepsInv(s: State)
    requires Inv(s)
    ensures Inv(Step(s, CallClose))
  {
  }

  lemma LoginReplyKeepsInv(s: State, f: nat, r: Reply, now: real)
    requires Inv(s) && Enabled(s, PostAnswered(f, r, now)) && s.m.flights[f].post.Login?
    ensures Inv(Step(s, PostAnswered(f, r, now)))
  {
    assert s.m.inFlight == Some(f);
  }

  lemma RefreshReplyKeepsInv(s: State, f: nat, r: Reply, now: real)
    requires Inv(s) && Enabled(s, PostAnswered(f, r, now)) && s.m.flights[f].post.Refresh?
    ensures Inv(Step(s, PostAnswered(f, r, now)))
  {
    assert s.m.inFlight == Some(f);
  }

  lemma FinallyKeepsInv(s: State, f: nat)
    requires Inv(s) && Enabled(s, RunFinally(f))
    ensures Inv(Step(s, RunFinally(f)))
  {
    assert s.m.inFlight == Some(f);
  }

  lemma StepKeepsInv(s: State, a: Action)
    requires Inv(s)
    ensures Inv(Step(s, a))
  {
    if Enabled(s, a) {
      match a
      case CallGetToken(now) => GetTokenKeepsInv(s, now);
      case CallForceReauth(stale, now) => ForceReauthKeepsInv(s, stale, now);
      case CallClose => CloseKeepsInv(s);
      case PostAnswered(f, r, now) =>
        if s.m.flights[f].post.Login? { LoginReplyKeepsInv(s, f, r, now); } else { RefreshReplyKeepsInv(s, f, r, now); }
      case RunFinally(f) => FinallyKeepsInv(s, f);
    }
  }

  lemma {:induction false} ExecKeepsInv(s: State, actions: seq<Action>)
    requires Inv(s)
    ensures Inv(Exec(s, actions))
    decreases |actions|
  {
    if actions != [] {
      StepKeepsInv(s, actions[0]);
      ExecKeepsInv(Step(s, actions[0]), actions[1..]);
    }
  }
}
