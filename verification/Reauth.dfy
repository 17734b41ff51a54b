/**
 * The adapter's "on a 401, re-authenticate and retry once" policy, run by any
 * number of concurrent requests over one token manager. Each request is a
 * small machine whose steps interleave freely with the manager's own.
 */
module Reauth {
  import opened Prelude
  import opened TokenManager
  import opened TokenManagerSafety

  datatype RequestError = AuthFailed(error: AuthError) | Unauthorized | OtherFailure

  datatype Phase =
    | AwaitToken(answer: Answer)
    | Sent(token: Token)
    | AwaitFresh(stale: Token, answer: Answer)
    | SentAgain(token: Token)
    | Succeeded
    | Failed(error: RequestError)

  /** One request and how often it went out on the wire. */
  datatype Request = Request(phase: Phase, sends: nat)

  /** What the GET itself came back with, retries of the HTTP client included. */
  datatype GetOutcome = Body | Got401 | GotOther

  /** The request once it called getToken: an await always yields, whatever the call answered. */
  function Begin(a: Answer): Request { Request(AwaitToken(a), 0) }

  predicate Awaiting(r: Request) { r.phase.AwaitToken? || r.phase.AwaitFresh? }

  /** An awaited answer is ready at once unless it is the promise of an unfinished flight. */
  predicate Ready(m: Manager, a: Answer)
  {
    a.Joined? ==> a.flight < |m.flights| && m.flights[a.flight].Finished?
  }

  function Outcome(m: Manager, a: Answer): Result<Token, AuthError>
    requires Ready(m, a)
  {
    match a
    case Threw(e) => Err(e)
    case Returned(t) => Ok(t)
    case Joined(f) => m.flights[f].outcome
  }

  /** The request after the promise it awaits delivered. */
  function Deliver(r: Request, outcome: Result<Token, AuthError>): Request
    requires Awaiting(r)
  {
    match outcome
    case Err(e) => r.(phase := Failed(AuthFailed(e)))
    case Ok(t) => Request(if r.phase.AwaitToken? then Sent(t) else SentAgain(t), r.sends + 1)
  }

  /** Only the first send may ask for a re-login. */
  predicate AsksForReauth(r: Request, o: GetOutcome) { r.phase.Sent? && o.Got401? }

  /** The request after its GET ended without a re-login. */
  function Finish(r: Request, o: GetOutcome): Request
    requires (r.phase.Sent? || r.phase.SentAgain?) && !AsksForReauth(r, o)
  {
    r.(phase := match o case Body => Succeeded case Got401 => Failed(Unauthorized) case GotOther => Failed(OtherFailure))
  }

  /** The request once it called forceReauth. */
  function Retry(r: Request, a: Answer): Request
    requires r.phase.Sent?
  {
    r.(phase := AwaitFresh(r.phase.token, a))
  }

  // ------------------------------------------------------------- the system

  /** `invalidated` are the tokens the server no longer honours: only they are answered 401. */
  datatype System = System(tm: State, requests: seq<Request>, invalidated: set<Token>)

  datatype Move =
    | Start(now: real)
    | ManagerMove(action: Action)
    | DeliverTo(i: nat)
    | GetAnswered(i: nat, outcome: GetOutcome, now: real)
    | Invalidate(token: Token)

  predicate Possible(s: System, v: Move)
  {
    match v
    case Start(now) => s.tm.clock <= now
    case ManagerMove(a) => !a.CallForceReauth?
    case DeliverTo(i) =>
      i < |s.requests| && Awaiting(s.requests[i]) && Ready(s.tm.m, s.requests[i].phase.answer)
    case GetAnswered(i, o, now) =>
      && s.tm.clock <= now
      && i < |s.requests|
      && (s.requests[i].phase.Sent? || s.requests[i].phase.SentAgain?)
      && (o.Got401? ==> s.requests[i].phase.token in s.invalidated)
    case Invalidate(_) => true
  }

  function Next(s: System, v: Move): System
  {
    if !Possible(s, v) then s else
    match v
    case Start(now) =>
      var answer := GetToken(s.tm.m, s.tm.log, now).2;
      s.(tm := Step(s.tm, CallGetToken(now)), requests := s.requests + [Begin(answer)])
    case ManagerMove(a) => s.(tm := Step(s.tm, a))
    case DeliverTo(i) =>
      var r := s.requests[i];
      s.(requests := s.requests[i := Deliver(r, Outcome(s.tm.m, r.phase.answer))])
    case GetAnswered(i, o, now) =>
      var r := s.requests[i];
      if AsksForReauth(r, o) then
        var answer := ForceReauth(s.tm.m, s.tm.log, r.phase.token).2;
        s.(tm := Step(s.tm, CallForceReauth(r.phase.token, now)), requests := s.requests[i := Retry(r, answer)])
      else s.(requests := s.requests[i := Finish(r, o)])
    case Invalidate(t) => s.(invalidated := s.invalidated + {t})
  }

  function Play(s: System, moves: seq<Move>): System
    decreases |moves|
  {
    if moves == [] then s else Play(Next(s, moves[0]), moves[1..])
  }

  function Opening(t0: real): System { System(Initial(t0), [], {}) }

  // -------------------------------------------------------------- invariant

  predicate HoldsIssued(r: Request, issued: set<Token>)
  {
    && (r.phase.Sent? || r.phase.SentAgain? ==> r.phase.token in issued)
    && (r.phase.AwaitFresh? ==> r.phase.stale in issued)
    && (Awaiting(r) && r.phase.answer.Returned? ==> r.phase.answer.token in issued)
  }

  predicate SendsMatchPhase(r: Request)
  {
    match r.phase
    case AwaitToken(_) => r.sends == 0
    case Sent(_) => r.sends == 1
    case AwaitFresh(_, _) => r.sends == 1
    case SentAgain(_) => r.sends == 2
    case _ => r.sends <= 2
  }

  ghost predicate OutcomesIssued(s: State)
  {
    forall f :: 0 <= f < |s.m.flights| && !s.m.flights[f].Posted? && s.m.flights[f].outcome.Ok?
      ==> s.m.flights[f].outcome.value in IssuedTokens(s.log)
  }

  /** Without a failed login, a manager that ever had a token always has one or is about to. */
  predicate NeverBare(s: State)
  {
    (LoginFailures(s.log) == 0 && IssuedTokens(s.log) != {} && !s.m.closed)
    ==> (s.m.accessToken.Some? || PostOutstanding(s.m))
  }

  ghost predicate RequestsInv(s: System)
  {
    forall i :: 0 <= i < |s.requests| ==> HoldsIssued(s.requests[i], IssuedTokens(s.tm.log)) && SendsMatchPhase(s.requests[i])
  }

  ghost predicate SystemInv(s: System)
  {
    && Inv(s.tm) && StormInv(s.tm) && OutcomesIssued(s.tm) && NeverBare(s.tm)
    && (LoginFailures(s.tm.log) == 0 ==> ForcedWithoutToken(s.tm.log) == 0)
    && DiscardedTokens(s.tm.log) <= s.invalidated
    && RequestsInv(s)
  }

  /** What the requests rely on across a manager step other than forceReauth. */
  ghost predicate FactsKept(s: State, s': State)
  {
    && Inv(s') && StormInv(s') && OutcomesIssued(s') && NeverBare(s')
    && IssuedTokens(s.log) <= IssuedTokens(s'.log)
    && DiscardedTokens(s'.log) == DiscardedTokens(s.log)
    && ForcedWithoutToken(s'.log) == ForcedWithoutToken(s.log)
    && LoginFailures(s.log) <= LoginFailures(s'.log)
  }

  lemma LoginReplyFacts(s: State, f: nat, r: Reply, now: real)
    requires Inv(s) && OutcomesIssued(s) && NeverBare(s) && Enabled(s, PostAnswered(f, r, now)) && s.m.flights[f].post.Login?
    requires StormInv(Step(s, PostAnswered(f, r, now))) && Inv(Step(s, PostAnswered(f, r, now)))
    ensures FactsKept(s, Step(s, PostAnswered(f, r, now)))
  {
    assert s.m.inFlight == Some(f);
  }

  lemma RefreshReplyFacts(s: State, f: nat, r: Reply, now: real)
    requires Inv(s) && StormInv(s) && OutcomesIssued(s) && NeverBare(s)
    requires Enabled(s, PostAnswered(f, r, now)) && s.m.flights[f].post.Refresh?
    requires StormInv(Step(s, PostAnswered(f, r, now))) && Inv(Step(s, PostAnswered(f, r, now)))
    ensures FactsKept(s, Step(s, PostAnswered(f, r, now)))
  {
    ReplyForcesNothing(s, PostAnswered(f, r, now));
    if LoginError(r).Some? && LoginError(r).value.StatusError? {
      FallbackFacts(s, f, r, now);
    } else {
      RefreshEndFacts(s, f, r, now);
    }
  }

  /** A rejected refresh becomes a login of the same flight, which is outstanding. */
  lemma FallbackFacts(s: State, f: nat, r: Reply, now: real)
    requires Inv(s) && OutcomesIssued(s) && NeverBare(s)
    requires Enabled(s, PostAnswered(f, r, now)) && s.m.flights[f].post.Refresh?
    requires LoginError(r).Some? && LoginError(r).value.StatusError?
    ensures var s' := Step(s, PostAnswered(f, r, now));
            && OutcomesIssued(s') && NeverBare(s') && IssuedTokens(s'.log) == IssuedTokens(s.log)
            && LoginFailures(s'.log) == LoginFailures(s.log)
  {
    assert s.m.inFlight == Some(f);
    var s' := Step(s, PostAnswered(f, r, now));
    var rejected := Then(s.log, RefreshRejected(LoginError(r).value.status));
    assert s'.log == Then(rejected, PostIssued(Login(true), ByFallback));
    assert IssuedTokens(s'.log) == IssuedTokens(rejected) == IssuedTokens(s.log);
    assert LoginFailures(s'.log) == LoginFailures(rejected) == LoginFailures(s.log);
  }

  lemma RefreshEndFacts(s: State, f: nat, r: Reply, now: real)
    requires Inv(s) && StormInv(s) && OutcomesIssued(s) && NeverBare(s)
    requires Enabled(s, PostAnswered(f, r, now)) && s.m.flights[f].post.Refresh?
    requires LoginError(r).None? || !LoginError(r).value.StatusError?
    ensures var s' := Step(s, PostAnswered(f, r, now));
            && OutcomesIssued(s') && NeverBare(s') && IssuedTokens(s.log) <= IssuedTokens(s'.log)
            && LoginFailures(s.log) <= LoginFailures(s'.log)
  {
    assert s.m.inFlight == Some(f);
  }

  lemma FinallyFacts(s: State, f: nat)
    requires Inv(s) && StormInv(s) && OutcomesIssued(s) && NeverBare(s) && Enabled(s, RunFinally(f))
    requires StormInv(Step(s, RunFinally(f))) && Inv(Step(s, RunFinally(f)))
    ensures FactsKept(s, Step(s, RunFinally(f)))
  {
    assert s.m.inFlight == Some(f);
  }

  lemma ManagerStepFacts(s: State, a: Action)
    requires Inv(s) && StormInv(s) && OutcomesIssued(s) && NeverBare(s) && !a.CallForceReauth?
    ensures FactsKept(s, Step(s, a))
  {
    StepKeepsInv(s, a);
    StepKeepsStormInv(s, a);
    if Enabled(s, a) {
      if a.PostAnswered? {
        if s.m.flights[a.flight].post.Login? {
          LoginReplyFacts(s, a.flight, a.reply, a.now);
        } else {
          RefreshReplyFacts(s, a.flight, a.reply, a.now);
        }
      } else if a.RunFinally? {
        FinallyFacts(s, a.flight);
      }
    }
  }

  /** What forceReauth does to them when its caller presents an issued token. */
  lemma ForceFacts(s: State, stale: Token, now: real)
    requires Inv(s) && StormInv(s) && OutcomesIssued(s) && NeverBare(s) && s.clock <= now
    requires stale in IssuedTokens(s.log)
    ensures var s' := Step(s, CallForceReauth(stale, now));
            && Inv(s') && StormInv(s') && OutcomesIssued(s') && NeverBare(s')
            && IssuedTokens(s'.log) == IssuedTokens(s.log)
            && DiscardedTokens(s'.log) <= DiscardedTokens(s.log) + {stale}
            && LoginFailures(s'.log) == LoginFailures(s.log)
            && (LoginFailures(s.log) == 0 ==> ForcedWithoutToken(s'.log) == ForcedWithoutToken(s.log))
  {
    var a := CallForceReauth(stale, now);
    StepKeepsInv(s, a);
    StepKeepsStormInv(s, a);
    ForcedCallAddsOne(s, stale, now);
  }

  lemma StartKeepsInv(s: System, now: real)
    requires SystemInv(s) && s.tm.clock <= now
    ensures SystemInv(Next(s, Move.Start(now)))
  {
    ManagerStepFacts(s.tm, CallGetToken(now));
  }

  lemma ManagerMoveKeepsInv(s: System, a: Action)
    requires SystemInv(s) && !a.CallForceReauth?
    ensures SystemInv(Next(s, ManagerMove(a)))
  {
    ManagerStepFacts(s.tm, a);
  }

  lemma DeliverKeepsInv(s: System, i: nat)
    requires SystemInv(s) && Possible(s, DeliverTo(i))
    ensures SystemInv(Next(s, DeliverTo(i)))
  {
    assert HoldsIssued(s.requests[i], IssuedTokens(s.tm.log)) && SendsMatchPhase(s.requests[i]);
  }

  lemma AnswerKeepsInv(s: System, i: nat, o: GetOutcome, now: real)
    requires SystemInv(s) && Possible(s, GetAnswered(i, o, now))
    ensures SystemInv(Next(s, GetAnswered(i, o, now)))
  {
    assert HoldsIssued(s.requests[i], IssuedTokens(s.tm.log)) && SendsMatchPhase(s.requests[i]);
    if AsksForReauth(s.requests[i], o) {
      ForceFacts(s.tm, s.requests[i].phase.token, now);
    }
  }

  lemma NextKeepsInv(s: System, v: Move)
    requires SystemInv(s)
    ensures SystemInv(Next(s, v))
  {
    if Possible(s, v) {
      match v
      case Start(now) => StartKeepsInv(s, now);
      case ManagerMove(a) => ManagerMoveKeepsInv(s, a);
      case DeliverTo(i) => DeliverKeepsInv(s, i);
      case GetAnswered(i, o, now) => AnswerKeepsInv(s, i, o, now);
      case Invalidate(_) =>
    }
  }

  lemma {:induction false} PlayKeepsInv(s: System, moves: seq<Move>)
    requires SystemInv(s)
    ensures SystemInv(Play(s, moves))
    decreases |moves|
  {
    if moves != [] {
      NextKeepsInv(s, moves[0]);
      PlayKeepsInv(Next(s, moves[0]), moves[1..]);
    }
  }

  // --------------------------------------------------------------- theorems

  /** No request is ever sent more than twice, and after its second send its next answer ends it, a 401 included. */
  lemma EachRequestSentAtMostTwice(t0: real, moves: seq<Move>, i: nat, o: GetOutcome)
    requires i < |Play(Opening(t0), moves).requests|
    ensures var s := Play(Opening(t0), moves);
            && s.requests[i].sends <= 2
            && (s.requests[i].phase.Sent? ==> s.requests[i].sends == 1)
            && (s.requests[i].sends == 2 && Possible(s, GetAnswered(i, o, s.tm.clock)) ==>
                  var s' := Next(s, GetAnswered(i, o, s.tm.clock));
                  && s'.tm == s.tm
                  && s'.requests[i].sends == 2
                  && s'.requests[i].phase == match o case Body => Succeeded case Got401 => Failed(Unauthorized) case GotOther => Failed(OtherFailure))
  {
    PlayKeepsInv(Opening(t0), moves);
  }

  /**
   * k invalidated tokens cost at most k forced logins, for any number of
   * requests in any interleaving, as long as every login succeeds and the
   * server never hands out a token twice.
   */
  lemma InvalidatedTokensCostOneLoginEach(t0: real, moves: seq<Move>)
    requires var log := Play(Opening(t0), moves).tm.log;
             NeverReissues(log) && LoginFailures(log) == 0
    ensures var s := Play(Opening(t0), moves);
            ForcedLogins(s.tm.log) <= |s.invalidated|
  {
    PlayKeepsInv(Opening(t0), moves);
    var s := Play(Opening(t0), moves);
    SubsetSize(DiscardedTokens(s.tm.log), s.invalidated);
  }
  // ---------------------------------------------- what a request sends

  /** The awaited answer is this token: returned at once, or what the joined flight finished with. */
  predicate Brings(m: Manager, a: Answer, t: Token)
  {
    a == Returned(t) || (a.Joined? && a.flight < |m.flights| && m.flights[a.flight] == Flight.Finished(Ok(t)))
  }

  predicate BringsError(m: Manager, a: Answer, e: AuthError)
  {
    a == Threw(e) || (a.Joined? && a.flight < |m.flights| && m.flights[a.flight] == Flight.Finished(Err(e)))
  }

  predicate OnlyRequestChanged(s: System, s': System, i: nat)
  {
    && |s'.requests| == |s.requests| && s'.invalidated == s.invalidated
    && forall j :: 0 <= j < |s.requests| && j != i ==> s'.requests[j] == s.requests[j]
  }

  /** A request goes out with exactly the token its awaited answer brought, the first time and the second. */
  lemma EverySendCarriesItsToken(s: System, i: nat)
    requires Possible(s, DeliverTo(i))
    ensures var r, s' := s.requests[i], Next(s, DeliverTo(i));
            && s'.tm == s.tm && OnlyRequestChanged(s, s', i)
            && (forall t :: Brings(s.tm.m, r.phase.answer, t) ==>
                  && (r.phase.AwaitToken? ==> s'.requests[i] == Request(Sent(t), r.sends + 1))
                  && (r.phase.AwaitFresh? ==> s'.requests[i] == Request(SentAgain(t), r.sends + 1)))
            && (forall e :: BringsError(s.tm.m, r.phase.answer, e) ==>
                  s'.requests[i] == Request(Failed(AuthFailed(e)), r.sends))
  {
  }

  /** A request begins by asking for a token and has sent nothing yet. */
  lemma EveryRequestAsksFirst(s: System, now: real)
    requires Possible(s, Move.Start(now))
    ensures var s' := Next(s, Move.Start(now));
            && s'.tm == Step(s.tm, CallGetToken(now)) && s'.invalidated == s.invalidated
            && s'.requests == s.requests + [Request(AwaitToken(GetToken(s.tm.m, s.tm.log, now).2), 0)]
  {
  }

  /** Only a 401 to the first send asks for a fresh token, naming the token that was refused; anything else ends the request. */
  lemma OnlyTheFirst401Reauthenticates(s: System, i: nat, o: GetOutcome, now: real)
    requires Possible(s, GetAnswered(i, o, now))
    ensures var r, s' := s.requests[i], Next(s, GetAnswered(i, o, now));
            && OnlyRequestChanged(s, s', i) && s'.requests[i].sends == r.sends
            && (if o.Got401? && r.phase.Sent? then
                  && s'.tm == Step(s.tm, CallForceReauth(r.phase.token, now))
                  && s'.requests[i].phase == AwaitFresh(r.phase.token, ForceReauth(s.tm.m, s.tm.log, r.phase.token).2)
                else
                  && s'.tm == s.tm
                  && (o.Body? ==> s'.requests[i].phase == Succeeded)
                  && (o.Got401? ==> s'.requests[i].phase == Failed(Unauthorized))
                  && (o.GotOther? ==> s'.requests[i].phase == Failed(OtherFailure)))
  {
  }

  // ------------------------------------------ when the second token is fresh

  /** The slot still holds a promise that settled with this very token: its `finally` has not run. */
  predicate SlotHolds(m: Manager, t: Token)
  {
    m.inFlight.Some? && m.inFlight.value < |m.flights| && m.flights[m.inFlight.value] == Settled(Ok(t))
  }

  /** The flight cannot bring the token: it ended otherwise, or its POST is outstanding and the token is an old one. */
  predicate CannotBring(s: State, f: nat, stale: Token)
  {
    && f < |s.m.flights| && stale in IssuedTokens(s.log)
    && (!s.m.flights[f].Posted? ==> s.m.flights[f].outcome != Ok(stale))
  }

  /** Request i was answered 401 for the stale token and will not go out with it again. */
  predicate MovesOn(s: System, i: nat, stale: Token)
  {
    && i < |s.requests|
    && match s.requests[i].phase
       case AwaitFresh(_, Threw(_)) => true
       case AwaitFresh(_, Returned(t)) => t != stale
       case AwaitFresh(_, Joined(f)) => CannotBring(s.tm, f, stale)
       case SentAgain(t) => t != stale
       case Succeeded => true
       case Failed(_) => true
       case _ => false
  }

  /** Whatever follows, request i never goes out with the stale token again, if the server hands out no token twice. */
  ghost predicate NeverResends(s: System, i: nat, stale: Token)
  {
    forall after :: NeverReissues(Play(s, after).tm.log) ==>
      i < |Play(s, after).requests| && Play(s, after).requests[i].phase != SentAgain(stale)
  }

  lemma StaleStaysStale(s: State, a: Action, f: nat, stale: Token)
    requires CannotBring(s, f, stale) && NeverReissues(Step(s, a).log)
    ensures CannotBring(Step(s, a), f, stale) && NeverReissues(s.log)
  {
    if Enabled(s, a) {
      if a.PostAnswered? {
        StaleAfterAnswer(s, a, f, stale);
      } else if a.CallForceReauth? {
        ForcedCallAddsOne(s, a.stale, a.now);
      }
    }
  }

  lemma StaleAfterAnswer(s: State, a: Action, f: nat, stale: Token)
    requires CannotBring(s, f, stale) && NeverReissues(Step(s, a).log) && a.PostAnswered? && Enabled(s, a)
    ensures CannotBring(Step(s, a), f, stale) && NeverReissues(s.log)
  {
    ReplyForcesNothing(s, a);
    var log := Step(s, a).log;
    if log.before != s.log {
      assert log.before.before == s.log && log.before.last.RefreshRejected?;
      assert IssuedTokens(log) == IssuedTokens(log.before) == IssuedTokens(s.log);
    }
  }

  lemma NeverReissuesBefore(s: State, a: Action)
    requires NeverReissues(Step(s, a).log)
    ensures NeverReissues(s.log)
  {
    if Enabled(s, a) {
      if a.PostAnswered? {
        ReplyForcesNothing(s, a);
      } else if a.CallForceReauth? {
        ForcedCallAddsOne(s, a.stale, a.now);
      }
    }
  }

  /** The manager's part of a move, if it has one. */
  function ManagerPart(s: System, v: Move): Action
    requires Possible(s, v)
  {
    match v
    case Start(now) => CallGetToken(now)
    case ManagerMove(a) => a
    case GetAnswered(i, o, now) =>
      if AsksForReauth(s.requests[i], o) then CallForceReauth(s.requests[i].phase.token, now) else RunFinally(|s.tm.m.flights|)
    case _ => RunFinally(|s.tm.m.flights|)
  }

  lemma MoveStepsManager(s: System, v: Move)
    requires Possible(s, v)
    ensures Next(s, v).tm == Step(s.tm, ManagerPart(s, v))
  {
  }

  lemma MovesOnStep(s: System, v: Move, i: nat, stale: Token)
    requires MovesOn(s, i, stale) && NeverReissues(Next(s, v).tm.log)
    ensures MovesOn(Next(s, v), i, stale) && NeverReissues(s.tm.log)
  {
    if Possible(s, v) {
      MoveStepsManager(s, v);
      NeverReissuesBefore(s.tm, ManagerPart(s, v));
      if s.requests[i].phase.AwaitFresh? && s.requests[i].phase.answer.Joined? {
        StaleStaysStale(s.tm, ManagerPart(s, v), s.requests[i].phase.answer.flight, stale);
      }
    }
  }

  lemma {:induction false} MovesOnForever(s: System, moves: seq<Move>, i: nat, stale: Token)
    requires MovesOn(s, i, stale) && NeverReissues(Play(s, moves).tm.log)
    ensures MovesOn(Play(s, moves), i, stale) && NeverReissues(s.tm.log)
    decreases |moves|
  {
    if moves != [] {
      NeverReissuedBefore(Next(s, moves[0]), moves[1..]);
      MovesOnStep(s, moves[0], i, stale);
      MovesOnForever(Next(s, moves[0]), moves[1..], i, stale);
    }
  }

  lemma {:induction false} NeverReissuedBefore(s: System, moves: seq<Move>)
    requires NeverReissues(Play(s, moves).tm.log)
    ensures NeverReissues(s.tm.log)
    decreases |moves|
  {
    if moves != [] {
      NeverReissuedBefore(Next(s, moves[0]), moves[1..]);
      if Possible(s, moves[0]) {
        MoveStepsManager(s, moves[0]);
        NeverReissuesBefore(s.tm, ManagerPart(s, moves[0]));
      }
    }
  }

  lemma AnotherTokenIsPromised(s: System, i: nat, now: real)
    requires SystemInv(s) && Possible(s, GetAnswered(i, Got401, now)) && s.requests[i].phase.Sent?
    requires var m := s.tm.m; m.closed || m.credentialsFailure.Some? || !SlotHolds(m, s.requests[i].phase.token)
    ensures MovesOn(Next(s, GetAnswered(i, Got401, now)), i, s.requests[i].phase.token)
  {
    assert HoldsIssued(s.requests[i], IssuedTokens(s.tm.log));
    ForcedCallAddsOne(s.tm, s.requests[i].phase.token, now);
  }

  /** A promise that settled with the stale token before the 401 brings it again. */
  lemma TheSettledPromiseBringsItAgain(s: System, i: nat, stale: Token, now: real)
    requires SystemInv(s) && NeverReissues(s.tm.log)
    requires Possible(s, GetAnswered(i, Got401, now)) && s.requests[i].phase == Sent(stale)
    requires !s.tm.m.closed && s.tm.m.credentialsFailure.None? && SlotHolds(s.tm.m, stale)
    ensures !NeverResends(Next(s, GetAnswered(i, Got401, now)), i, stale)
  {
    var f := s.tm.m.inFlight.value;
    var s1 := Next(s, GetAnswered(i, Got401, now));
    var a, b := ManagerMove(RunFinally(f)), DeliverTo(i);
    var s2 := Next(s1, a);
    assert s1.requests[i].phase == AwaitFresh(stale, Joined(f)) && s2.requests == s1.requests;
    assert s2.tm.m.flights[f] == Flight.Finished(Ok(stale));
    EverySendCarriesItsToken(s2, i);
    assert Brings(s2.tm.m, s2.requests[i].phase.answer, stale);
    ForcedCallAddsOne(s.tm, stale, now);
    PlayTwo(s1, a, b);
  }

  lemma PlayTwo(s: System, a: Move, b: Move)
    ensures Play(s, [a, b]) == Next(Next(s, a), b)
  {
    assert [a, b][1..] == [b] && [b][1..] == [];
    assert Play(Next(s, a), [b]) == Next(Next(s, a), b);
  }

  /**
   * A request answered 401 goes out again with another token, if the server
   * hands out no token twice: always, except when the 401 came before the
   * `finally` of the very promise that brought its token, on a manager that is
   * neither closed nor latched.
   */
  lemma SecondSendIsFreshIff(t0: real, before: seq<Move>, i: nat, now: real)
    requires var s := Play(Opening(t0), before);
             NeverReissues(s.tm.log) && Possible(s, GetAnswered(i, Got401, now)) && s.requests[i].phase.Sent?
    ensures var s := Play(Opening(t0), before);
            var stale := s.requests[i].phase.token;
            NeverResends(Next(s, GetAnswered(i, Got401, now)), i, stale)
            <==> s.tm.m.closed || s.tm.m.credentialsFailure.Some? || !SlotHolds(s.tm.m, stale)
  {
    var s := Play(Opening(t0), before);
    var stale := s.requests[i].phase.token;
    PlayKeepsInv(Opening(t0), before);
    var s1 := Next(s, GetAnswered(i, Got401, now));
    if s.tm.m.closed || s.tm.m.credentialsFailure.Some? || !SlotHolds(s.tm.m, stale) {
      AnotherTokenIsPromised(s, i, now);
      forall after | NeverReissues(Play(s1, after).tm.log)
        ensures i < |Play(s1, after).requests| && Play(s1, after).requests[i].phase != SentAgain(stale)
      {
        MovesOnForever(s1, after, i, stale);
      }
    } else {
      TheSettledPromiseBringsItAgain(s, i, stale, now);
    }
  }
}
