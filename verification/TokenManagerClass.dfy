/**
 * The token manager and one request over it in the form the program has:
 * objects whose variables each synchronous segment updates. Every segment is
 * proved to do exactly what the specification machine does.
 */
module TokenManagerClass {
  import opened Prelude
  import opened TokenManager
  import Reauth

  class FmcTokenManager {
    var accessToken: Option<Token>
    var refreshToken: Option<Token>
    var domainUuid: Option<string>
    var refreshCount: nat
    var proactiveRefreshAt: Option<real>
    var hasEverAuthenticated: bool
    var inFlight: Option<nat>
    var closed: bool
    var credentialsFailure: Option<AuthError>
    var flights: seq<Flight>
    ghost var log: History

    ghost function View(): Manager
      reads this
    {
      Manager(accessToken, refreshToken, domainUuid, refreshCount, proactiveRefreshAt,
              hasEverAuthenticated, inFlight, closed, credentialsFailure, flights)
    }

    constructor ()
      ensures View() == Fresh && log == Start
    {
      accessToken, refreshToken, domainUuid := None, None, None;
      refreshCount, proactiveRefreshAt, hasEverAuthenticated := 0, None, false;
      inFlight, closed, credentialsFailure, flights := None, false, None, [];
      log := Start;
    }

    /** Reserves the slot in the same segment as the check that decided to acquire. */
    method AcquireSingleFlight(post: Post, ghost cause: Cause) returns (a: Answer)
      modifies this
      ensures (View(), log, a) == old(Acquire(View(), log, post, cause))
    {
      if inFlight.Some? {
        return Joined(inFlight.value);
      }
      flights := flights + [Posted(post)];
      log := Then(log, PostIssued(post, cause));
      inFlight := Some(|flights| - 1);
      a := Joined(|flights| - 1);
    }

    method GetToken(now: real) returns (a: Answer)
      modifies this
      ensures (View(), log, a) == old(TokenManager.GetToken(View(), log, now))
    {
      if closed {
        return Threw(CalledAfterClose);
      }
      if credentialsFailure.Some? {
        return Threw(credentialsFailure.value);
      }
      if accessToken.None? {
        a := AcquireSingleFlight(Login(hasEverAuthenticated), ByGetToken);
        return;
      }
      if proactiveRefreshAt.Some? && now >= proactiveRefreshAt.value {
        var post := Login(true);
        if refreshCount < MAX_REFRESHES && refreshToken.Some? {
          post := Refresh(accessToken.value, refreshToken.value);
        }
        a := AcquireSingleFlight(post, ByGetToken);
        return;
      }
      a := Returned(accessToken.value);
    }

    method ForceReauth(staleToken: Token) returns (a: Answer)
      modifies this
      ensures (View(), log, a) == old(TokenManager.ForceReauth(View(), log, staleToken))
    {
      if closed {
        return Threw(CalledAfterClose);
      }
      if credentialsFailure.Some? {
        return Threw(credentialsFailure.value);
      }
      log := Then(log, ReauthCalled(staleToken, accessToken));
      if inFlight.Some? {
        return Joined(inFlight.value);
      }
      if accessToken.Some? && accessToken.value != staleToken {
        return Returned(accessToken.value);
      }
      ghost var discarded := accessToken;
      accessToken := None;
      refreshToken := None;
      a := AcquireSingleFlight(Login(true), ByForce(discarded));
    }

    method Close()
      modifies this
      ensures (View(), log) == old(TokenManager.Close(View(), log))
    {
      closed := true;
      accessToken := None;
      refreshToken := None;
      log := Then(log, CloseCalled);
    }

    method ApplySuccessfulAuth(r: Reply, now: real) returns (token: Result<Token, AuthError>)
      requires r.Reply?
      modifies this
      ensures log == old(log)
      ensures r.access.None? ==> token == Err(MissingTokenHeader) && View() == old(View())
      ensures r.access.Some? ==> token == Ok(r.access.value) && View() == old(Install(View(), r, now))
    {
      if r.access.None? {
        return Err(MissingTokenHeader);
      }
      accessToken := r.access;
      refreshToken := r.refresh;
      if r.domain.Some? {
        domainUuid := r.domain;
      }
      proactiveRefreshAt := Some(now + PROACTIVE_REFRESH_MS);
      token := Ok(r.access.value);
    }

    /** doGenerateToken after its await. */
    method LoginAnswered(f: nat, r: Reply, now: real)
      requires f < |flights| && flights[f].Posted? && flights[f].post.Login?
      modifies this
      ensures (View(), log) == old(OnLoginReply(View(), log, f, r, now))
    {
      if r.NoReply? {
        FailLogin(f, TransportError(r.message));
        return;
      }
      if r.status != 204 {
        var error := StatusError(r.status);
        if r.status == 401 || r.status == 403 {
          credentialsFailure := Some(error);
        }
        FailLogin(f, error);
        return;
      }
      ghost var isReauth := flights[f].post.isReauth;
      var token := ApplySuccessfulAuth(r, now);
      if token.Err? {
        FailLogin(f, token.error);
        return;
      }
      refreshCount := 0;
      hasEverAuthenticated := true;
      flights := flights[f := Settled(token)];
      log := Then(log, LoginOk(token.value, r.refresh, r.domain, now, isReauth));
    }

    method FailLogin(f: nat, error: AuthError)
      requires f < |flights|
      modifies this`flights, this`log
      ensures View() == old(Settle(View(), f, Err(error))) && log == Then(old(log), LoginFailed(error))
    {
      flights := flights[f := Settled(Err(error))];
      log := Then(log, LoginFailed(error));
    }

    /** doRefreshToken after its await: an answered refusal falls back to a login in the same segment. */
    method RefreshAnswered(f: nat, r: Reply, now: real)
      requires f < |flights| && flights[f].Posted? && flights[f].post.Refresh?
      modifies this
      ensures (View(), log) == old(OnRefreshReply(View(), log, f, r, now))
    {
      if r.NoReply? {
        flights := flights[f := Settled(Err(TransportError(r.message)))];
        log := Then(log, RefreshErrored(TransportError(r.message)));
        return;
      }
      if r.status != 204 {
        accessToken := None;
        refreshToken := None;
        flights := flights[f := Posted(Login(true))];
        log := Then(Then(log, RefreshRejected(r.status)), PostIssued(Login(true), ByFallback));
        return;
      }
      var token := ApplySuccessfulAuth(r, now);
      flights := flights[f := Settled(token)];
      if token.Err? {
        log := Then(log, RefreshErrored(token.error));
        return;
      }
      refreshCount := refreshCount + 1;
      log := Then(log, RefreshOk(token.value, r.refresh, r.domain, now));
    }

    method RunFinally(f: nat)
      requires f < |flights| && flights[f].Settled?
      modifies this
      ensures View() == old(OnFinally(View(), f)) && log == old(log)
    {
      flights := flights[f := Finished(flights[f].outcome)];
      if inFlight == Some(f) {
        inFlight := None;
      }
    }
  }

  /** One run of fetchWithReauth. */
  class FetchWithReauth {
    const tokens: FmcTokenManager
    var phase: Reauth.Phase
    var sends: nat

    ghost function View(): Reauth.Request
      reads this
    {
      Reauth.Request(phase, sends)
    }

    constructor (tokens: FmcTokenManager, now: real)
      modifies tokens
      ensures this.tokens == tokens
      ensures var (m, log, a) := old(TokenManager.GetToken(tokens.View(), tokens.log, now));
              tokens.View() == m && tokens.log == log && View() == Reauth.Begin(a)
    {
      this.tokens := tokens;
      phase, sends := Reauth.Succeeded, 0;
      new;
      var a := tokens.GetToken(now);
      phase := Reauth.AwaitToken(a);
    }

    method Send(next: Reauth.Phase)
      modifies this
      ensures phase == next && sends == old(sends) + 1
    {
      phase := next;
      sends := sends + 1;
    }

    method TokenDelivered(outcome: Result<Token, AuthError>)
      requires Reauth.Awaiting(View())
      modifies this
      ensures View() == old(Reauth.Deliver(View(), outcome))
    {
      if outcome.Err? {
        phase := Reauth.Failed(Reauth.AuthFailed(outcome.error));
      } else if phase.AwaitToken? {
        Send(Reauth.Sent(outcome.value));
      } else {
        Send(Reauth.SentAgain(outcome.value));
      }
    }

    method Answered(o: Reauth.GetOutcome)
      requires phase.Sent? || phase.SentAgain?
      modifies this, tokens
      ensures !old(Reauth.AsksForReauth(View(), o)) ==>
                && View() == old(Reauth.Finish(View(), o))
                && tokens.View() == old(tokens.View()) && tokens.log == old(tokens.log)
      ensures old(Reauth.AsksForReauth(View(), o)) ==>
                var (m, log, a) := old(TokenManager.ForceReauth(tokens.View(), tokens.log, phase.token));
                tokens.View() == m && tokens.log == log && View() == old(Reauth.Retry(View(), a))
    {
      match o {
        case Body => phase := Reauth.Succeeded;
        case GotOther => phase := Reauth.Failed(Reauth.OtherFailure);
        case Got401 =>
          if phase.SentAgain? {
            phase := Reauth.Failed(Reauth.Unauthorized);
            return;
          }
          var a := tokens.ForceReauth(phase.token);
          phase := Reauth.AwaitFresh(phase.token, a);
      }
    }
  }
}
