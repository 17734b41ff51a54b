/**
 * The token manager's answers told from its history alone: what the server
 * granted, refused and invalidated so far decides which token a call hands
 * out, and which POST it issues if none is outstanding.
 */
module TokenManagerHistory {
  import opened Prelude
  import opened TokenManager
  import opened TokenManagerSafety

  /** What a good answer grants, and when it came. */
  datatype Grant = Grant(access: Token, refresh: Option<Token>, at: real)

  /** The newest grant, unless it was given up since: by a refused refresh, a forced login or close(). */
  function Held(log: History): Option<Grant>
  {
    match log
    case Start => None
    case Then(_, LoginOk(t, r, _, at, _)) => Some(Grant(t, r, at))
    case Then(_, RefreshOk(t, r, _, at)) => Some(Grant(t, r, at))
    case Then(_, RefreshRejected(_)) => None
    case Then(_, PostIssued(_, ByForce(_))) => None
    case Then(_, CloseCalled) => None
    case Then(h, _) => Held(h)
  }

  predicate WasClosed(log: History) { log.Then? && (log.last.CloseCalled? || WasClosed(log.before)) }

  predicate EverLoggedIn(log: History) { log.Then? && (log.last.LoginOk? || EverLoggedIn(log.before)) }

  /** The newest domain any good answer named. */
  function LastDomain(log: History): Option<string>
  {
    match log
    case Start => None
    case Then(_, LoginOk(_, _, Some(d), _, _)) => Some(d)
    case Then(_, RefreshOk(_, _, Some(d), _)) => Some(d)
    case Then(h, _) => LastDomain(h)
  }

  /** A grant is used as it is for 24 minutes. */
  predicate Young(g: Grant, now: real) { now - g.at < 24.0 * 60000.0 }

  predicate HoldsGrant(m: Manager, g: Option<Grant>)
  {
    && m.accessToken == (if g.Some? then Some(g.value.access) else None)
    && m.refreshToken == (if g.Some? then g.value.refresh else None)
    && (g.Some? ==> m.proactiveRefreshAt == Some(g.value.at + 24.0 * 60000.0))
  }

  /** Every variable of the manager but the slot is what the history says. */
  predicate Told(s: State)
  {
    && s.m.closed == WasClosed(s.log)
    && s.m.credentialsFailure == BadLogin(s.log)
    && s.m.hasEverAuthenticated == EverLoggedIn(s.log)
    && s.m.domainUuid == LastDomain(s.log)
    && s.m.refreshCount == RefreshesSinceLogin(s.log) <= 3
    && HoldsGrant(s.m, Held(s.log))
  }

  lemma GetTokenKeepsTold(s: State, now: real)
    requires Told(s)
    ensures Told(Step(s, CallGetToken(now)))
  {
  }

  lemma ForceReauthKeepsTold(s: State, stale: Token, now: real)
    requires Told(s)
    ensures Told(Step(s, CallForceReauth(stale, now)))
  {
  }

  lemma OtherKeepsTold(s: State, a: Action)
    requires Told(s) && (a.CallClose? || a.RunFinally? || !Enabled(s, a))
    ensures Told(Step(s, a))
  {
  }

  lemma LoginReplyKeepsTold(s: State, a: Action)
    requires Inv(s) && Told(s) && a.PostAnswered? && Enabled(s, a) && s.m.flights[a.flight].post.Login?
    ensures Told(Step(s, a))
  {
    assert s.m.inFlight == Some(a.flight);
  }

  lemma RefreshReplyKeepsTold(s: State, a: Action)
    requires Inv(s) && Told(s) && a.PostAnswered? && Enabled(s, a) && s.m.flights[a.flight].post.Refresh?
    ensures Told(Step(s, a))
  {
    assert s.m.inFlight == Some(a.flight);
    var log := Step(s, a).log;
    if log.before != s.log {
      assert log.before.before == s.log && log.before.last.RefreshRejected?;
      assert Held(log) == Held(log.before) == None;
    }
  }

  lemma StepKeepsTold(s: State, a: Action)
    requires Inv(s) && Told(s)
    ensures Told(Step(s, a))
  {
    if !Enabled(s, a) {
      OtherKeepsTold(s, a);
    } else {
      match a
      case CallGetToken(now) => GetTokenKeepsTold(s, now);
      case CallForceReauth(stale, now) => ForceReauthKeepsTold(s, stale, now);
      case PostAnswered(f, _, _) =>
        if s.m.flights[f].post.Login? { LoginReplyKeepsTold(s, a); } else { RefreshReplyKeepsTold(s, a); }
      case _ => OtherKeepsTold(s, a);
    }
  }

  lemma {:induction false} ExecKeepsTold(s: State, actions: seq<Action>)
    requires Inv(s) && Told(s)
    ensures Told(Exec(s, actions))
    decreases |actions|
  {
    if actions != [] {
      StepKeepsInv(s, actions[0]);
      StepKeepsTold(s, actions[0]);
      ExecKeepsTold(Step(s, actions[0]), actions[1..]);
    }
  }

  lemma ReachedIsTold(t0: real, actions: seq<Action>)
    ensures Inv(Reached(t0, actions)) && Told(Reached(t0, actions))
  {
    ReachedInv(t0, actions);
    ExecKeepsTold(Initial(t0), actions);
  }

  // ------------------------------------------------------------- the calls

  /** The call changes nothing and answers this. */
  predicate AnswersAtOnce(s: State, s': State, answer: Answer, expected: Answer)
  {
    s'.m == s.m && s'.log == s.log && answer == expected
  }

  /** The call issues this POST, the next thing in the history, and answers its promise. */
  predicate Issues(s: State, before: History, s': State, answer: Answer, post: Post, cause: Cause)
  {
    && s'.log == Then(before, PostIssued(post, cause))
    && s'.m.flights == s.m.flights + [Posted(post)]
    && s'.m.inFlight == Some(|s.m.flights|)
    && answer == Joined(|s.m.flights|)
  }

  /**
   * What getToken answers in any reachable state. A renewal presents the pair
   * of the newest grant while fewer than three refreshes followed the last
   * login and that grant came with a refresh token, and logs in otherwise.
   */
  lemma GetTokenFollowsTheHistory(t0: real, actions: seq<Action>, now: real)
    requires Reached(t0, actions).clock <= now
    ensures var s := Reached(t0, actions);
            var s', answer := Step(s, CallGetToken(now)), GetToken(s.m, s.log, now).2;
            var held := Held(s.log);
            if WasClosed(s.log) then AnswersAtOnce(s, s', answer, Threw(CalledAfterClose))
            else if BadLogin(s.log).Some? then AnswersAtOnce(s, s', answer, Threw(BadLogin(s.log).value))
            else if held.Some? && Young(held.value, now) then AnswersAtOnce(s, s', answer, Returned(held.value.access))
            else if Active(s.m) then AnswersAtOnce(s, s', answer, Joined(s.m.inFlight.value))
            else
              && (held.None? ==> Issues(s, s.log, s', answer, Login(EverLoggedIn(s.log)), ByGetToken))
              && (held.Some? && RefreshesSinceLogin(s.log) < 3 && held.value.refresh.Some? ==>
                    Issues(s, s.log, s', answer, Refresh(held.value.access, held.value.refresh.value), ByGetToken))
              && (held.Some? && (RefreshesSinceLogin(s.log) == 3 || held.value.refresh.None?) ==>
                    Issues(s, s.log, s', answer, Login(true), ByGetToken))
  {
    ReachedIsTold(t0, actions);
  }

  /**
   * What forceReauth answers: it joins what is outstanding, hands out a held
   * token that is not the stale one, and otherwise gives up the grant and
   * logs in.
   */
  lemma ForceReauthFollowsTheHistory(t0: real, actions: seq<Action>, stale: Token, now: real)
    requires Reached(t0, actions).clock <= now
    ensures var s := Reached(t0, actions);
            var s', answer := Step(s, CallForceReauth(stale, now)), ForceReauth(s.m, s.log, stale).2;
            var held := Held(s.log);
            var current := if held.Some? then Some(held.value.access) else None;
            if WasClosed(s.log) then AnswersAtOnce(s, s', answer, Threw(CalledAfterClose))
            else if BadLogin(s.log).Some? then AnswersAtOnce(s, s', answer, Threw(BadLogin(s.log).value))
            else if Active(s.m) then
              s'.m == s.m && s'.log == Then(s.log, ReauthCalled(stale, current)) && answer == Joined(s.m.inFlight.value)
            else if held.Some? && held.value.access != stale then
              s'.m == s.m && s'.log == Then(s.log, ReauthCalled(stale, current)) && answer == Returned(held.value.access)
            else
              && Issues(s, Then(s.log, ReauthCalled(stale, current)), s', answer, Login(true), ByForce(current))
              && Held(s'.log).None? && s'.m.accessToken.None? && s'.m.refreshToken.None?
  {
    ReachedIsTold(t0, actions);
  }

  // ----------------------------------------------------------- the answers

  /** What the promise of a POST comes to: only a 204 that carries a token is good. */
  predicate Comes(r: Reply, outcome: Result<Token, AuthError>)
  {
    && (r.NoReply? ==> outcome == Err(TransportError(r.message)))
    && (r.Reply? && r.status != 204 ==> outcome == Err(StatusError(r.status)))
    && (r.Reply? && r.status == 204 && r.access.None? ==> outcome == Err(MissingTokenHeader))
    && (r.Reply? && r.status == 204 && r.access.Some? ==> outcome == Ok(r.access.value))
  }

  /** A good answer is granted as it came, and nothing else changes what is held. */
  predicate Grants(s: State, s': State, r: Reply, now: real)
  {
    if r.Reply? && r.status == 204 && r.access.Some? then
      && Held(s'.log) == Some(Grant(r.access.value, r.refresh, now))
      && s'.m.domainUuid == (if r.domain.Some? then r.domain else s.m.domainUuid)
    else Held(s'.log) == Held(s.log) && s'.m.domainUuid == s.m.domainUuid
  }

  /** An answered login settles its promise; a good one starts the quota anew, and only a 401 or 403 latches. */
  lemma LoginAnswers(t0: real, actions: seq<Action>, f: nat, r: Reply, now: real)
    requires var s := Reached(t0, actions); Enabled(s, PostAnswered(f, r, now)) && s.m.flights[f].post.Login?
    ensures var s := Reached(t0, actions);
            var s' := Step(s, PostAnswered(f, r, now));
            && |s'.m.flights| == |s.m.flights| && s'.m.flights[f].Settled? && Comes(r, s'.m.flights[f].outcome)
            && Grants(s, s', r, now) && HoldsGrant(s'.m, Held(s'.log))
            && s'.m.refreshCount == (if s'.m.flights[f].outcome.Ok? then 0 else s.m.refreshCount)
            && (s'.m.credentialsFailure.Some? <==> r.Reply? && (r.status == 401 || r.status == 403))
            && Posts(s'.log) == Posts(s.log)
  {
    ReachedIsTold(t0, actions);
    LoginReplyKeepsTold(Reached(t0, actions), PostAnswered(f, r, now));
    assert Reached(t0, actions).m.inFlight == Some(f);
  }

  /** An answered refresh settles its promise, unless it was refused: then its pair is given up and its flight logs in. */
  lemma RefreshAnswers(t0: real, actions: seq<Action>, f: nat, r: Reply, now: real)
    requires var s := Reached(t0, actions); Enabled(s, PostAnswered(f, r, now)) && s.m.flights[f].post.Refresh?
    ensures var s := Reached(t0, actions);
            var s' := Step(s, PostAnswered(f, r, now));
            && |s'.m.flights| == |s.m.flights| && HoldsGrant(s'.m, Held(s'.log))
            && s'.m.credentialsFailure == s.m.credentialsFailure
            && if r.Reply? && r.status != 204 then
                 && s'.m.flights[f] == Posted(Login(true)) && Posts(s'.log) == Posts(s.log) + 1
                 && s'.m.accessToken.None? && s'.m.refreshToken.None? && s'.m.refreshCount == s.m.refreshCount
               else
                 && s'.m.flights[f].Settled? && Comes(r, s'.m.flights[f].outcome) && Posts(s'.log) == Posts(s.log)
                 && Grants(s, s', r, now)
                 && s'.m.refreshCount == s.m.refreshCount + if s'.m.flights[f].outcome.Ok? then 1 else 0
  {
    ReachedIsTold(t0, actions);
    RefreshReplyKeepsTold(Reached(t0, actions), PostAnswered(f, r, now));
    assert Reached(t0, actions).m.inFlight == Some(f);
  }

  // --------------------------------------------------------- the long run

  function Logins(log: History): nat
  {
    match log
    case Start => 0
    case Then(h, e) => Logins(h) + if e.PostIssued? && e.post.Login? then 1 else 0
  }

  /** One call, answered with a fresh pair. */
  function Renewal(at: real, f: nat, pair: (Token, Token)): seq<Action>
  {
    [CallGetToken(at), PostAnswered(f, Reply(204, Some(pair.0), Some(pair.1), None), at), RunFinally(f)]
  }

  /** A call every 24 minutes. */
  function Renewals(t0: real, pairs: seq<(Token, Token)>): seq<Action>
  {
    if pairs == [] then []
    else
      var n := |pairs| - 1;
      Renewals(t0, pairs[..n]) + Renewal(t0 + n as real * (24.0 * 60000.0), n, pairs[n])
  }

  /** Against a server that always answers, every fourth renewal is a login and the three between them are refreshes. */
  lemma {:induction false} EveryFourthRenewalLogsIn(t0: real, pairs: seq<(Token, Token)>)
    ensures var s := Reached(t0, Renewals(t0, pairs));
            && Posts(s.log) == |pairs|
            && Logins(s.log) == (|pairs| + 3) / 4
            && s.m.accessToken == (if pairs == [] then None else Some(pairs[|pairs| - 1].0))
    decreases |pairs|
  {
    RenewalsRun(t0, pairs);
    ReachedIsTold(t0, Renewals(t0, pairs));
  }

  /** The state after each renewal: idle, holding the newest pair, so many refreshes into the quota. */
  predicate Renewed(s: State, t0: real, pairs: seq<(Token, Token)>)
  {
    var n := |pairs|;
    && |s.m.flights| == n && !Active(s.m) && !WasClosed(s.log) && BadLogin(s.log).None?
    && Posts(s.log) == n && Logins(s.log) == (n + 3) / 4
    && RefreshesSinceLogin(s.log) == (if n == 0 then 0 else (n - 1) % 4)
    && (if n == 0 then s.log == Start && s.clock == t0
        else
          var at := t0 + (n - 1) as real * (24.0 * 60000.0);
          Held(s.log) == Some(Grant(pairs[n - 1].0, Some(pairs[n - 1].1), at)) && s.clock == at)
  }

  lemma OneMoreRenewal(t0: real, pairs: seq<(Token, Token)>, pair: (Token, Token), at: real)
    requires at == t0 + |pairs| as real * (24.0 * 60000.0)
    ensures Renewals(t0, pairs + [pair]) == Renewals(t0, pairs) + Renewal(at, |pairs|, pair)
  {
    assert (pairs + [pair])[..|pairs|] == pairs;
  }

  lemma {:induction false} RenewalsRun(t0: real, pairs: seq<(Token, Token)>)
    ensures Renewed(Reached(t0, Renewals(t0, pairs)), t0, pairs)
    decreases |pairs|
  {
    if pairs != [] {
      var init, last := pairs[..|pairs| - 1], pairs[|pairs| - 1];
      RenewalsRun(t0, init);
      AnotherRenewal(t0, init, last);
      assert init + [last] == pairs;
    }
  }

  lemma AnotherRenewal(t0: real, pairs: seq<(Token, Token)>, pair: (Token, Token))
    requires Renewed(Reached(t0, Renewals(t0, pairs)), t0, pairs)
    ensures Renewed(Reached(t0, Renewals(t0, pairs + [pair])), t0, pairs + [pair])
  {
    var at := t0 + |pairs| as real * (24.0 * 60000.0);
    OneMoreRenewal(t0, pairs, pair, at);
    ExecConcat(Initial(t0), Renewals(t0, pairs), Renewal(at, |pairs|, pair));
    OneRenewal(t0, Renewals(t0, pairs), pairs, pair, at);
  }

  /** The call of a renewal puts its POST on the wire. */
  lemma RenewalIsPosted(t0: real, actions: seq<Action>, pairs: seq<(Token, Token)>, at: real) returns (post: Post)
    requires Renewed(Reached(t0, actions), t0, pairs) && at == t0 + |pairs| as real * (24.0 * 60000.0)
    ensures post.Login? <==> pairs == [] || (|pairs| - 1) % 4 == 3
    ensures var s := Reached(t0, actions); var s1 := Step(s, CallGetToken(at));
            && s1.m.flights == s.m.flights + [Posted(post)] && s1.m.inFlight == Some(|pairs|)
            && s1.log == Then(s.log, PostIssued(post, ByGetToken)) && s1.clock == at
  {
    ReachedIsTold(t0, actions);
    GetTokenFollowsTheHistory(t0, actions, at);
    post := Step(Reached(t0, actions), CallGetToken(at)).log.last.post;
  }

  /** Its answer and the callback leave the slot free and one more grant in the history. */
  lemma RenewalIsGranted(s: State, f: nat, post: Post, pair: (Token, Token), at: real)
    requires |s.m.flights| == f + 1 && s.m.flights[f] == Posted(post) && s.m.inFlight == Some(f) && s.clock == at
    ensures var good := Reply(204, Some(pair.0), Some(pair.1), None);
            var s' := Step(Step(s, PostAnswered(f, good, at)), RunFinally(f));
            && |s'.m.flights| == f + 1 && !Active(s'.m) && s'.clock == at
            && s'.log.Then? && s'.log.before == s.log
            && (if post.Login? then s'.log.last == LoginOk(pair.0, Some(pair.1), None, at, post.isReauth)
                else s'.log.last == RefreshOk(pair.0, Some(pair.1), None, at))
  {
  }

  lemma OneRenewal(t0: real, actions: seq<Action>, pairs: seq<(Token, Token)>, pair: (Token, Token), at: real)
    requires Renewed(Reached(t0, actions), t0, pairs) && at == t0 + |pairs| as real * (24.0 * 60000.0)
    ensures Renewed(Exec(Reached(t0, actions), Renewal(at, |pairs|, pair)), t0, pairs + [pair])
  {
    var s, acts := Reached(t0, actions), Renewal(at, |pairs|, pair);
    var post := RenewalIsPosted(t0, actions, pairs, at);
    RenewalIsGranted(Step(s, acts[0]), |pairs|, post, pair, at);
    ExecThree(s, acts[0], acts[1], acts[2]);
    RenewedHistory(s.log, post, pair, Exec(s, acts).log, at);
  }

  /** What a renewal adds to the counts. */
  lemma RenewedHistory(log: History, post: Post, pair: (Token, Token), log': History, at: real)
    requires log'.Then? && log'.before == Then(log, PostIssued(post, ByGetToken))
    requires if post.Login? then log'.last == LoginOk(pair.0, Some(pair.1), None, at, post.isReauth)
             else log'.last == RefreshOk(pair.0, Some(pair.1), None, at)
    ensures Posts(log') == Posts(log) + 1 && Logins(log') == Logins(log) + if post.Login? then 1 else 0
    ensures RefreshesSinceLogin(log') == if post.Login? then 0 else RefreshesSinceLogin(log) + 1
    ensures WasClosed(log') == WasClosed(log) && BadLogin(log') == BadLogin(log)
    ensures Held(log') == Some(Grant(pair.0, Some(pair.1), at))
  {
    assert Posts(log'.before) == Posts(log) + 1 && RefreshesSinceLogin(log'.before) == RefreshesSinceLogin(log);
    assert WasClosed(log'.before) == WasClosed(log) && BadLogin(log'.before) == BadLogin(log);
  }
}
