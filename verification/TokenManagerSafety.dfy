/** What every interleaving of the FMC token manager keeps. */
module TokenManagerSafety {
  import opened FirstSeen
  import opened Prelude
  import opened TokenManager

  /** The state reached from a fresh manager at `t0` by any sequence of steps. */
  function Reached(t0: real, actions: seq<Action>): State { Exec(Initial(t0), actions) }

  lemma ReachedInv(t0: real, actions: seq<Action>)
    ensures Inv(Reached(t0, actions))
  {
    ExecKeepsInv(Initial(t0), actions);
  }

  // ------------------------------------------------------------ single flight

  /** At most one auth POST is outstanding, counted both in the promises and in the history. */
  lemma AtMostOnePostOutstanding(t0: real, actions: seq<Action>)
    ensures 0 <= Outstanding(Reached(t0, actions).log) <= 1
    ensures var m := Reached(t0, actions).m;
            forall f, g :: 0 <= f < |m.flights| && 0 <= g < |m.flights| && m.flights[f].Posted? && m.flights[g].Posted? ==> f == g
  {
    ReachedInv(t0, actions);
  }

  /** Calls alone, however many and of whatever kind, put at most one more POST on the wire. */
  lemma {:induction false} ManyCallersOnePost(s: State, calls: seq<Action>)
    requires Inv(s)
    requires forall i :: 0 <= i < |calls| ==> calls[i].CallGetToken? || calls[i].CallForceReauth?
    ensures Posts(Exec(s, calls).log) <= Posts(s.log) + if Active(s.m) then 0 else 1
    decreases |calls|
  {
    if calls != [] {
      StepKeepsInv(s, calls[0]);
      ManyCallersOnePost(Step(s, calls[0]), calls[1..]);
    }
  }

  // ------------------------------------------------------------ refresh quota

  /** The counter is the number of refreshes since the last login, and never passes three. */
  lemma RefreshQuota(t0: real, actions: seq<Action>)
    ensures var s := Reached(t0, actions);
            s.m.refreshCount == RefreshesSinceLogin(s.log) <= 3
  {
    ReachedInv(t0, actions);
  }

  /** A token handed out without a POST is the newest one the server issued, less than 24 minutes ago. */
  lemma FastPathTokenIsYoung(t0: real, actions: seq<Action>, now: real)
    requires Reached(t0, actions).clock <= now
    ensures var s := Reached(t0, actions);
            var answer := GetToken(s.m, s.log, now).2;
            answer.Returned? ==>
              && LastIssued(s.log).Some?
              && LastIssued(s.log).value.0 == answer.token
              && 0.0 <= now - LastIssued(s.log).value.1 < 24.0 * 60000.0
  {
    ReachedInv(t0, actions);
  }

  // -------------------------------------------------------- bad credentials

  /** The error of the newest login answered 401 or 403, if there was one. */
  function BadLogin(log: History): Option<AuthError>
  {
    match log
    case Start => None
    case Then(h, e) => if e.LoginFailed? && BadCredentials(e.error) then Some(e.error) else BadLogin(h)
  }

  lemma LatchStep(s: State, a: Action)
    requires Inv(s) && s.m.credentialsFailure == BadLogin(s.log)
    ensures Step(s, a).m.credentialsFailure == BadLogin(Step(s, a).log)
  {
    if Enabled(s, a) && a.PostAnswered? {
      assert s.m.inFlight == Some(a.flight);
    }
  }

  lemma {:induction false} LatchIsTheBadLogin(s: State, actions: seq<Action>)
    requires Inv(s) && s.m.credentialsFailure == BadLogin(s.log)
    ensures var s' := Exec(s, actions); s'.m.credentialsFailure == BadLogin(s'.log)
    decreases |actions|
  {
    if actions != [] {
      StepKeepsInv(s, actions[0]);
      LatchStep(s, actions[0]);
      LatchIsTheBadLogin(Step(s, actions[0]), actions[1..]);
    }
  }

  lemma {:induction false} NoPostAfterLatch(s: State, actions: seq<Action>)
    requires Inv(s) && s.m.credentialsFailure.Some?
    ensures var s' := Exec(s, actions);
            Posts(s'.log) == Posts(s.log) && s'.m.credentialsFailure == s.m.credentialsFailure
    decreases |actions|
  {
    if actions != [] {
      StepKeepsInv(s, actions[0]);
      NoPostAfterLatch(Step(s, actions[0]), actions[1..]);
    }
  }

  /**
   * Once a login is answered 401 or 403, nothing that follows issues another
   * POST, and until close() every call fails with that very error.
   */
  lemma BadCredentialsAreFatal(t0: real, before: seq<Action>, after: seq<Action>, now: real, stale: Token)
    requires BadLogin(Reached(t0, before).log).Some?
    ensures var s := Reached(t0, before);
            var s' := Exec(s, after);
            var e := BadLogin(s.log).value;
            && Posts(s'.log) == Posts(s.log)
            && (!s'.m.closed ==>
                  && GetToken(s'.m, s'.log, now).2 == Threw(e)
                  && ForceReauth(s'.m, s'.log, stale).2 == Threw(e))
  {
    var s := Reached(t0, before);
    ReachedInv(t0, before);
    LatchIsTheBadLogin(Initial(t0), before);
    NoPostAfterLatch(s, after);
  }

  // ------------------------------------------------------------------- close

  predicate RefreshOutstanding(m: Manager)
  {
    PostOutstanding(m) && m.flights[m.inFlight.value].post.Refresh?
  }

  /**
   * After close() every call throws, and the only POST that can still go out
   * is the fallback login of a refresh that was already on the wire.
   */
  lemma {:induction false} ClosedManagerIsQuiet(s: State, actions: seq<Action>, now: real, stale: Token)
    requires Inv(s) && s.m.closed
    ensures var s' := Exec(s, actions);
            && s'.m.closed
            && GetToken(s'.m, s'.log, now).2 == Threw(CalledAfterClose)
            && ForceReauth(s'.m, s'.log, stale).2 == Threw(CalledAfterClose)
            && Posts(s'.log) + (if RefreshOutstanding(s'.m) then 1 else 0)
               <= Posts(s.log) + (if RefreshOutstanding(s.m) then 1 else 0)
    decreases |actions|
  {
    if actions != [] {
      StepKeepsInv(s, actions[0]);
      ClosedStep(s, actions[0]);
      ClosedManagerIsQuiet(Step(s, actions[0]), actions[1..], now, stale);
    }
  }

  lemma ClosedStep(s: State, a: Action)
    requires Inv(s) && s.m.closed
    ensures var s' := Step(s, a);
            && s'.m.closed
            && Posts(s'.log) + (if RefreshOutstanding(s'.m) then 1 else 0)
               <= Posts(s.log) + (if RefreshOutstanding(s.m) then 1 else 0)
  {
    if a.PostAnswered? && Enabled(s, a) {
      assert s.m.inFlight == Some(a.flight);
    }
  }

  // ---------------------------------------------------------------- recovery

  /**
   * No reachable idle state is a dead end: unless closed or latched, getToken
   * either returns a token or starts a flight, and a good answer to that
   * flight's POST leaves its token current and the slot free.
   */
  lemma NeverStuck(t0: real, actions: seq<Action>, now: real, token: Token)
    requires var s := Reached(t0, actions);
             s.clock <= now && !Active(s.m) && !s.m.closed && s.m.credentialsFailure.None?
    ensures var s := Reached(t0, actions);
            var (m, log, answer) := GetToken(s.m, s.log, now);
            && !answer.Threw?
            && (answer.Joined? ==>
                  var good := Reply(204, Some(token), None, None);
                  var s' := Exec(s, [CallGetToken(now), PostAnswered(answer.flight, good, now), RunFinally(answer.flight)]);
                  && s'.m.accessToken == Some(token)
                  && !Active(s'.m)
                  && Posts(s'.log) == Posts(s.log) + 1
                  && answer.flight < |s'.m.flights|
                  && s'.m.flights[answer.flight] == Finished(Ok(token)))
  {
    var s := Reached(t0, actions);
    ReachedInv(t0, actions);
    var answer := GetToken(s.m, s.log, now).2;
    if answer.Joined? {
      var f := answer.flight;
      var a1, a2, a3 := CallGetToken(now), PostAnswered(f, Reply(204, Some(token), None, None), now), RunFinally(f);
      var s1 := Step(s, a1);
      var s2 := Step(s1, a2);
      var s3 := Step(s2, a3);
      ExecThree(s, a1, a2, a3);
      assert s1.m.inFlight == Some(f) && |s2.m.flights| == f + 1;
    }
  }

  lemma ExecThree(s: State, a: Action, b: Action, c: Action)
    ensures Exec(s, [a, b, c]) == Step(Step(Step(s, a), b), c)
  {
    var s1 := Step(s, a);
    var s2 := Step(s1, b);
    assert [a, b, c][1..] == [b, c] && [b, c][1..] == [c] && [c][1..] == [];
    assert Exec(s2, [c]) == Step(s2, c);
    assert Exec(s1, [b, c]) == Exec(s2, [c]);
  }

  // ------------------------------------------------------------- login storm

  /** Each forced login directly follows the call that asked for it, and discards at most the token that call presented. */
  predicate DiscardsOnlyPresented(log: History)
  {
    match log
    case Start => true
    case Then(h, PostIssued(_, ByForce(d))) =>
      && DiscardsOnlyPresented(h)
      && h.Then? && h.last.ReauthCalled? && h.last.current == d
      && (d.Some? ==> d.value == h.last.presented)
    case Then(h, _) => DiscardsOnlyPresented(h)
  }

  lemma {:induction false} DiscardsOnlyPresentedAlways(s: State, actions: seq<Action>)
    requires Inv(s) && DiscardsOnlyPresented(s.log)
    ensures DiscardsOnlyPresented(Exec(s, actions).log)
    decreases |actions|
  {
    if actions != [] {
      StepKeepsInv(s, actions[0]);
      DiscardsOnlyPresentedAlways(Step(s, actions[0]), actions[1..]);
    }
  }

  /** Whether a forced login without a token may already have been paid for by the state. */
  function Slack(m: Manager): nat { if m.closed || m.accessToken.Some? || PostOutstanding(m) then 1 else 0 }

  ghost predicate StormInv(s: State)
  {
    && ForcedWithoutToken(s.log) <= LoginFailures(s.log) + Slack(s.m)
    && DiscardedTokens(s.log) <= IssuedTokens(s.log) * PresentedWhileCurrent(s.log)
    && (NeverReissues(s.log) ==>
          && ForcedLogins(s.log) == |DiscardedTokens(s.log)| + ForcedWithoutToken(s.log)
          && (s.m.accessToken.Some? ==> s.m.accessToken.value !in DiscardedTokens(s.log)))
    && (s.m.accessToken.Some? ==> s.m.accessToken.value in IssuedTokens(s.log))
    && (RefreshOutstanding(s.m) && !s.m.closed ==> s.m.accessToken.Some?)
  }

  lemma LoginReplyKeepsStormInv(s: State, f: nat, r: Reply, now: real)
    requires Inv(s) && StormInv(s) && Enabled(s, PostAnswered(f, r, now)) && s.m.flights[f].post.Login?
    ensures StormInv(Step(s, PostAnswered(f, r, now)))
  {
    assert s.m.inFlight == Some(f);
  }

  /** A rejected refresh falls back to a login within its flight. */
  lemma FallbackKeepsStormInv(s: State, f: nat, r: Reply, now: real)
    requires Inv(s) && StormInv(s) && Enabled(s, PostAnswered(f, r, now)) && s.m.flights[f].post.Refresh?
    requires LoginError(r).Some? && LoginError(r).value.StatusError?
    ensures StormInv(Step(s, PostAnswered(f, r, now)))
  {
    var s' := Step(s, PostAnswered(f, r, now));
    assert s.m.inFlight == Some(f) && PostOutstanding(s'.m) && !RefreshOutstanding(s'.m);
    var rejected := Then(s.log, RefreshRejected(LoginError(r).value.status));
    assert s'.log == Then(rejected, PostIssued(Login(true), ByFallback));
    assert NeverReissues(s'.log) == NeverReissues(rejected) == NeverReissues(s.log);
    assert IssuedTokens(s'.log) == IssuedTokens(rejected) == IssuedTokens(s.log);
    assert DiscardedTokens(s'.log) == DiscardedTokens(rejected) == DiscardedTokens(s.log);
    assert PresentedWhileCurrent(s'.log) == PresentedWhileCurrent(rejected) == PresentedWhileCurrent(s.log);
    assert ForcedWithoutToken(s'.log) == ForcedWithoutToken(rejected) == ForcedWithoutToken(s.log);
    assert LoginFailures(s'.log) == LoginFailures(rejected) == LoginFailures(s.log);
    assert ForcedLogins(s'.log) == ForcedLogins(rejected) == ForcedLogins(s.log);
  }

  lemma RefreshReplyKeepsStormInv(s: State, f: nat, r: Reply, now: real)
    requires Inv(s) && StormInv(s) && Enabled(s, PostAnswered(f, r, now)) && s.m.flights[f].post.Refresh?
    requires LoginError(r).None? || !LoginError(r).value.StatusError?
    ensures StormInv(Step(s, PostAnswered(f, r, now)))
  {
    assert s.m.inFlight == Some(f);
  }

  lemma StepKeepsStormInv(s: State, a: Action)
    requires Inv(s) && StormInv(s)
    ensures StormInv(Step(s, a))
  {
    if Enabled(s, a) {
      if a.PostAnswered? {
        if s.m.flights[a.flight].post.Login? {
          LoginReplyKeepsStormInv(s, a.flight, a.reply, a.now);
        } else if LoginError(a.reply).Some? && LoginError(a.reply).value.StatusError? {
          FallbackKeepsStormInv(s, a.flight, a.reply, a.now);
        } else {
          RefreshReplyKeepsStormInv(s, a.flight, a.reply, a.now);
        }
      } else if a.RunFinally? {
        assert s.m.inFlight == Some(a.flight);
      } else if a.CallForceReauth? {
        ForcedCallKeepsStormInv(s, a.stale, a.now);
      }
    }
  }

  lemma ReplyForcesNothing(s: State, a: Action)
    requires a.PostAnswered? && Enabled(s, a)
    ensures var log, log' := s.log, Step(s, a).log;
            && ForcedLogins(log') == ForcedLogins(log)
            && ForcedWithoutToken(log') == ForcedWithoutToken(log)
            && DiscardedTokens(log') == DiscardedTokens(log)
            && PresentedWhileCurrent(log') == PresentedWhileCurrent(log)
            && (NeverReissues(log') ==> NeverReissues(log))
  {
    var log' := Step(s, a).log;
    if log'.before != s.log {
      assert log'.before.before == s.log && log'.before.last.RefreshRejected?;
      assert NeverReissues(log') == NeverReissues(log'.before) == NeverReissues(s.log);
    }
  }

  lemma ForcedCallKeepsStormInv(s: State, stale: Token, now: real)
    requires Inv(s) && StormInv(s) && s.clock <= now
    ensures StormInv(Step(s, CallForceReauth(stale, now)))
  {
    ForcedCallAddsOne(s, stale, now);
    var s' := Step(s, CallForceReauth(stale, now));
    if s.m.closed || s.m.credentialsFailure.Some? {
      assert s'.m == s.m;
    } else if Active(s.m) || (s.m.accessToken.Some? && s.m.accessToken.value != stale) {
      JoiningCallKeepsStormInv(s, stale, now);
    } else {
      StartingCallKeepsStormInv(s, stale, now);
    }
  }

  lemma JoiningCallKeepsStormInv(s: State, stale: Token, now: real)
    requires StormInv(s) && s.clock <= now && !s.m.closed && s.m.credentialsFailure.None?
    requires Active(s.m) || (s.m.accessToken.Some? && s.m.accessToken.value != stale)
    ensures StormInv(Step(s, CallForceReauth(stale, now)))
  {
    ForcedCallAddsOne(s, stale, now);
    assert Step(s, CallForceReauth(stale, now)).m == s.m;
  }

  lemma StartingCallKeepsStormInv(s: State, stale: Token, now: real)
    requires Inv(s) && StormInv(s) && s.clock <= now && !s.m.closed && s.m.credentialsFailure.None? && !Active(s.m)
    requires s.m.accessToken.Some? ==> s.m.accessToken.value == stale
    ensures StormInv(Step(s, CallForceReauth(stale, now)))
  {
    ForcedCallAddsOne(s, stale, now);
    var s' := Step(s, CallForceReauth(stale, now));
    assert s'.m.accessToken.None? && PostOutstanding(s'.m) && !RefreshOutstanding(s'.m);
    if s.m.accessToken.Some? && NeverReissues(s.log) {
      assert |DiscardedTokens(s.log) + {stale}| == |DiscardedTokens(s.log)| + 1;
    }
  }

  /** The only step that counts forced logins or discards tokens. */
  lemma ForcedCallAddsOne(s: State, stale: Token, now: real)
    requires s.clock <= now
    ensures var log, log' := s.log, Step(s, CallForceReauth(stale, now)).log;
            var starts := !s.m.closed && s.m.credentialsFailure.None? && !Active(s.m)
                          && (s.m.accessToken.None? || s.m.accessToken.value == stale);
            && ForcedLogins(log') == ForcedLogins(log) + (if starts then 1 else 0)
            && ForcedWithoutToken(log') == ForcedWithoutToken(log) + (if starts && s.m.accessToken.None? then 1 else 0)
            && DiscardedTokens(log') == DiscardedTokens(log) + (if starts && s.m.accessToken.Some? then {stale} else {})
            && PresentedWhileCurrent(log') == PresentedWhileCurrent(log)
               + (if !s.m.closed && s.m.credentialsFailure.None? && s.m.accessToken == Some(stale) then {stale} else {})
            && LoginFailures(log') == LoginFailures(log)
            && IssuedTokens(log') == IssuedTokens(log)
            && NeverReissues(log') == NeverReissues(log)
  {
  }

  lemma {:induction false} ExecKeepsStormInv(s: State, actions: seq<Action>)
    requires Inv(s) && StormInv(s)
    ensures StormInv(Exec(s, actions))
    decreases |actions|
  {
    if actions != [] {
      StepKeepsInv(s, actions[0]);
      StepKeepsStormInv(s, actions[0]);
      ExecKeepsStormInv(Step(s, actions[0]), actions[1..]);
    }
  }

  /**
   * No login storm: whatever the interleaving, the logins forceReauth starts
   * number at most the distinct current tokens presented to it, plus the
   * failed logins, plus one.
   */
  lemma NoLoginStorm(t0: real, actions: seq<Action>)
    requires NeverReissues(Reached(t0, actions).log)
    ensures var log := Reached(t0, actions).log;
            && ForcedLogins(log) <= |PresentedWhileCurrent(log)| + LoginFailures(log) + 1
            && DiscardsOnlyPresented(log)
  {
    ExecKeepsStormInv(Initial(t0), actions);
    DiscardsOnlyPresentedAlways(Initial(t0), actions);
    var log := Reached(t0, actions).log;
    SubsetSize(DiscardedTokens(log), PresentedWhileCurrent(log));
  }

  // ------------------------------------------ exactly which servers allow a storm

  /** The bound on forced logins. */
  predicate WithinBound(log: History) { ForcedLogins(log) <= |PresentedWhileCurrent(log)| + LoginFailures(log) + 1 }

  /** Against a server that hands out these tokens in this order, no interleaving exceeds the bound. */
  ghost predicate BoundedAgainst(t0: real, tokens: seq<Token>)
  {
    forall actions :: IssuedSeq(Reached(t0, actions).log) <= tokens ==> WithinBound(Reached(t0, actions).log)
  }

  lemma {:induction false} DistinctTokensAreNeverReissued(log: History)
    requires Distinct(IssuedSeq(log))
    ensures NeverReissues(log) && IssuedTokens(log) == Members(IssuedSeq(log))
  {
    if log.Then? {
      var issued := IssuedSeq(log.before);
      assert issued <= IssuedSeq(log);
      DistinctTokensAreNeverReissued(log.before);
      if issued != IssuedSeq(log) {
        var t := IssuedSeq(log)[|issued|];
        assert IssuedSeq(log) == issued + [t];
        assert t !in issued by {
          assert forall i :: 0 <= i < |issued| ==> IssuedSeq(log)[i] == issued[i];
        }
      }
    }
  }

  /** A forced login that presents `stale` and is answered with `token`. */
  function Relogin(t0: real, stale: Token, f: nat, token: Token): seq<Action>
  {
    [CallForceReauth(stale, t0), PostAnswered(f, Reply(204, Some(token), None, None), t0), RunFinally(f)]
  }

  /** The token current after n of them were issued. */
  function Current(tokens: seq<Token>, n: nat): Option<Token>
    requires n <= |tokens|
  {
    if n == 0 then None else Some(tokens[n - 1])
  }

  function Stale(tokens: seq<Token>, n: nat): Token
    requires n <= |tokens|
  {
    if n == 0 then "" else tokens[n - 1]
  }

  /** Every token is presented as soon as it is current, one after the other. */
  function Chain(t0: real, tokens: seq<Token>, n: nat): seq<Action>
    requires n <= |tokens|
  {
    if n == 0 then [] else Chain(t0, tokens, n - 1) + Relogin(t0, Stale(tokens, n - 1), n - 1, tokens[n - 1])
  }

  lemma ReloginRun(s: State, stale: Token, f: nat, token: Token)
    requires |s.m.flights| == f && !Active(s.m) && !s.m.closed && s.m.credentialsFailure.None?
    requires s.m.accessToken.None? || s.m.accessToken == Some(stale)
    ensures var s' := Exec(s, Relogin(s.clock, stale, f, token));
            && s'.clock == s.clock && |s'.m.flights| == f + 1 && !Active(s'.m) && !s'.m.closed
            && s'.m.credentialsFailure.None? && s'.m.accessToken == Some(token)
            && IssuedSeq(s'.log) == IssuedSeq(s.log) + [token]
            && ForcedLogins(s'.log) == ForcedLogins(s.log) + 1
            && LoginFailures(s'.log) == LoginFailures(s.log)
            && PresentedWhileCurrent(s'.log) == PresentedWhileCurrent(s.log) + if s.m.accessToken.Some? then {stale} else {}
  {
    var acts := Relogin(s.clock, stale, f, token);
    var s1 := Step(s, acts[0]);
    ForcedCallAddsOne(s, stale, s.clock);
    assert s1.m.inFlight == Some(f) && s1.m.flights[f] == Posted(Login(true)) && IssuedSeq(s1.log) == IssuedSeq(s.log);
    var s2 := Step(s1, acts[1]);
    assert s2.m.flights[f] == Settled(Ok(token));
    ExecThree(s, acts[0], acts[1], acts[2]);
  }

  lemma {:induction false} ChainRun(t0: real, tokens: seq<Token>, n: nat)
    requires n <= |tokens|
    ensures var s := Reached(t0, Chain(t0, tokens, n));
            && s.clock == t0 && |s.m.flights| == n && !Active(s.m) && !s.m.closed && s.m.credentialsFailure.None?
            && s.m.accessToken == Current(tokens, n)
            && IssuedSeq(s.log) == tokens[..n] && ForcedLogins(s.log) == n && LoginFailures(s.log) == 0
            && PresentedWhileCurrent(s.log) == Members(if n == 0 then [] else tokens[..n - 1])
  {
    if n > 0 {
      ChainRun(t0, tokens, n - 1);
      var s := Reached(t0, Chain(t0, tokens, n - 1));
      ReloginRun(s, Stale(tokens, n - 1), n - 1, tokens[n - 1]);
      ExecConcat(Initial(t0), Chain(t0, tokens, n - 1), Relogin(t0, Stale(tokens, n - 1), n - 1, tokens[n - 1]));
      assert tokens[..n] == tokens[..n - 1] + [tokens[n - 1]];
      if n > 1 {
        assert tokens[..n - 1] == tokens[..n - 2] + [tokens[n - 2]];
      }
    }
  }

  lemma PresentedAgain(tokens: seq<Token>, i: nat, j: nat)
    requires i < j < |tokens| && tokens[i] == tokens[j]
    ensures Members(tokens[..j]) + {tokens[j]} == Members(tokens[..j]) && |Members(tokens[..j])| <= j
  {
    assert tokens[..j][i] == tokens[j];
    MembersAtMost(tokens[..j]);
  }

  /** Presenting tokens 0 to j in turn starts j + 2 logins, and if token j came before, only j tokens can have been presented. */
  lemma RepeatedTokenBreaksTheBound(t0: real, tokens: seq<Token>, i: nat, j: nat)
    requires i < j < |tokens| && tokens[i] == tokens[j]
    ensures !BoundedAgainst(t0, tokens)
  {
    ChainAndOneMore(t0, tokens, j);
    PresentedAgain(tokens, i, j);
    OneRunBreaksTheBound(t0, tokens, Chain(t0, tokens, j + 1) + [CallForceReauth(tokens[j], t0)]);
  }

  lemma ChainAndOneMore(t0: real, tokens: seq<Token>, j: nat)
    requires j < |tokens|
    ensures var log := Reached(t0, Chain(t0, tokens, j + 1) + [CallForceReauth(tokens[j], t0)]).log;
            && IssuedSeq(log) == tokens[..j + 1] && ForcedLogins(log) == j + 2 && LoginFailures(log) == 0
            && PresentedWhileCurrent(log) == Members(tokens[..j]) + {tokens[j]}
  {
    ChainRun(t0, tokens, j + 1);
    var chain := Chain(t0, tokens, j + 1);
    OneMoreForced(Reached(t0, chain), tokens[j]);
    ExecConcat(Initial(t0), chain, [CallForceReauth(tokens[j], t0)]);
  }

  lemma OneRunBreaksTheBound(t0: real, tokens: seq<Token>, actions: seq<Action>)
    requires IssuedSeq(Reached(t0, actions).log) <= tokens && !WithinBound(Reached(t0, actions).log)
    ensures !BoundedAgainst(t0, tokens)
  {
  }

  lemma OneMoreForced(s: State, current: Token)
    requires !Active(s.m) && !s.m.closed && s.m.credentialsFailure.None? && s.m.accessToken == Some(current)
    ensures var log := Exec(s, [CallForceReauth(current, s.clock)]).log;
            && IssuedSeq(log) == IssuedSeq(s.log) && ForcedLogins(log) == ForcedLogins(s.log) + 1
            && LoginFailures(log) == LoginFailures(s.log)
            && PresentedWhileCurrent(log) == PresentedWhileCurrent(s.log) + {current}
  {
    ForcedCallAddsOne(s, current, s.clock);
    var last := [CallForceReauth(current, s.clock)];
    assert last[1..] == [] && Exec(s, last) == Step(s, last[0]);
  }

  lemma {:induction false} MembersAtMost(tokens: seq<Token>)
    ensures |Members(tokens)| <= |tokens|
  {
    if tokens != [] {
      var init, last := tokens[..|tokens| - 1], tokens[|tokens| - 1];
      MembersAtMost(init);
      assert Members(tokens) == Members(init) + {last};
    }
  }

  /** The bound holds in every interleaving against a server exactly when the server hands out no token twice. */
  lemma NoLoginStormIff(t0: real, tokens: seq<Token>)
    ensures BoundedAgainst(t0, tokens) <==> Distinct(tokens)
  {
    if Distinct(tokens) {
      forall actions | IssuedSeq(Reached(t0, actions).log) <= tokens ensures WithinBound(Reached(t0, actions).log) {
        var issued := IssuedSeq(Reached(t0, actions).log);
        assert forall i :: 0 <= i < |issued| ==> issued[i] == tokens[i];
        DistinctTokensAreNeverReissued(Reached(t0, actions).log);
        NoLoginStorm(t0, actions);
      }
    } else {
      var i, j :| 0 <= i < j < |tokens| && tokens[i] == tokens[j];
      RepeatedTokenBreaksTheBound(t0, tokens, i, j);
    }
  }

  lemma {:induction false} ExecConcat(s: State, a: seq<Action>, b: seq<Action>)
    ensures Exec(s, a + b) == Exec(Exec(s, a), b)
    decreases |a|
  {
    if a == [] {
      assert a + b == b;
    } else {
      assert (a + b)[1..] == a[1..] + b;
      ExecConcat(Step(s, a[0]), a[1..], b);
    }
  }
}
