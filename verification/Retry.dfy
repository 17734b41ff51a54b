/**
 * One GET: up to three attempts under one deadline. The world's part in it
 * (how long the hook before each attempt takes, what the request does, the
 * random draw, how late a timer wakes) is a script with one turn per attempt;
 * time passes nowhere else.
 */
module Retry {
  import opened Prelude
  import opened HttpErrors
  import opened RetryAfter
  import Digits

  const MAX_ATTEMPTS: nat := 3
  const BASE_DELAY_MS: real := 500.0

  datatype Response = Response(status: int, retryAfterMs: Option<real>)

  /** What beforeAttempt did. */
  datatype Hook = Absent | Resolved(wait: real) | Threw(wait: real, thrown: Thrown)

  datatype Reply = Answered(duration: real, status: int, retryAfter: Option<string>, wallNowMs: real)
                 | Broke(duration: real, thrown: Thrown)

  datatype Turn = Turn(hook: Hook, reply: Reply, random: real, oversleep: real)

  predicate Plausible(t: Turn)
  {
    && (t.hook.Absent? || t.hook.wait >= 0.0)
    && t.reply.duration >= 0.0 && 0.0 <= t.random < 1.0 && t.oversleep >= 0.0
  }

  function Ceil(x: real): int { -((-x).Floor) }

  function Envelope(attemptNumber: nat): real
    requires attemptNumber < MAX_ATTEMPTS
  {
    Min(CAP_DELAY_MS, BASE_DELAY_MS * (if attemptNumber == 0 then 1.0 else if attemptNumber == 1 then 2.0 else 4.0))
  }

  function ComputeBackoffMs(attemptNumber: nat, random: real): real
    requires attemptNumber < MAX_ATTEMPTS
  {
    random * Envelope(attemptNumber)
  }

  // --------------------------------------------------------- what a turn means

  function HookTime(h: Hook): real { if h.Absent? then 0.0 else h.wait }

  /** A hook that throws leaves before its time is credited to the deadline. */
  function Credit(h: Hook): real { if h.Resolved? then h.wait else 0.0 }

  function Verdict(t: Turn, dates: DateParser): Result<Response, HttpError>
  {
    if t.hook.Threw? then Err(ClassifyNetworkError(t.hook.thrown))
    else match t.reply
      case Broke(_, thrown) => Err(ClassifyNetworkError(thrown))
      case Answered(_, status, header, wallNowMs) =>
        var retryAfterMs := ParseRetryAfterMs(header, wallNowMs, dates);
        if 200 <= status < 300 then Ok(Response(status, retryAfterMs)) else Err(ClassifyStatusCode(status, retryAfterMs))
  }

  /** A reply's own Retry-After wins; an error that was thrown is always answered by backoff. */
  function DelayMs(t: Turn, attemptNumber: nat, dates: DateParser): real
    requires attemptNumber < MAX_ATTEMPTS
  {
    var v := Verdict(t, dates);
    if !t.hook.Threw? && t.reply.Answered? && v.Err? && v.error.retryAfterMs.Some? then v.error.retryAfterMs.value
    else ComputeBackoffMs(attemptNumber, t.random)
  }

  predicate Retries(v: Result<Response, HttpError>, attemptNumber: nat)
  {
    v.Err? && IsRetryable(v.error) && attemptNumber < MAX_ATTEMPTS - 1
  }

  function Outcome(v: Result<Response, HttpError>): Result<Response, HttpError>
  {
    if v.Err? && IsRetryable(v.error) then Err(Exhausted(v.error)) else v
  }

  // ---------------------------------------------------------------- the run

  datatype Moment = Moment(now: real, deadline: real)

  /** One attempt as it happened; `timer` is the abort signal's, absent when the hook threw first. */
  datatype Attempt = Attempt(entered: real, requested: real, deadline: real, timer: Option<int>, ended: real)

  datatype Run = Run(attempts: seq<Attempt>, outcome: Result<Response, HttpError>, finished: real)

  function Try(m: Moment, t: Turn): Attempt
  {
    var requested, deadline := m.now + HookTime(t.hook), m.deadline + Credit(t.hook);
    if t.hook.Threw? then Attempt(m.now, requested, deadline, None, requested)
    else
      var left := Ceil(deadline - requested);
      Attempt(m.now, requested, deadline, Some(if left > 0 then left else 0), requested + t.reply.duration)
  }

  function After(m: Moment, t: Turn, attemptNumber: nat, dates: DateParser): Moment
    requires attemptNumber < MAX_ATTEMPTS
  {
    var a := Try(m, t);
    Moment(a.ended + DelayMs(t, attemptNumber, dates) + t.oversleep, a.deadline)
  }

  function RunFrom(turns: seq<Turn>, n: nat, m: Moment, dates: DateParser): Run
    requires n < MAX_ATTEMPTS <= |turns|
    decreases MAX_ATTEMPTS - n
  {
    var a, v := Try(m, turns[n]), Verdict(turns[n], dates);
    if Retries(v, n) then
      var rest := RunFrom(turns, n + 1, After(m, turns[n], n, dates), dates);
      rest.(attempts := [a] + rest.attempts)
    else Run([a], Outcome(v), a.ended)
  }

  function GetRun(turns: seq<Turn>, start: real, timeoutMs: real, dates: DateParser): Run
    requires MAX_ATTEMPTS <= |turns|
  {
    RunFrom(turns, 0, Moment(start, start + timeoutMs), dates)
  }

  // ------------------------------------------------------ how many attempts

  /** The k-th attempt is the last: it succeeded, must not be retried, or is the third. */
  predicate IsLast(turns: seq<Turn>, k: nat, dates: DateParser)
    requires k < |turns|
  {
    !Retries(Verdict(turns[k], dates), k)
  }

  lemma {:induction false} EndsAtTheFirstLast(turns: seq<Turn>, n: nat, m: Moment, dates: DateParser)
    requires n < MAX_ATTEMPTS <= |turns|
    ensures var r := RunFrom(turns, n, m, dates); var last := n + |r.attempts| - 1;
            && n <= last < MAX_ATTEMPTS && IsLast(turns, last, dates)
            && (forall k :: n <= k < last ==> !IsLast(turns, k, dates))
            && r.outcome == Outcome(Verdict(turns[last], dates))
            && r.finished == r.attempts[|r.attempts| - 1].ended
    decreases MAX_ATTEMPTS - n
  {
    if Retries(Verdict(turns[n], dates), n) {
      EndsAtTheFirstLast(turns, n + 1, After(m, turns[n], n, dates), dates);
    }
  }

  /**
   * There are one to three attempts, a further one only after a retryable
   * error. The caller gets the last attempt's own response or error, and
   * an exhausted error, with that attempt's class and reason, exactly when
   * three attempts in a row met retryable errors.
   */
  lemma LastAttemptDecides(turns: seq<Turn>, start: real, timeoutMs: real, dates: DateParser)
    requires MAX_ATTEMPTS <= |turns|
    ensures var r := GetRun(turns, start, timeoutMs, dates); var last := |r.attempts| - 1;
            && 0 <= last < MAX_ATTEMPTS
            && (forall k :: 0 <= k < last ==> Retries(Verdict(turns[k], dates), k))
            && (r.outcome.Ok? ==> r.outcome == Verdict(turns[last], dates))
            && (r.outcome.Err? ==>
                  && Verdict(turns[last], dates).Err?
                  && var e := Verdict(turns[last], dates).error;
                  && r.outcome.error.kind == e.kind && r.outcome.error.reason == e.reason
                  && r.outcome.error.statusCode == e.statusCode && r.outcome.error.retryAfterMs == e.retryAfterMs
                  && (if IsRetryable(e) then r.outcome.error.exhausted && last == MAX_ATTEMPTS - 1 else r.outcome.error == e))
  {
    EndsAtTheFirstLast(turns, 0, Moment(start, start + timeoutMs), dates);
  }

  // ------------------------------------------------------------- the deadline

  /** Time the hooks of turns n up to k took, and the part of it that was credited. */
  function HookTimes(turns: seq<Turn>, n: nat, k: nat): real
    requires n <= k <= |turns|
    decreases k - n
  {
    if n == k then 0.0 else HookTime(turns[n].hook) + HookTimes(turns, n + 1, k)
  }

  function Credits(turns: seq<Turn>, n: nat, k: nat): real
    requires n <= k <= |turns|
    decreases k - n
  {
    if n == k then 0.0 else Credit(turns[n].hook) + Credits(turns, n + 1, k)
  }

  lemma {:induction false} DeadlineIsCredited(turns: seq<Turn>, n: nat, m: Moment, dates: DateParser, k: nat)
    requires n < MAX_ATTEMPTS <= |turns| && k < |RunFrom(turns, n, m, dates).attempts|
    ensures n + k < MAX_ATTEMPTS
    ensures RunFrom(turns, n, m, dates).attempts[k].deadline == m.deadline + Credits(turns, n, n + k + 1)
    decreases MAX_ATTEMPTS - n
  {
    assert Credits(turns, n, n + k + 1) == Credit(turns[n].hook) + Credits(turns, n + 1, n + k + 1);
    if k > 0 {
      var rest := RunFrom(turns, n + 1, After(m, turns[n], n, dates), dates);
      DeadlineIsCredited(turns, n + 1, After(m, turns[n], n, dates), dates, k - 1);
      assert RunFrom(turns, n, m, dates).attempts[k] == rest.attempts[k - 1];
    }
  }

  lemma {:induction false} CreditsAreHookTimesIff(turns: seq<Turn>, n: nat, k: nat)
    requires n <= k <= |turns| && forall j :: n <= j < k ==> Plausible(turns[j])
    ensures Credits(turns, n, k) <= HookTimes(turns, n, k)
    ensures Credits(turns, n, k) == HookTimes(turns, n, k)
            <==> forall j :: n <= j < k ==> turns[j].hook.Threw? ==> turns[j].hook.wait == 0.0
    decreases k - n
  {
    if n < k {
      CreditsAreHookTimesIff(turns, n + 1, k);
      var h := turns[n].hook;
      assert Plausible(turns[n]);
      assert Credit(h) == HookTime(h) <==> (h.Threw? ==> h.wait == 0.0);
      assert Credit(h) <= HookTime(h);
    }
  }

  /**
   * At every attempt the deadline is the start plus the timeout plus all the
   * time spent in the hook so far, if and only if no hook has spent time and
   * then thrown.
   */
  lemma DeadlineExcludesHooksIff(turns: seq<Turn>, start: real, timeoutMs: real, dates: DateParser, k: nat)
    requires MAX_ATTEMPTS <= |turns| && forall j :: 0 <= j < MAX_ATTEMPTS ==> Plausible(turns[j])
    requires k < |GetRun(turns, start, timeoutMs, dates).attempts|
    ensures k < MAX_ATTEMPTS
    ensures GetRun(turns, start, timeoutMs, dates).attempts[k].deadline == start + timeoutMs + HookTimes(turns, 0, k + 1)
            <==> forall j :: 0 <= j <= k ==> turns[j].hook.Threw? ==> turns[j].hook.wait == 0.0
  {
    DeadlineIsCredited(turns, 0, Moment(start, start + timeoutMs), dates, k);
    CreditsAreHookTimesIff(turns, 0, k + 1);
  }

  // ----------------------------------------------------------------- the pauses

  lemma PauseIsBounded(t: Turn, attemptNumber: nat, dates: DateParser)
    requires attemptNumber < MAX_ATTEMPTS && Plausible(t)
    requires Verdict(t, dates).Err?
    ensures 0.0 <= DelayMs(t, attemptNumber, dates) <= CAP_DELAY_MS
    ensures t.hook.Threw? || t.reply.Broke? ==> DelayMs(t, attemptNumber, dates) <= Envelope(attemptNumber)
  {
    var e := Envelope(attemptNumber);
    assert 0.0 <= t.random * e <= e by {
      assert t.random * e <= 1.0 * e;
    }
    if t.reply.Answered? {
      NeverBeyondTheCap(t.reply.retryAfter, t.reply.wallNowMs, dates);
    }
  }

  function Oversleeps(turns: seq<Turn>, n: nat, k: nat): real
    requires n <= k <= |turns|
    decreases k - n
  {
    if n == k then 0.0 else turns[n].oversleep + Oversleeps(turns, n + 1, k)
  }

  /** The request was over no later than its abort signal asked. */
  predicate EndsBySignal(a: Attempt) { a.timer.Some? ==> a.ended - a.requested <= a.timer.value as real }

  ghost predicate AllEndBySignal(attempts: seq<Attempt>) { forall a :: a in attempts ==> EndsBySignal(a) }

  /** Own time: everything but the hooks. `own` is what was used before turn n, out of `budget`. */
  lemma {:induction false} OwnTimeFrom(turns: seq<Turn>, n: nat, m: Moment, dates: DateParser, own: real, budget: real)
    requires n < MAX_ATTEMPTS <= |turns| && forall j :: 0 <= j < MAX_ATTEMPTS ==> Plausible(turns[j])
    requires m.deadline - m.now <= budget - own && AllEndBySignal(RunFrom(turns, n, m, dates).attempts)
    ensures OwnTimeWithin(turns, n, m, RunFrom(turns, n, m, dates), own, budget)
    decreases MAX_ATTEMPTS - n
  {
    var t := turns[n];
    assert RunFrom(turns, n, m, dates).attempts[0] == Try(m, t);
    OneAttemptsOwnTime(m, t, own, budget);
    if Retries(Verdict(t, dates), n) {
      var m' := After(m, t, n, dates);
      var rest := RunFrom(turns, n + 1, m', dates);
      assert AllEndBySignal(rest.attempts) by {
        assert RunFrom(turns, n, m, dates).attempts == [Try(m, t)] + rest.attempts;
      }
      PauseIsBounded(t, n, dates);
      OwnTimeFrom(turns, n + 1, m', dates, own + (m'.now - m.now) - HookTime(t.hook), budget);
      OwnTimeStep(turns, n, m, dates, own, budget, rest);
    }
  }

  lemma OwnTimeStep(turns: seq<Turn>, n: nat, m: Moment, dates: DateParser, own: real, budget: real, rest: Run)
    requires n + 1 < MAX_ATTEMPTS <= |turns| && Plausible(turns[n])
    requires 0.0 <= DelayMs(turns[n], n, dates) <= CAP_DELAY_MS
    requires own + (Try(m, turns[n]).ended - m.now) - HookTime(turns[n].hook) <= Max(own, budget + 1.0)
    requires var m' := After(m, turns[n], n, dates);
             OwnTimeWithin(turns, n + 1, m', rest, own + (m'.now - m.now) - HookTime(turns[n].hook), budget)
    ensures OwnTimeWithin(turns, n, m, rest.(attempts := [Try(m, turns[n])] + rest.attempts), own, budget)
  {
    var last := n + |rest.attempts|;
    assert HookTimes(turns, n, last + 1) == HookTime(turns[n].hook) + HookTimes(turns, n + 1, last + 1);
    assert Oversleeps(turns, n, last) == turns[n].oversleep + Oversleeps(turns, n + 1, last);
  }

  predicate OwnTimeWithin(turns: seq<Turn>, n: nat, m: Moment, r: Run, own: real, budget: real)
    requires n < MAX_ATTEMPTS <= |turns|
  {
    var last := n + |r.attempts| - 1;
    && n <= last < MAX_ATTEMPTS
    && own + (r.finished - m.now) - HookTimes(turns, n, last + 1)
       <= Max(own, budget + 1.0) + CAP_DELAY_MS * (MAX_ATTEMPTS - 1 - n) as real + Oversleeps(turns, n, last)
  }

  lemma OneAttemptsOwnTime(m: Moment, t: Turn, own: real, budget: real)
    requires Plausible(t) && m.deadline - m.now <= budget - own && EndsBySignal(Try(m, t))
    ensures var a := Try(m, t); own + (a.ended - m.now) - HookTime(t.hook) <= Max(own, budget + 1.0)
  {
    var a := Try(m, t);
    if !t.hook.Threw? {
      assert a.deadline - a.requested <= budget - own;
      assert Ceil(a.deadline - a.requested) as real < a.deadline - a.requested + 1.0;
    }
  }

  /**
   * If every request ends by its abort signal, the time a caller waits
   * outside its own hook is at most the timeout, one millisecond of rounding
   * and two capped pauses, plus what timers oversleep.
   */
  lemma OwnTimeIsBounded(turns: seq<Turn>, start: real, timeoutMs: real, dates: DateParser)
    requires MAX_ATTEMPTS <= |turns| && forall j :: 0 <= j < MAX_ATTEMPTS ==> Plausible(turns[j])
    requires timeoutMs >= 0.0 && AllEndBySignal(GetRun(turns, start, timeoutMs, dates).attempts)
    ensures var r := GetRun(turns, start, timeoutMs, dates);
            && 1 <= |r.attempts| <= MAX_ATTEMPTS
            && r.finished - start - HookTimes(turns, 0, |r.attempts|)
               <= timeoutMs + 16001.0 + Oversleeps(turns, 0, |r.attempts| - 1)
  {
    var m := Moment(start, start + timeoutMs);
    EndsAtTheFirstLast(turns, 0, m, dates);
    OwnTimeFrom(turns, 0, m, dates, 0.0, timeoutMs);
  }

  lemma SecondsAreThePause(t: Turn, attemptNumber: nat, dates: DateParser, seconds: nat)
    requires Retries(Verdict(t, dates), attemptNumber) && seconds < OVERFLOWS_AT
    requires !t.hook.Threw? && t.reply.Answered? && t.reply.retryAfter == Some(Digits.Decimal(seconds))
    ensures DelayMs(t, attemptNumber, dates) == Min(seconds as real * 1000.0, CAP_DELAY_MS)
  {
    var text := Digits.Decimal(seconds);
    assert "" + text + "" == text;
    WholeSecondsAreHonoured("", seconds, "", t.reply.wallNowMs, dates);
  }

  /**
   * A throttled or failing server that names a number of whole seconds is
   * left alone for that long, or for eight seconds if that is less.
   */
  lemma RetryAfterIsHonoured(turns: seq<Turn>, start: real, timeoutMs: real, dates: DateParser, k: nat, seconds: nat)
    requires MAX_ATTEMPTS <= |turns| && forall j :: 0 <= j < MAX_ATTEMPTS ==> Plausible(turns[j])
    requires k + 1 < |GetRun(turns, start, timeoutMs, dates).attempts| && seconds < OVERFLOWS_AT
    requires k < |turns| && !turns[k].hook.Threw? && turns[k].reply.Answered?
    requires turns[k].reply.retryAfter == Some(Digits.Decimal(seconds))
    ensures var r := GetRun(turns, start, timeoutMs, dates);
            r.attempts[k + 1].entered >= r.attempts[k].ended + Min(seconds as real * 1000.0, CAP_DELAY_MS)
  {
    var m := Moment(start, start + timeoutMs);
    EndsAtTheFirstLast(turns, 0, m, dates);
    NextEntersAfterThePause(turns, 0, m, dates, k);
    assert Plausible(turns[k]);
    assert !IsLast(turns, k, dates);
    SecondsAreThePause(turns[k], k, dates, seconds);
  }

  lemma {:induction false} NextEntersAfterThePause(turns: seq<Turn>, n: nat, m: Moment, dates: DateParser, k: nat)
    requires n < MAX_ATTEMPTS <= |turns| && k + 1 < |RunFrom(turns, n, m, dates).attempts|
    ensures n + k < MAX_ATTEMPTS
    ensures var a := RunFrom(turns, n, m, dates).attempts; var t := turns[n + k];
            a[k + 1].entered == a[k].ended + DelayMs(t, n + k, dates) + t.oversleep
    decreases MAX_ATTEMPTS - n
  {
    var m' := After(m, turns[n], n, dates);
    var a, rest := RunFrom(turns, n, m, dates).attempts, RunFrom(turns, n + 1, m', dates).attempts;
    assert a == [Try(m, turns[n])] + rest;
    if k > 0 {
      NextEntersAfterThePause(turns, n + 1, m', dates, k - 1);
      assert a[k] == rest[k - 1] && a[k + 1] == rest[k];
    }
  }

  // -------------------------------------------------------- what the caller sees

  /** An error that a retry may cure: of the transport, or already classified as passing. */
  predicate WorthRetrying(thrown: Thrown)
  {
    thrown.Classified? ==> thrown.error.kind.Transient? || thrown.error.kind.RateLimited?
  }

  /** The attempt failed in a way that may pass: thrown, throttled or a server fault. */
  predicate MayPass(t: Turn)
  {
    if t.hook.Threw? then WorthRetrying(t.hook.thrown)
    else if t.reply.Broke? then WorthRetrying(t.reply.thrown)
    else t.reply.status == 429 || t.reply.status >= 500
  }

  /** Another attempt follows exactly the first and second ones that failed in a way that may pass. */
  lemma AnotherAttemptIff(turns: seq<Turn>, start: real, timeoutMs: real, dates: DateParser, k: nat)
    requires MAX_ATTEMPTS <= |turns| && k < |GetRun(turns, start, timeoutMs, dates).attempts|
    ensures k < 3
    ensures k + 1 < |GetRun(turns, start, timeoutMs, dates).attempts| <==> k < 2 && MayPass(turns[k])
  {
    EndsAtTheFirstLast(turns, 0, Moment(start, start + timeoutMs), dates);
    assert IsLast(turns, k, dates) <==> !(k < 2 && MayPass(turns[k]));
  }

  /** What an answered last attempt comes to, by its status. */
  lemma StatusDecides(turns: seq<Turn>, start: real, timeoutMs: real, dates: DateParser)
    requires MAX_ATTEMPTS <= |turns|
    ensures var r := GetRun(turns, start, timeoutMs, dates);
            && 1 <= |r.attempts| <= 3
            && var t := turns[|r.attempts| - 1];
            (!t.hook.Threw? && t.reply.Answered? ==>
               var status, asked := t.reply.status, ParseRetryAfterMs(t.reply.retryAfter, t.reply.wallNowMs, dates);
               && (r.outcome.Ok? <==> 200 <= status < 300)
               && (r.outcome.Ok? ==> r.outcome.value == Response(status, asked))
               && (r.outcome.Err? ==>
                     var e := r.outcome.error;
                     && e.statusCode == Some(status)
                     && (status == 429 ==> e.kind == RateLimited && e.reason == TooManyRequests && e.retryAfterMs == asked)
                     && (status == 401 || status == 403 ==> e.kind == AuthFatal && e.reason == Auth && e.retryAfterMs.None?)
                     && (status >= 500 ==> e.kind == Transient && e.reason == Http5xx && e.retryAfterMs == asked)
                     && (status != 429 && status != 401 && status != 403 && status < 500 ==>
                           e.kind == SchemaParse && e.reason == Unknown && e.retryAfterMs.None?)))
  {
    LastAttemptDecides(turns, start, timeoutMs, dates);
  }

  /** What a last attempt that threw comes to: an abort is a timeout, a classified error is passed on, anything else is the network. */
  lemma ThrownDecides(turns: seq<Turn>, start: real, timeoutMs: real, dates: DateParser)
    requires MAX_ATTEMPTS <= |turns|
    ensures var r := GetRun(turns, start, timeoutMs, dates);
            && 1 <= |r.attempts| <= 3
            && var t := turns[|r.attempts| - 1];
            (t.hook.Threw? || t.reply.Broke? ==>
               var thrown := if t.hook.Threw? then t.hook.thrown else t.reply.thrown;
               && r.outcome.Err?
               && (thrown.Aborted? ==> r.outcome.error == HttpError(Transient, Timeout, None, None, true))
               && (thrown.Other? ==> r.outcome.error == HttpError(Transient, Network, None, None, true))
               && (thrown.Classified? ==> r.outcome.error.(exhausted := thrown.error.exhausted) == thrown.error))
  {
    LastAttemptDecides(turns, start, timeoutMs, dates);
  }

  /** The pause after an attempt: what the answer asked for, and otherwise a random part of half a second, then of a whole one. */
  lemma PauseIs(turns: seq<Turn>, start: real, timeoutMs: real, dates: DateParser, k: nat)
    requires MAX_ATTEMPTS <= |turns| && k + 1 < |GetRun(turns, start, timeoutMs, dates).attempts|
    ensures k < 2
    ensures var a, t := GetRun(turns, start, timeoutMs, dates).attempts, turns[k];
            var asked := if t.hook.Threw? || t.reply.Broke? then None
                         else ParseRetryAfterMs(t.reply.retryAfter, t.reply.wallNowMs, dates);
            a[k + 1].entered == a[k].ended + t.oversleep
              + (if asked.Some? then asked.value else t.random * (if k == 0 then 500.0 else 1000.0))
  {
    AnotherAttemptIff(turns, start, timeoutMs, dates, k);
    NextEntersAfterThePause(turns, 0, Moment(start, start + timeoutMs), dates, k);
  }

  /** A request goes out when its hook is done, and its abort signal is set to what is then left until the deadline, in whole milliseconds. */
  lemma {:induction false} TimerIsWhatIsLeft(turns: seq<Turn>, n: nat, m: Moment, dates: DateParser, k: nat)
    requires n < MAX_ATTEMPTS <= |turns| && k < |RunFrom(turns, n, m, dates).attempts|
    ensures n + k < MAX_ATTEMPTS
    ensures var a, t := RunFrom(turns, n, m, dates).attempts[k], turns[n + k];
            && a.requested == a.entered + (if t.hook.Absent? then 0.0 else t.hook.wait)
            && (a.timer.None? <==> t.hook.Threw?)
            && (a.timer.Some? ==>
                  && a.ended == a.requested + t.reply.duration
                  && 0 <= a.timer.value && a.deadline - a.requested <= a.timer.value as real
                  && (a.timer.value > 0 ==> a.timer.value as real < a.deadline - a.requested + 1.0))
    decreases MAX_ATTEMPTS - n
  {
    var m' := After(m, turns[n], n, dates);
    if k > 0 {
      var a, rest := RunFrom(turns, n, m, dates).attempts, RunFrom(turns, n + 1, m', dates).attempts;
      assert a == [Try(m, turns[n])] + rest;
      TimerIsWhatIsLeft(turns, n + 1, m', dates, k - 1);
    }
  }

  // ------------------------------------------------------------- the operation

  /** `done` attempts and what is still to come make up the whole run. */
  predicate Continues(whole: Run, done: seq<Attempt>, rest: Run) { whole == rest.(attempts := done + rest.attempts) }

  lemma AttemptAgain(turns: seq<Turn>, n: nat, m: Moment, dates: DateParser, whole: Run, done: seq<Attempt>)
    requires n < MAX_ATTEMPTS <= |turns| && Continues(whole, done, RunFrom(turns, n, m, dates))
    requires Retries(Verdict(turns[n], dates), n)
    ensures Continues(whole, done + [Try(m, turns[n])], RunFrom(turns, n + 1, After(m, turns[n], n, dates), dates))
  {
    var a, rest := [Try(m, turns[n])], RunFrom(turns, n + 1, After(m, turns[n], n, dates), dates).attempts;
    assert (done + a) + rest == done + (a + rest);
  }

  lemma NoFurtherAttempt(turns: seq<Turn>, n: nat, m: Moment, dates: DateParser, whole: Run, done: seq<Attempt>)
    requires n < MAX_ATTEMPTS <= |turns| && Continues(whole, done, RunFrom(turns, n, m, dates))
    requires !Retries(Verdict(turns[n], dates), n)
    ensures whole == Run(done + [Try(m, turns[n])], Outcome(Verdict(turns[n], dates)), Try(m, turns[n]).ended)
  {
  }

  lemma FirstAttempt(turns: seq<Turn>, start: real, timeoutMs: real, dates: DateParser)
    requires MAX_ATTEMPTS <= |turns|
    ensures Continues(GetRun(turns, start, timeoutMs, dates), [], RunFrom(turns, 0, Moment(start, start + timeoutMs), dates))
  {
    var attempts := GetRun(turns, start, timeoutMs, dates).attempts;
    assert [] + attempts == attempts;
  }

  /** One call of get(): its clock, the deadline its attempts push out, and the attempts made. */
  class Exchange {
    const dates: DateParser
    var now: real
    var deadline: real
    ghost var attempts: seq<Attempt>

    constructor (now: real, dates: DateParser)
      ensures this.now == now && this.dates == dates && attempts == []
    {
      this.now, this.dates, deadline, attempts := now, dates, now, [];
    }

    method PerformAttempt(turn: Turn) returns (response: Result<Response, HttpError>)
      modifies this
      ensures attempts == old(attempts) + [Try(Moment(old(now), old(deadline)), turn)]
      ensures now == Try(Moment(old(now), old(deadline)), turn).ended
      ensures deadline == old(deadline) + Credit(turn.hook)
      ensures response == Verdict(turn, dates)
    {
      var entered := now;
      if !turn.hook.Absent? {
        now := now + turn.hook.wait;
        if turn.hook.Threw? {
          attempts := attempts + [Attempt(entered, now, deadline, None, now)];
          return Err(ClassifyNetworkError(turn.hook.thrown));
        }
        deadline := deadline + (now - entered);
      }
      var requested, remainingMs := now, Ceil(deadline - now);
      if remainingMs < 0 {
        remainingMs := 0;
      }
      now := now + turn.reply.duration;
      attempts := attempts + [Attempt(entered, requested, deadline, Some(remainingMs), now)];
      match turn.reply
      case Broke(_, thrown) =>
        response := Err(ClassifyNetworkError(thrown));
      case Answered(_, status, header, wallNowMs) =>
        var retryAfterMs := ParseRetryAfterMs(header, wallNowMs, dates);
        if 200 <= status < 300 {
          response := Ok(Response(status, retryAfterMs));
        } else {
          response := Err(ClassifyStatusCode(status, retryAfterMs));
        }
    }

    method Pause(turn: Turn, attemptNumber: nat, error: HttpError)
      requires attemptNumber < MAX_ATTEMPTS && Verdict(turn, dates) == Err(error)
      modifies `now
      ensures now == old(now) + DelayMs(turn, attemptNumber, dates) + turn.oversleep
    {
      var delayMs := ComputeBackoffMs(attemptNumber, turn.random);
      if !turn.hook.Threw? && turn.reply.Answered? && error.retryAfterMs.Some? {
        delayMs := error.retryAfterMs.value;
      }
      now := now + delayMs + turn.oversleep;
    }

    /** One pass through the retry loop: either the call is over or another attempt is due. */
    method Iterate(turns: seq<Turn>, attemptNumber: nat, ghost whole: Run) returns (result: Option<Result<Response, HttpError>>)
      requires attemptNumber < MAX_ATTEMPTS <= |turns|
      requires Continues(whole, attempts, RunFrom(turns, attemptNumber, Moment(now, deadline), dates))
      modifies this
      ensures result.Some? ==> whole == Run(attempts, result.value, now)
      ensures result.None? ==>
                && attemptNumber + 1 < MAX_ATTEMPTS
                && Continues(whole, attempts, RunFrom(turns, attemptNumber + 1, Moment(now, deadline), dates))
    {
      var turn := turns[attemptNumber];
      ghost var m, done := Moment(now, deadline), attempts;
      var response := PerformAttempt(turn);
      assert response == Verdict(turn, dates);
      if response.Ok? {
        NoFurtherAttempt(turns, attemptNumber, m, dates, whole, done);
        return Some(response);
      }
      var error := response.error;
      if !IsRetryable(error) || attemptNumber == MAX_ATTEMPTS - 1 {
        NoFurtherAttempt(turns, attemptNumber, m, dates, whole, done);
        return Some(Err(if IsRetryable(error) then Exhausted(error) else error));
      }
      AttemptAgain(turns, attemptNumber, m, dates, whole, done);
      ghost var next := After(m, turn, attemptNumber, dates);
      Pause(turn, attemptNumber, error);
      assert Moment(now, deadline) == next;
      return None;
    }

    /** The retry loop never runs out of attempts without having thrown, so nothing follows it. */
    method Get(turns: seq<Turn>, timeoutMs: real) returns (result: Result<Response, HttpError>)
      requires MAX_ATTEMPTS <= |turns| && attempts == []
      modifies this
      ensures GetRun(turns, old(now), timeoutMs, dates) == Run(attempts, result, now)
    {
      FirstAttempt(turns, now, timeoutMs, dates);
      ghost var whole := GetRun(turns, now, timeoutMs, dates);
      deadline := now + timeoutMs;
      var attemptNumber := 0;
      while true
        invariant attemptNumber < MAX_ATTEMPTS
        invariant Continues(whole, attempts, RunFrom(turns, attemptNumber, Moment(now, deadline), dates))
        decreases MAX_ATTEMPTS - attemptNumber
      {
        var over := Iterate(turns, attemptNumber, whole);
        if over.Some? {
          return over.value;
        }
        attemptNumber := attemptNumber + 1;
      }
    }
  }
}
