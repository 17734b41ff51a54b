/**
 * The poll loop. A cycle is two segments: the one that calls fetchSnapshot()
 * and the one that runs when it resolves or rejects. Between them parse errors
 * are recorded and shutdown may be signalled. The history holds only what came
 * from outside; everything the poller shows is defined from it below.
 */
module PollLoop {
  import opened Prelude
  import opened HttpErrors

  /** What an error names as its reason: one of the bounded label set, or anything else. */
  datatype RaisedReason = Listed(reason: Reason) | Unlisted(raw: string)

  /** A reason outside the bounded label set is counted as unknown. */
  function BoundedReason(r: RaisedReason): Reason { if r.Listed? then r.reason else Unknown }

  /** Where a parse error came from: a cache refreshed beside the health fetch, or the health fetch itself. */
  datatype Group = Inventory | License | Certificate | HealthGroup(name: string)

  datatype Entry<S> = Entry(snapshots: seq<S>, fetchedAt: real)

  datatype Phase = NotStarted | Sleeping(delayMs: real) | Fetching(startedAt: real) | Stopped

  datatype State<S> = State(
    phase: Phase,
    aborted: bool,
    consecutiveFailures: nat,
    cache: Option<Entry<S>>,
    up: Option<bool>,
    devices: Option<nat>,
    pollTotal: nat,
    pollErrors: map<Reason, nat>,
    parseErrors: nat)

  datatype Event<S> =
    | CycleBegan(at: real)
    | ParseErrorRecorded(group: Group)
    | FetchResolved(snapshots: seq<S>, at: real)
    | FetchRejected(reason: RaisedReason)
    | AbortSignalled

  datatype History<S> = Begin | Then(before: History<S>, last: Event<S>)

  /** The configuration: poll interval and backoff cap, in milliseconds. */
  datatype Config = Config(intervalMs: real, maxBackoffMs: real)

  const JITTER_FRACTION: real := 0.1

  function Pow2(n: nat): real { if n == 0 then 1.0 else 2.0 * Pow2(n - 1) }

  function NextDelay(cfg: Config, failures: nat): real
  {
    if failures == 0 then cfg.intervalMs else Min(cfg.intervalMs * Pow2(failures), cfg.maxBackoffMs)
  }

  function Fresh<S>(): State<S> { State(NotStarted, false, 0, None, None, None, 0, map[], 0) }

  // ---------------------------------------------------------------- segments

  function AfterCycle<S>(s: State<S>, cfg: Config): State<S>
  {
    s.(phase := if s.aborted then Stopped else Sleeping(NextDelay(cfg, s.consecutiveFailures)))
  }

  function Fail<S>(s: State<S>, reason: Reason, cfg: Config): State<S>
  {
    var count := if reason in s.pollErrors then s.pollErrors[reason] else 0;
    AfterCycle(s.(up := Some(false), pollErrors := s.pollErrors[reason := count + 1],
                  consecutiveFailures := s.consecutiveFailures + 1, pollTotal := s.pollTotal + 1), cfg)
  }

  function Succeed<S>(s: State<S>, snapshots: seq<S>, now: real, cfg: Config): State<S>
  {
    AfterCycle(s.(cache := Some(Entry(snapshots, now)), up := Some(true), devices := Some(|snapshots|),
                  consecutiveFailures := 0, pollTotal := s.pollTotal + 1), cfg)
  }

  function OnResolved<S>(s: State<S>, snapshots: seq<S>, now: real, cfg: Config): State<S>
  {
    if s.aborted then s.(phase := Stopped)
    else
      var consumed := s.(parseErrors := 0);
      if snapshots == [] && s.parseErrors > 0 then Fail(consumed, Parse, cfg)
      else Succeed(consumed, snapshots, now, cfg)
  }

  function OnRejected<S>(s: State<S>, r: RaisedReason, cfg: Config): State<S>
  {
    if s.aborted then s.(phase := Stopped) else Fail(s, BoundedReason(r), cfg)
  }

  datatype Action<S> =
    | Start(jitter: real)
    | WakeUp(now: real)
    | Record(group: Group)
    | Resolve(snapshots: seq<S>, now: real)
    | Reject(reason: RaisedReason)
    | Abort

  datatype Run<S> = Run(s: State<S>, log: History<S>)

  function Step<S>(r: Run<S>, a: Action<S>, cfg: Config): Run<S>
  {
    var s := r.s;
    match a
    case Start(jitter) =>
      if s.phase.NotStarted? then r.(s := s.(phase := Sleeping(jitter * cfg.intervalMs * JITTER_FRACTION))) else r
    case WakeUp(now) =>
      if !s.phase.Sleeping? then r
      else if s.aborted then r.(s := s.(phase := Stopped))
      else Run(s.(phase := Fetching(now)), Then(r.log, CycleBegan(now)))
    case Record(g) =>
      Run(s.(parseErrors := s.parseErrors + if g.Inventory? then 0 else 1), Then(r.log, ParseErrorRecorded(g)))
    case Resolve(snapshots, now) =>
      if s.phase.Fetching? then Run(OnResolved(s, snapshots, now, cfg), Then(r.log, FetchResolved(snapshots, now))) else r
    case Reject(reason) =>
      if s.phase.Fetching? then Run(OnRejected(s, reason, cfg), Then(r.log, FetchRejected(reason))) else r
    case Abort => Run(s.(aborted := true), Then(r.log, AbortSignalled))
  }

  function Exec<S>(r: Run<S>, actions: seq<Action<S>>, cfg: Config): Run<S>
    decreases |actions|
  {
    if actions == [] then r else Exec(Step(r, actions[0], cfg), actions[1..], cfg)
  }

  function Reached<S>(actions: seq<Action<S>>, cfg: Config): Run<S> { Exec(Run(Fresh(), Begin), actions, cfg) }

  // ------------------------------------------------ what the history implies

  predicate WasAborted<S>(h: History<S>)
  {
    match h
    case Begin => false
    case Then(b, e) => e.AbortSignalled? || WasAborted(b)
  }

  /** Parse errors outside the inventory group since the last fetch that resolved before any abort. */
  function PendingErrors<S>(h: History<S>): nat
  {
    match h
    case Begin => 0
    case Then(b, ParseErrorRecorded(g)) => PendingErrors(b) + if g.Inventory? then 0 else 1
    case Then(b, FetchResolved(_, _)) => if WasAborted(b) then PendingErrors(b) else 0
    case Then(b, _) => PendingErrors(b)
  }

  /** The cycle that ends with the last event of `h`, if one does and counts: whether it succeeded. */
  function CycleOutcome<S>(h: History<S>): Option<bool>
    requires h.Then?
  {
    if WasAborted(h.before) then None
    else match h.last
      case FetchResolved(snapshots, _) => Some(snapshots != [] || PendingErrors(h.before) == 0)
      case FetchRejected(_) => Some(false)
      case _ => None
  }

  /** The entry of the last successful cycle. */
  function LastSuccess<S>(h: History<S>): Option<Entry<S>>
  {
    match h
    case Begin => None
    case Then(b, e) => if CycleOutcome(h) == Some(true) then Some(Entry(e.snapshots, e.at)) else LastSuccess(b)
  }

  function LastOutcome<S>(h: History<S>): Option<bool>
  {
    match h
    case Begin => None
    case Then(b, _) => if CycleOutcome(h).Some? then CycleOutcome(h) else LastOutcome(b)
  }

  /** Failed cycles since the last successful one. */
  function StraightFailures<S>(h: History<S>): nat
  {
    match h
    case Begin => 0
    case Then(b, _) =>
      match CycleOutcome(h)
      case Some(true) => 0
      case Some(false) => StraightFailures(b) + 1
      case None => StraightFailures(b)
  }

  function CompletedCycles<S>(h: History<S>): nat
  {
    match h
    case Begin => 0
    case Then(b, _) => CompletedCycles(b) + if CycleOutcome(h).Some? then 1 else 0
  }

  function FailuresFor<S>(h: History<S>, reason: Reason): nat
  {
    match h
    case Begin => 0
    case Then(b, e) =>
      var failedWith := if CycleOutcome(h) != Some(false) then None
                        else if e.FetchRejected? then Some(BoundedReason(e.reason)) else Some(Parse);
      FailuresFor(b, reason) + if failedWith == Some(reason) then 1 else 0
  }

  ghost predicate Inv<S>(r: Run<S>, cfg: Config)
  {
    var s := r.s;
    && s.aborted == WasAborted(r.log)
    && s.parseErrors == PendingErrors(r.log)
    && s.cache == LastSuccess(r.log)
    && s.up == LastOutcome(r.log)
    && s.devices == (if s.cache.None? then None else Some(|s.cache.value.snapshots|))
    && s.consecutiveFailures == StraightFailures(r.log)
    && s.pollTotal == CompletedCycles(r.log)
    && (forall reason :: FailuresFor(r.log, reason) == if reason in s.pollErrors then s.pollErrors[reason] else 0)
    && (s.phase.Sleeping? && s.pollTotal > 0 ==> s.phase.delayMs == NextDelay(cfg, s.consecutiveFailures))
    && (s.phase.Stopped? ==> s.aborted)
    && (s.phase.NotStarted? ==> s.pollTotal == 0)
  }

  lemma ResolveKeepsInv<S>(r: Run<S>, snapshots: seq<S>, now: real, cfg: Config)
    requires Inv(r, cfg)
    ensures Inv(Step(r, Resolve(snapshots, now), cfg), cfg)
  {
  }

  lemma RejectKeepsInv<S>(r: Run<S>, reason: RaisedReason, cfg: Config)
    requires Inv(r, cfg)
    ensures Inv(Step(r, Reject(reason), cfg), cfg)
  {
  }

  lemma StepKeepsInv<S>(r: Run<S>, a: Action<S>, cfg: Config)
    requires Inv(r, cfg)
    ensures Inv(Step(r, a, cfg), cfg)
  {
    match a
    case Resolve(snapshots, now) => ResolveKeepsInv(r, snapshots, now, cfg);
    case Reject(reason) => RejectKeepsInv(r, reason, cfg);
    case _ =>
  }

  lemma {:induction false} ExecKeepsInv<S>(r: Run<S>, actions: seq<Action<S>>, cfg: Config)
    requires Inv(r, cfg)
    ensures Inv(Exec(r, actions, cfg), cfg)
    decreases |actions|
  {
    if actions != [] {
      StepKeepsInv(r, actions[0], cfg);
      ExecKeepsInv(Step(r, actions[0], cfg), actions[1..], cfg);
    }
  }

  // ---------------------------------------------------------------- theorems

  /**
   * Over every run: the cache is exactly the last successful cycle, `up` the
   * last completed outcome, the counters count the completed and the failed
   * cycles by bounded reason, and a scheduled wait after a cycle is the
   * interval after a success and the capped doubling after f straight failures.
   */
  lemma PollerShowsItsHistory<S>(actions: seq<Action<S>>, cfg: Config, reason: Reason)
    ensures var r := Reached(actions, cfg);
            && r.s.cache == LastSuccess(r.log)
            && r.s.up == LastOutcome(r.log)
            && r.s.devices == (if r.s.cache.None? then None else Some(|r.s.cache.value.snapshots|))
            && r.s.pollTotal == CompletedCycles(r.log)
            && FailuresFor(r.log, reason) == (if reason in r.s.pollErrors then r.s.pollErrors[reason] else 0)
            && (r.s.phase.Sleeping? && r.s.pollTotal > 0 ==> r.s.phase.delayMs == NextDelay(cfg, StraightFailures(r.log)))
  {
    ExecKeepsInv(Run(Fresh(), Begin), actions, cfg);
  }

  /**
   * A cycle that resolves with zero devices fails exactly when a parse error
   * outside the inventory group was recorded since the last live cycle that
   * resolved; a cycle that rejected hands its count on.
   */
  lemma EmptyCycleFailsIff<S>(actions: seq<Action<S>>, cfg: Config, now: real)
    requires var r := Reached(actions, cfg); r.s.phase.Fetching? && !WasAborted(r.log)
    ensures var r := Reached(actions, cfg);
            var r' := Step(r, Resolve([], now), cfg);
            && (r'.s.up == Some(false) <==> PendingErrors(r.log) > 0)
            && (r'.s.cache != r.s.cache ==> r'.s.cache == Some(Entry([], now)) && PendingErrors(r.log) == 0)
            && PendingErrors(r'.log) == 0
    ensures forall reason ::
              var r := Reached(actions, cfg);
              PendingErrors(Step(r, Reject(reason), cfg).log) == PendingErrors(r.log)
  {
    ExecKeepsInv(Run(Fresh(), Begin), actions, cfg);
  }

  /** The same count, of parse errors in the health responses alone. */
  function PendingHealthErrors<S>(h: History<S>): nat
  {
    match h
    case Begin => 0
    case Then(b, ParseErrorRecorded(g)) => PendingHealthErrors(b) + if g.HealthGroup? then 1 else 0
    case Then(b, FetchResolved(_, _)) => if WasAborted(b) then PendingHealthErrors(b) else 0
    case Then(b, _) => PendingHealthErrors(b)
  }

  /** And of those met while the license or certificate cache was refreshed. */
  function PendingSideErrors<S>(h: History<S>): nat
  {
    match h
    case Begin => 0
    case Then(b, ParseErrorRecorded(g)) => PendingSideErrors(b) + if g.License? || g.Certificate? then 1 else 0
    case Then(b, FetchResolved(_, _)) => if WasAborted(b) then PendingSideErrors(b) else 0
    case Then(b, _) => PendingSideErrors(b)
  }

  lemma {:induction false} PendingErrorsSplit<S>(h: History<S>)
    ensures PendingErrors(h) == PendingHealthErrors(h) + PendingSideErrors(h)
  {
    if h.Then? {
      PendingErrorsSplit(h.before);
    }
  }

  /** Parse errors in the health responses of the cycle in progress. */
  function CycleHealthErrors<S>(h: History<S>): nat
  {
    match h
    case Begin => 0
    case Then(b, ParseErrorRecorded(g)) => CycleHealthErrors(b) + if g.HealthGroup? then 1 else 0
    case Then(b, CycleBegan(_)) => 0
    case Then(b, FetchResolved(_, _)) => 0
    case Then(b, _) => CycleHealthErrors(b)
  }

  lemma {:induction false} CycleErrorsArePending<S>(h: History<S>)
    ensures CycleHealthErrors(h) <= PendingHealthErrors(h)
  {
    if h.Then? {
      CycleErrorsArePending(h.before);
    }
  }

  /**
   * The check means to fail a cycle whose own health responses could not be
   * parsed, and never misses one. Over every run it fails another empty cycle
   * exactly when errors are pending that are not that cycle's health errors:
   * those of a license or certificate refresh, or of the health responses of
   * an earlier cycle that was rejected.
   */
  lemma EmptyCycleMisjudgedIff<S>(actions: seq<Action<S>>, cfg: Config, now: real)
    requires var r := Reached(actions, cfg); r.s.phase.Fetching? && !WasAborted(r.log)
    ensures var r := Reached(actions, cfg);
            var failed := Step(r, Resolve([], now), cfg).s.up == Some(false);
            && (CycleHealthErrors(r.log) > 0 ==> failed)
            && (failed != (CycleHealthErrors(r.log) > 0)
                <==> CycleHealthErrors(r.log) == 0 && PendingSideErrors(r.log) + PendingHealthErrors(r.log) > 0)
    ensures var r := Reached(actions, cfg);
            PendingErrors(r.log) == PendingHealthErrors(r.log) + PendingSideErrors(r.log)
            && CycleHealthErrors(r.log) <= PendingHealthErrors(r.log)
  {
    EmptyCycleFailsIff(actions, cfg, now);
    PendingErrorsSplit(Reached(actions, cfg).log);
    CycleErrorsArePending(Reached(actions, cfg).log);
  }

  lemma {:induction false} ExecSnoc<S>(r: Run<S>, actions: seq<Action<S>>, last: Action<S>, cfg: Config)
    ensures Exec(r, actions + [last], cfg) == Step(Exec(r, actions, cfg), last, cfg)
    decreases |actions|
  {
    if actions == [] {
      assert [last][1..] == [];
    } else {
      assert (actions + [last])[1..] == actions[1..] + [last];
      ExecSnoc(Step(r, actions[0], cfg), actions[1..], last, cfg);
    }
  }

  /**
   * Such runs exist from anywhere the poller sleeps with nothing pending: one
   * license or certificate hiccup turns the next empty, healthy poll into a
   * failure, where the same hiccup of the inventory would not.
   */
  lemma HiccupFailsAHealthyPoll<S>(actions: seq<Action<S>>, g: Group, cfg: Config, now: real)
    requires var r := Reached(actions, cfg); r.s.phase.Sleeping? && !r.s.aborted && PendingErrors(r.log) == 0
    requires !g.HealthGroup?
    ensures var hiccup := actions + [WakeUp(now)] + [Record(g)];
            var r := Reached(hiccup, cfg);
            && r.s.phase.Fetching? && CycleHealthErrors(r.log) == PendingHealthErrors(r.log) == 0
            && Step(r, Resolve([], now), cfg).s.up == Some(g.Inventory?)
  {
    ExecSnoc(Run(Fresh(), Begin), actions, WakeUp(now), cfg);
    ExecSnoc(Run(Fresh(), Begin), actions + [WakeUp(now)], Record(g), cfg);
    ExecKeepsInv(Run(Fresh(), Begin), actions, cfg);
    PendingErrorsSplit(Reached(actions, cfg).log);
  }

  /** Once aborted, nothing is committed ever again and at most the running fetch is left to end. */
  lemma {:induction false} NothingCommittedAfterAbort<S>(r: Run<S>, actions: seq<Action<S>>, cfg: Config)
    requires r.s.aborted
    ensures var r' := Exec(r, actions, cfg);
            && r'.s.aborted
            && r'.s.cache == r.s.cache && r'.s.up == r.s.up && r'.s.devices == r.s.devices
            && r'.s.pollTotal == r.s.pollTotal && r'.s.pollErrors == r.s.pollErrors
            && (r'.s.phase.Fetching? ==> r'.s.phase == r.s.phase)
            && (r.s.phase.Stopped? ==> r'.s.phase.Stopped?)
    decreases |actions|
  {
    if actions != [] {
      NothingCommittedAfterAbort(Step(r, actions[0], cfg), actions[1..], cfg);
    }
  }

  /** A failed cycle leaves the cache alone, and once filled it is never empty again. */
  lemma {:induction false} CacheNeverEmptiesAgain<S>(r: Run<S>, actions: seq<Action<S>>, cfg: Config)
    requires r.s.cache.Some?
    ensures Exec(r, actions, cfg).s.cache.Some?
    ensures Exec(r, actions, cfg).s.cache != r.s.cache ==>
              exists i :: 0 <= i < |actions| && actions[i].Resolve?
                          && Exec(r, actions, cfg).s.cache == Some(Entry(actions[i].snapshots, actions[i].now))
    decreases |actions|
  {
    if actions != [] {
      var r1 := Step(r, actions[0], cfg);
      CacheNeverEmptiesAgain(r1, actions[1..], cfg);
      var final := Exec(r1, actions[1..], cfg).s.cache;
      if final != r1.s.cache {
        var i :| 0 <= i < |actions[1..]| && actions[1..][i].Resolve?
                 && final == Some(Entry(actions[1..][i].snapshots, actions[1..][i].now));
        assert actions[i + 1] == actions[1..][i];
      } else if final != r.s.cache {
        assert actions[0].Resolve?;
      }
    }
  }

  lemma {:induction false} Pow2Grows(n: nat)
    ensures Pow2(n) >= 1.0 && Pow2(n + 1) == 2.0 * Pow2(n)
  {
    if n > 0 {
      Pow2Grows(n - 1);
    }
  }

  /** Backoff never shortens the wait, exactly when the interval does not exceed the cap. */
  lemma BackoffIsMonotoneIff(cfg: Config)
    requires cfg.intervalMs > 0.0 && cfg.maxBackoffMs > 0.0
    ensures (forall f: nat, g: nat :: g == f + 1 ==> NextDelay(cfg, f) <= NextDelay(cfg, g)) <==> cfg.intervalMs <= cfg.maxBackoffMs
  {
    if cfg.intervalMs <= cfg.maxBackoffMs {
      forall f: nat, g: nat | g == f + 1 ensures NextDelay(cfg, f) <= NextDelay(cfg, g) {
        Pow2Grows(f);
        assert cfg.intervalMs * Pow2(f) <= cfg.intervalMs * Pow2(f + 1);
      }
    } else {
      assert NextDelay(cfg, 1) <= cfg.maxBackoffMs < NextDelay(cfg, 0);
    }
  }
  /** A poller that is asleep after a cycle and not shut down. */
  ghost predicate WaitsAfterACycle<S>(r: Run<S>) { r.s.phase.Sleeping? && r.s.pollTotal > 0 && !r.s.aborted }

  lemma DelayDoubles(cfg: Config, f: nat)
    requires cfg.intervalMs >= 0.0 && cfg.maxBackoffMs >= 0.0
    ensures NextDelay(cfg, f + 1) == Min(2.0 * NextDelay(cfg, f), cfg.maxBackoffMs)
  {
    Pow2Grows(f);
    assert cfg.intervalMs * Pow2(f + 1) == 2.0 * (cfg.intervalMs * Pow2(f));
    assert cfg.intervalMs * Pow2(f) >= 0.0;
  }

  /** The wait after a rejected cycle is twice the one before it, up to the cap; the first doubles the interval. */
  lemma EachFailureDoublesTheWait<S>(actions: seq<Action<S>>, cfg: Config, now: real, reason: RaisedReason)
    requires cfg.intervalMs >= 0.0 && cfg.maxBackoffMs >= 0.0 && WaitsAfterACycle(Reached(actions, cfg))
    ensures var before, after := Reached(actions, cfg).s, Reached(actions + [WakeUp(now)] + [Reject(reason)], cfg).s;
            && after.phase.Sleeping?
            && after.phase.delayMs == Min(2.0 * before.phase.delayMs, cfg.maxBackoffMs)
            && (before.consecutiveFailures == 0 ==> before.phase.delayMs == cfg.intervalMs)
            && after.consecutiveFailures == before.consecutiveFailures + 1
  {
    var r := Reached(actions, cfg);
    ExecKeepsInv(Run(Fresh(), Begin), actions, cfg);
    ExecSnoc(Run(Fresh(), Begin), actions, WakeUp(now), cfg);
    ExecSnoc(Run(Fresh(), Begin), actions + [WakeUp(now)], Reject(reason), cfg);
    DelayDoubles(cfg, r.s.consecutiveFailures);
  }

  /** After a success the wait is the interval again, whatever failed before. */
  lemma SuccessRestoresTheInterval<S>(actions: seq<Action<S>>, cfg: Config, snapshots: seq<S>, now: real)
    requires var r := Reached(actions, cfg);
             r.s.phase.Fetching? && !r.s.aborted && (snapshots != [] || PendingErrors(r.log) == 0)
    ensures Reached(actions + [Resolve(snapshots, now)], cfg).s.phase == Sleeping(cfg.intervalMs)
  {
    ExecKeepsInv(Run(Fresh(), Begin), actions, cfg);
    ExecSnoc(Run(Fresh(), Begin), actions, Resolve(snapshots, now), cfg);
  }

  /** The first wait is a random part of a tenth of the interval. */
  lemma FirstWaitIsJitter<S>(cfg: Config, jitter: real)
    requires 0.0 <= jitter < 1.0 && cfg.intervalMs > 0.0
    ensures var s := Reached<S>([Start(jitter)], cfg).s;
            s.phase.Sleeping? && 0.0 <= s.phase.delayMs < cfg.intervalMs / 10.0 && s.phase.delayMs * 10.0 == jitter * cfg.intervalMs
  {
    var actions: seq<Action<S>> := [];
    ExecSnoc(Run(Fresh(), Begin), actions, Start(jitter), cfg);
    assert actions + [Start(jitter)] == [Start(jitter)];
    assert jitter * cfg.intervalMs < 1.0 * cfg.intervalMs;
  }

  function CountFor<S>(s: State<S>, reason: Reason): nat { if reason in s.pollErrors then s.pollErrors[reason] else 0 }

  /** A rejection is counted under its own reason, or as unknown if that is not one of the known ones. */
  lemma RejectionsAreCountedByReason<S>(r: Run<S>, cfg: Config, raised: RaisedReason, reason: Reason)
    requires r.s.phase.Fetching? && !r.s.aborted
    ensures CountFor(Step(r, Reject(raised), cfg).s, reason)
            == CountFor(r.s, reason) + if raised == Listed(reason) || (raised.Unlisted? && reason == Unknown) then 1 else 0
  {
  }
}
