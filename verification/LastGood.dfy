/**
 * The last-good cache: one machine behind the license and certificate caches,
 * the SCC device inventory and the FMC device discovery. A refresh is due when
 * none ever succeeded or an interval has passed since; at most one runs; a
 * failure keeps the value.
 */
module LastGood {
  import opened Prelude

  /** A refresh promise: its fetch is running, it settled with the value then cached, or its `finally` has run too. */
  datatype Flight<T> = Fetching | Settled(value: T) | Finished(value: T)

  datatype Cache<T> = Cache(cached: T, lastSuccessAt: Option<real>, inFlight: Option<nat>, flights: seq<Flight<T>>)

  datatype Event<T> = FetchStarted(at: real) | FetchSucceeded(value: T, at: real) | FetchFailed

  datatype History<T> = Start | Then(before: History<T>, last: Event<T>)

  datatype State<T> = State(c: Cache<T>, log: History<T>)

  datatype Answer = NotDue | Joined(flight: nat)

  predicate Due<T>(c: Cache<T>, now: real, interval: real)
  {
    c.lastSuccessAt.None? || now - c.lastSuccessAt.value >= interval
  }

  function Call<T>(s: State<T>, now: real, interval: real): (State<T>, Answer)
  {
    var c := s.c;
    if c.inFlight.Some? then (s, Joined(c.inFlight.value))
    else if !Due(c, now, interval) then (s, NotDue)
    else (State(c.(flights := c.flights + [Fetching], inFlight := Some(|c.flights|)), Then(s.log, FetchStarted(now))),
          Joined(|c.flights|))
  }

  function FetchEnded<T, E>(s: State<T>, f: nat, outcome: Result<T, E>, now: real): State<T>
    requires f < |s.c.flights| && s.c.flights[f].Fetching?
  {
    match outcome
    case Ok(v) =>
      State(s.c.(cached := v, lastSuccessAt := Some(now), flights := s.c.flights[f := Settled(v)]),
            Then(s.log, FetchSucceeded(v, now)))
    case Err(_) =>
      State(s.c.(flights := s.c.flights[f := Settled(s.c.cached)]), Then(s.log, FetchFailed))
  }

  function RunFinally<T>(s: State<T>, f: nat): State<T>
    requires f < |s.c.flights| && s.c.flights[f].Settled?
  {
    s.(c := s.c.(flights := s.c.flights[f := Finished(s.c.flights[f].value)],
                 inFlight := if s.c.inFlight == Some(f) then None else s.c.inFlight))
  }

  datatype Action<T, E> =
    | Refresh(now: real)
    | End(flight: nat, outcome: Result<T, E>, now: real)
    | Finally(flight: nat)

  function Step<T, E>(s: State<T>, a: Action<T, E>, interval: real): State<T>
  {
    match a
    case Refresh(now) => Call(s, now, interval).0
    case End(f, outcome, now) =>
      if f < |s.c.flights| && s.c.flights[f].Fetching? then FetchEnded(s, f, outcome, now) else s
    case Finally(f) =>
      if f < |s.c.flights| && s.c.flights[f].Settled? then RunFinally(s, f) else s
  }

  function Exec<T, E>(s: State<T>, actions: seq<Action<T, E>>, interval: real): State<T>
    decreases |actions|
  {
    if actions == [] then s else Exec(Step(s, actions[0], interval), actions[1..], interval)
  }

  function Initial<T>(value: T): State<T> { State(Cache(value, None, None, []), Start) }

  // --------------------------------------------------- what the history says

  /** The value of the last refresh that succeeded. */
  function LastValue<T>(log: History<T>, initial: T): T
  {
    match log
    case Start => initial
    case Then(_, FetchSucceeded(v, _)) => v
    case Then(h, _) => LastValue(h, initial)
  }

  function LastSuccess<T>(log: History<T>): Option<real>
  {
    match log
    case Start => None
    case Then(_, FetchSucceeded(_, at)) => Some(at)
    case Then(h, _) => LastSuccess(h)
  }

  /** No fetch ever started within an interval of the success before it. */
  predicate Paced<T>(log: History<T>, interval: real)
  {
    match log
    case Start => true
    case Then(h, FetchStarted(at)) =>
      Paced(h, interval) && (LastSuccess(h).Some? ==> at - LastSuccess(h).value >= interval)
    case Then(h, _) => Paced(h, interval)
  }

  /** Fetches started and not yet ended. */
  function Running<T>(log: History<T>): int
  {
    match log
    case Start => 0
    case Then(h, FetchStarted(_)) => Running(h) + 1
    case Then(h, _) => Running(h) - 1
  }

  /** What each fetch that ended left as the value of the last success, in the order they ended. */
  function Deliveries<T>(log: History<T>, initial: T): seq<T>
  {
    match log
    case Start => []
    case Then(h, FetchStarted(_)) => Deliveries(h, initial)
    case Then(h, _) => Deliveries(h, initial) + [LastValue(log, initial)]
  }

  predicate FetchRunning<T>(c: Cache<T>)
  {
    c.inFlight.Some? && c.inFlight.value < |c.flights| && c.flights[c.inFlight.value].Fetching?
  }

  /** Every promise that settled holds the last good value as of the end of its own fetch. */
  ghost predicate Delivered<T>(s: State<T>, initial: T)
  {
    var values := Deliveries(s.log, initial);
    && |values| + (if FetchRunning(s.c) then 1 else 0) == |s.c.flights|
    && forall f :: 0 <= f < |values| ==> !s.c.flights[f].Fetching? && s.c.flights[f].value == values[f]
  }

  ghost predicate Inv<T>(s: State<T>, initial: T, interval: real)
  {
    var c := s.c;
    && (c.inFlight.Some? ==> c.inFlight.value == |c.flights| - 1 && !c.flights[c.inFlight.value].Finished?)
    && (forall f :: 0 <= f < |c.flights| && !c.flights[f].Finished? ==> c.inFlight == Some(f))
    && Delivered(s, initial)
    && c.cached == LastValue(s.log, initial)
    && c.lastSuccessAt == LastSuccess(s.log)
    && Paced(s.log, interval)
    && Running(s.log) == (if FetchRunning(c) then 1 else 0)
  }

  lemma StepKeepsInv<T, E>(s: State<T>, a: Action<T, E>, initial: T, interval: real)
    requires Inv(s, initial, interval)
    ensures Inv(Step(s, a, interval), initial, interval)
  {
  }

  lemma {:induction false} ExecKeepsInv<T, E>(s: State<T>, actions: seq<Action<T, E>>, initial: T, interval: real)
    requires Inv(s, initial, interval)
    ensures Inv(Exec(s, actions, interval), initial, interval)
    decreases |actions|
  {
    if actions != [] {
      StepKeepsInv(s, actions[0], initial, interval);
      ExecKeepsInv(Step(s, actions[0], interval), actions[1..], initial, interval);
    }
  }

  /**
   * Over every interleaving of callers, fetch outcomes and callbacks: at most
   * one fetch runs, none starts within the interval after a success, and the
   * cached value is that of the last refresh that succeeded, so failures
   * never touch it.
   */
  lemma LastGoodHolds<T, E>(initial: T, interval: real, actions: seq<Action<T, E>>)
    ensures var s := Exec(Initial(initial), actions, interval);
            && 0 <= Running(s.log) <= 1
            && Paced(s.log, interval)
            && s.c.cached == LastValue(s.log, initial)
  {
    ExecKeepsInv(Initial(initial), actions, initial, interval);
  }

  /**
   * Whoever awaits a running fetch gets what it fetched, or the last good
   * value if it failed, whatever happens after it ended; and with the values
   * of all fetches that ended before it, that is what every promise holds.
   */
  lemma JoinedCallsGetTheLastGoodValue<T, E>(
      initial: T, interval: real, before: seq<Action<T, E>>, f: nat, outcome: Result<T, E>, now: real, after: seq<Action<T, E>>)
    requires var s := Exec(Initial(initial), before, interval);
             f < |s.c.flights| && s.c.flights[f].Fetching?
    ensures var s := Exec(Initial(initial), before, interval);
            var s' := Exec(Step(s, End(f, outcome, now), interval), after, interval);
            && Delivered(s', initial)
            && f < |s'.c.flights| && !s'.c.flights[f].Fetching?
            && s'.c.flights[f].value == if outcome.Ok? then outcome.value else LastValue(s.log, initial)
  {
    var s := Exec(Initial(initial), before, interval);
    ExecKeepsInv(Initial(initial), before, initial, interval);
    StepKeepsInv(s, End(f, outcome, now), initial, interval);
    ExecKeepsInv(Step(s, End(f, outcome, now), interval), after, initial, interval);
    PromisesStay(Step(s, End(f, outcome, now), interval), after, f, interval);
  }

  lemma {:induction false} PromisesStay<T, E>(s: State<T>, actions: seq<Action<T, E>>, f: nat, interval: real)
    requires f < |s.c.flights| && !s.c.flights[f].Fetching?
    ensures var s' := Exec(s, actions, interval);
            f < |s'.c.flights| && !s'.c.flights[f].Fetching? && s'.c.flights[f].value == s.c.flights[f].value
    decreases |actions|
  {
    if actions != [] {
      PromisesStay(Step(s, actions[0], interval), actions[1..], f, interval);
    }
  }

  /** A success at `now` answers every call within the interval at once, and the first call after it fetches again. */
  lemma SuccessLastsOneInterval<T, E>(
      initial: T, interval: real, before: seq<Action<T, E>>, f: nat, value: T, now: real, later: real)
    requires var s := Exec(Initial(initial), before, interval);
             f < |s.c.flights| && s.c.flights[f].Fetching?
    ensures var s := Exec(Initial(initial), before, interval);
            var ended: Action<T, E> := End(f, Ok(value), now);
            var done: Action<T, E> := Finally(f);
            var s' := Step(Step(s, ended, interval), done, interval);
            s'.c.cached == value && Call(s', later, interval).1 == if later - now < interval then NotDue else Joined(f + 1)
  {
    ExecKeepsInv(Initial(initial), before, initial, interval);
  }

  /** An idle cache is never stuck: once due again, the next call starts a fetch. */
  lemma DueCallFetches<T, E>(initial: T, interval: real, actions: seq<Action<T, E>>, now: real)
    requires var s := Exec(Initial(initial), actions, interval);
             s.c.inFlight.None? && (LastSuccess(s.log).None? || now - LastSuccess(s.log).value >= interval)
    ensures var s := Exec(Initial(initial), actions, interval);
            Call(s, now, interval).1 == Joined(|s.c.flights|)
            && Running(Call(s, now, interval).0.log) == 1
  {
    ExecKeepsInv(Initial(initial), actions, initial, interval);
  }

  // -------------------------------------------------------- an awaited refresh

  /** The slot, if taken, holds a flight that is not finished. */
  predicate Sound<T>(c: Cache<T>)
  {
    c.inFlight.Some? ==> c.inFlight.value < |c.flights| && !c.flights[c.inFlight.value].Finished?
  }

  /** A caller that waits for the refresh it starts or joins: by then the fetch has ended and its callback has run. */
  function Awaited<T, E>(s: State<T>, outcome: Result<T, E>, started: real, ended: real, interval: real): State<T>
    requires Sound(s.c)
  {
    var (called, answer) := Call(s, started, interval);
    match answer
    case NotDue => called
    case Joined(f) =>
      RunFinally(if called.c.flights[f].Fetching? then FetchEnded(called, f, outcome, ended) else called, f)
  }

  /** Whether such a caller waits for a fetch: one that runs already, or one that is due. */
  predicate AwaitsFetch<T>(c: Cache<T>, started: real, interval: real)
  {
    FetchRunning(c) || (c.inFlight.None? && Due(c, started, interval))
  }

  /** An awaited refresh frees the slot, changes the value exactly if there was a fetch and it succeeded, and its promise holds that value. */
  lemma AwaitedRefresh<T, E>(s: State<T>, outcome: Result<T, E>, started: real, ended: real, interval: real)
    requires Sound(s.c)
    ensures var after := Awaited(s, outcome, started, ended, interval).c;
            && after.inFlight.None?
            && after.cached == (if AwaitsFetch(s.c, started, interval) && outcome.Ok? then outcome.value else s.c.cached)
            && (AwaitsFetch(s.c, started, interval) ==>
                  var f := if s.c.inFlight.Some? then s.c.inFlight.value else |s.c.flights|;
                  f < |after.flights| && after.flights[f] == Finished(after.cached))
  {
  }

  // ---------------------------------------------------------- the wire rule

  /**
   * What one refresh gets: no request because the adapter is not ready, a
   * failed one, a body that is not JSON, or the value a mapper made of it and
   * how many parse errors it recorded.
   */
  datatype Wire<T> = NotReady | RequestFailed | NotJson | Body(value: T, parseErrors: nat)

  /** The rule of the fetch functions of both adapters: an empty value with recorded errors is thrown, not returned. */
  function FromWire<T(==)>(w: Wire<T>, empty: T): Result<T, Wire<T>>
  {
    match w
    case NotReady => Ok(empty)
    case RequestFailed => Err(w)
    case NotJson => Err(w)
    case Body(value, errors) => if value == empty && errors > 0 then Err(w) else Ok(value)
  }

  /**
   * What a refresh's wire does to the cache: a value is banked with every
   * error it recorded unless it is empty because of them, and whatever is
   * thrown leaves the cache as it was and due at once.
   */
  lemma OnlyEmptyBodiesWithErrorsAreThrown<T>(s: State<T>, f: nat, w: Wire<T>, empty: T, now: real, interval: real)
    requires f < |s.c.flights| && s.c.flights[f].Fetching?
    ensures var ended: Action<T, Wire<T>> := End(f, FromWire(w, empty), now);
            var after := Step(s, ended, interval).c;
            && (w.Body? && (w.value != empty || w.parseErrors == 0) ==> after.cached == w.value && after.lastSuccessAt == Some(now))
            && (w.NotReady? ==> after.cached == empty && after.lastSuccessAt == Some(now))
            && (w.RequestFailed? || w.NotJson? || (w.Body? && w.value == empty && w.parseErrors > 0) ==>
                  after.cached == s.c.cached && after.lastSuccessAt == s.c.lastSuccessAt)
  {
  }

  /** Every fetch of the run ended as the rule says for its wire. */
  ghost predicate FedBy<T>(actions: seq<Action<T, Wire<T>>>, wires: seq<Wire<T>>, empty: T)
  {
    && |wires| == |actions|
    && forall i :: 0 <= i < |actions| && actions[i].End? ==> actions[i].outcome == FromWire(wires[i], empty)
  }

  /** What the wire may put in the cache: a body's value, empty only if it recorded no error, or nothing from an adapter not ready. */
  ghost predicate Banks<T>(w: Wire<T>, empty: T, value: T)
  {
    || (w.Body? && w.value == value && (value == empty ==> w.parseErrors == 0))
    || (w.NotReady? && value == empty)
  }

  ghost predicate Banked<T>(actions: seq<Action<T, Wire<T>>>, wires: seq<Wire<T>>, empty: T, value: T, i: nat)
    requires |wires| == |actions|
  {
    i < |actions| && actions[i].End? && Banks(wires[i], empty, value)
  }

  /** Over any run a cache holds what it held before or what one of the wires banks. */
  lemma {:induction false} CacheHoldsWhatWasBanked<T>(s: State<T>, actions: seq<Action<T, Wire<T>>>, wires: seq<Wire<T>>, empty: T, interval: real)
    requires FedBy(actions, wires, empty)
    ensures var cached := Exec(s, actions, interval).c.cached;
            cached == s.c.cached || exists i: nat :: Banked(actions, wires, empty, cached, i)
    decreases |actions|
  {
    if actions != [] {
      var s1, cached := Step(s, actions[0], interval), Exec(s, actions, interval).c.cached;
      CacheHoldsWhatWasBanked(s1, actions[1..], wires[1..], empty, interval);
      if i: nat :| Banked(actions[1..], wires[1..], empty, cached, i) {
        assert Banked(actions, wires, empty, cached, i + 1);
      } else if s1.c.cached != s.c.cached {
        assert Banked(actions, wires, empty, cached, 0);
      }
    }
  }
}
