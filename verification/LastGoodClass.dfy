/** The caches as objects, segment by segment. */
module LastGoodClass {
  import opened Prelude
  import opened LastGood

  /** createRefreshCache, and createSccDeviceInventory, which is the same code over a device list. */
  class RefreshCache<T> {
    const intervalMs: real
    var cached: T
    var lastSuccessAt: Option<real>
    var inFlight: Option<nat>
    var flights: seq<Flight<T>>
    ghost var log: History<T>

    ghost function View(): State<T>
      reads this
    {
      State(Cache(cached, lastSuccessAt, inFlight, flights), log)
    }

    constructor (intervalMs: real, initialValue: T)
      ensures View() == Initial(initialValue) && this.intervalMs == intervalMs
    {
      this.intervalMs := intervalMs;
      cached, lastSuccessAt, inFlight, flights, log := initialValue, None, None, [], Start;
    }

    method RefreshIfDue(now: real) returns (a: Answer)
      modifies this
      ensures (View(), a) == old(Call(View(), now, intervalMs))
    {
      if inFlight.Some? {
        return Joined(inFlight.value);
      }
      var isDue := lastSuccessAt.None? || now - lastSuccessAt.value >= intervalMs;
      if !isDue {
        return NotDue;
      }
      inFlight := Some(|flights|);
      flights := flights + [Fetching];
      log := Then(log, FetchStarted(now));
      a := Joined(|flights| - 1);
    }

    /** runRefresh after its await; the clock is read only on success. */
    method FetchReturned<E>(f: nat, outcome: Result<T, E>, now: real)
      requires f < |flights| && flights[f].Fetching?
      modifies this
      ensures View() == old(FetchEnded(View(), f, outcome, now))
    {
      if outcome.Ok? {
        cached := outcome.value;
        lastSuccessAt := Some(now);
        log := Then(log, FetchSucceeded(cached, now));
      } else {
        log := Then(log, FetchFailed);
      }
      flights := flights[f := Settled(cached)];
    }

    method Finally(f: nat)
      requires f < |flights| && flights[f].Settled?
      modifies this
      ensures View() == old(RunFinally(View(), f))
    {
      flights := flights[f := Finished(flights[f].value)];
      if inFlight == Some(f) {
        inFlight := None;
      }
    }

    ghost predicate Valid()
      reads this
    {
      Sound(View().c)
    }

    /** `await refreshIfDue()`, with the outcome of the fetch it starts or joins. */
    method AwaitRefresh<E>(outcome: Result<T, E>, started: real, ended: real)
      requires Valid()
      modifies this
      ensures Valid() && View() == old(Awaited(View(), outcome, started, ended, intervalMs))
    {
      var a := RefreshIfDue(started);
      if a.Joined? {
        if flights[a.flight].Fetching? {
          FetchReturned(a.flight, outcome, ended);
        }
        Finally(a.flight);
      }
    }
  }

  /** createFmcDiscovery: the same machine, whose call hands out the device list itself. */
  class FmcDeviceDiscovery<D> {
    const intervalMs: real
    var cachedDevices: seq<D>
    var lastSuccessAt: Option<real>
    var inFlight: Option<nat>
    var flights: seq<Flight<seq<D>>>
    ghost var log: History<seq<D>>

    ghost function View(): State<seq<D>>
      reads this
    {
      State(Cache(cachedDevices, lastSuccessAt, inFlight, flights), log)
    }

    constructor (intervalMs: real)
      ensures View() == Initial([]) && this.intervalMs == intervalMs
    {
      this.intervalMs := intervalMs;
      cachedDevices, lastSuccessAt, inFlight, flights, log := [], None, None, [], Start;
    }

    /** Answers at once with the cached list, or joins a discovery. */
    method GetDevices(now: real) returns (a: Answer, atOnce: seq<D>)
      modifies this
      ensures (View(), a) == old(Call(View(), now, intervalMs))
      ensures a.NotDue? ==> atOnce == old(cachedDevices)
    {
      atOnce := [];
      if inFlight.Some? {
        return Joined(inFlight.value), atOnce;
      }
      if lastSuccessAt.Some? && now - lastSuccessAt.value < intervalMs {
        return NotDue, cachedDevices;
      }
      flights := flights + [Fetching];
      inFlight := Some(|flights| - 1);
      log := Then(log, FetchStarted(now));
      a := Joined(|flights| - 1);
    }

    /** runDiscovery after its await: the promise settles with the cached list, whether or not the fetch failed. */
    method DiscoveryReturned<E>(f: nat, outcome: Result<seq<D>, E>, now: real)
      requires f < |flights| && flights[f].Fetching?
      modifies this
      ensures View() == old(FetchEnded(View(), f, outcome, now))
    {
      match outcome {
        case Ok(devices) =>
          cachedDevices := devices;
          lastSuccessAt := Some(now);
          log := Then(log, FetchSucceeded(devices, now));
        case Err(_) =>
          log := Then(log, FetchFailed);
      }
      flights := flights[f := Settled(cachedDevices)];
    }

    method Finally(f: nat)
      requires f < |flights| && flights[f].Settled?
      modifies this
      ensures View() == old(RunFinally(View(), f))
    {
      flights := flights[f := Finished(flights[f].value)];
      if inFlight == Some(f) {
        inFlight := None;
      }
    }
  }
}
