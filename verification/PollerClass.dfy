/** The poller and the parse-error tracker as objects, segment by segment. */
module PollerClass {
  import opened Prelude
  import opened HttpErrors
  import opened PollLoop

  class ParseErrorTracker {
    var count: nat

    constructor ()
      ensures count == 0
    {
      count := 0;
    }

    method Record()
      modifies this
      ensures count == old(count) + 1
    {
      count := count + 1;
    }

    method ConsumeSinceLastCycle() returns (consumed: nat)
      modifies this
      ensures consumed == old(count) && count == 0
    {
      consumed := count;
      count := 0;
    }
  }

  /** The hook the process wires to the backend: inventory errors do not reach the tracker. */
  method OnParseError(tracker: ParseErrorTracker, group: Group)
    modifies tracker
    ensures tracker.count == old(tracker.count) + if group.Inventory? then 0 else 1
  {
    if !group.Inventory? {
      tracker.Record();
    }
  }

  class Poller<S> {
    const cfg: Config
    const tracker: ParseErrorTracker
    var phase: Phase
    var aborted: bool
    var consecutiveFailures: nat
    var cache: Option<Entry<S>>
    var up: Option<bool>
    var devices: Option<nat>
    var pollTotal: nat
    var pollErrors: map<Reason, nat>

    ghost function View(): State<S>
      reads this, tracker
    {
      State(phase, aborted, consecutiveFailures, cache, up, devices, pollTotal, pollErrors, tracker.count)
    }

    constructor (cfg: Config, tracker: ParseErrorTracker)
      requires tracker.count == 0
      ensures View() == Fresh() && this.cfg == cfg && this.tracker == tracker
    {
      this.cfg, this.tracker := cfg, tracker;
      phase, aborted, consecutiveFailures := NotStarted, false, 0;
      cache, up, devices, pollTotal, pollErrors := None, None, None, 0, map[];
    }

    /** Calling start() again is a no-op. */
    method Start(jitter: real)
      modifies this
      ensures View() == old(View()).(phase := if old(phase).NotStarted?
                                              then Sleeping(jitter * cfg.intervalMs * JITTER_FRACTION) else old(phase))
    {
      if !phase.NotStarted? {
        return;
      }
      phase := Sleeping(jitter * cfg.intervalMs * JITTER_FRACTION);
    }

    method Stop()
      modifies this
      ensures View() == old(View()).(aborted := true)
    {
      aborted := true;
    }

    /** The loop head: begins a cycle, or leaves. */
    method WakeUp(now: real)
      requires phase.Sleeping?
      modifies this
      ensures View() == old(View()).(phase := if old(aborted) then Stopped else Fetching(now))
    {
      if aborted {
        phase := Stopped;
        return;
      }
      phase := Fetching(now);
    }

    function NextDelayMs(): (d: real)
      reads this
      ensures d == NextDelay(cfg, consecutiveFailures)
    {
      if consecutiveFailures == 0 then cfg.intervalMs
      else Min(cfg.intervalMs * Pow2(consecutiveFailures), cfg.maxBackoffMs)
    }

    /** The rest of a cycle whose fetchSnapshot() resolved. */
    method FetchResolvedWith(snapshots: seq<S>, now: real)
      requires phase.Fetching?
      modifies this, tracker
      ensures View() == old(OnResolved(View(), snapshots, now, cfg))
    {
      if aborted {
        phase := Stopped;
        return;
      }
      var parseErrorsThisCycle := tracker.ConsumeSinceLastCycle();
      if |snapshots| == 0 && parseErrorsThisCycle > 0 {
        RecordFailure(Parse);
        return;
      }
      cache := Some(Entry(snapshots, now));
      up := Some(true);
      devices := Some(|snapshots|);
      consecutiveFailures := 0;
      pollTotal := pollTotal + 1;
      phase := Sleeping(NextDelayMs());
    }

    /** The catch block of a cycle. */
    method FetchRejectedWith(reason: RaisedReason)
      requires phase.Fetching?
      modifies this
      ensures View() == old(OnRejected(View(), reason, cfg))
    {
      if aborted {
        phase := Stopped;
        return;
      }
      RecordFailure(BoundedReason(reason));
    }

    method RecordFailure(reason: Reason)
      requires !aborted
      modifies this
      ensures View() == old(Fail(View(), reason, cfg))
    {
      up := Some(false);
      var count := if reason in pollErrors then pollErrors[reason] else 0;
      pollErrors := pollErrors[reason := count + 1];
      consecutiveFailures := consecutiveFailures + 1;
      pollTotal := pollTotal + 1;
      phase := Sleeping(NextDelayMs());
    }
  }
}
