/**
 * The rolling-window request budget. Every acquire() is a loop whose
 * iterations interleave with those of all other callers; one iteration, from
 * reading the clock to the next sleep, is one step. The specification looks at
 * every admission ever made, not at the pruned list the guard keeps.
 */
module Budget {
  import opened Prelude
  import opened Windows

  /** The admissions of the trailing window that ends at `now`, in the order they were made. */
  function Trailing(admissions: seq<real>, now: real, window: real): seq<real>
  {
    if admissions == [] then []
    else if now - admissions[0] >= window then Trailing(admissions[1..], now, window)
    else admissions
  }

  /** Dropping old instants from the front is all the pruning a sorted log needs. */
  lemma {:induction false} TrailingIsTheWindow(admissions: seq<real>, now: real, window: real)
    requires Sorted(admissions)
    ensures var kept := Trailing(admissions, now, window);
            && |kept| <= |admissions|
            && kept == admissions[|admissions| - |kept|..]
            && (forall i :: 0 <= i < |admissions| ==> (now - admissions[i] < window <==> i >= |admissions| - |kept|))
  {
    if admissions != [] && now - admissions[0] >= window {
      var rest := admissions[1..];
      TrailingIsTheWindow(rest, now, window);
      forall i | 0 < i < |admissions|
        ensures now - admissions[i] < window <==> i >= |admissions| - |Trailing(admissions, now, window)|
      {
        assert admissions[i] == rest[i - 1];
      }
    }
  }

  /** Pruning again later is the same as pruning once. */
  lemma {:induction false} TrailingTwice(admissions: seq<real>, earlier: real, now: real, window: real)
    requires earlier <= now
    ensures Trailing(Trailing(admissions, earlier, window), now, window) == Trailing(admissions, now, window)
    decreases |admissions|
  {
    if admissions != [] && earlier - admissions[0] >= window {
      TrailingTwice(admissions[1..], earlier, now, window);
    }
  }

  lemma {:induction false} TrailingAppend(admissions: seq<real>, now: real, window: real)
    requires window > 0.0
    ensures Trailing(admissions + [now], now, window) == Trailing(admissions, now, window) + [now]
    decreases |admissions|
  {
    if admissions == [] {
      assert admissions + [now] == [now];
    } else {
      assert (admissions + [now])[1..] == admissions[1..] + [now];
      TrailingAppend(admissions[1..], now, window);
    }
  }

  /** The whole history after callers looked at the guard at the instants `tries`, in that order. */
  function History(tries: seq<real>, maxRequests: nat, window: real): (h: seq<real>)
    decreases |tries|
  {
    if tries == [] then []
    else
      var h := History(tries[..|tries| - 1], maxRequests, window);
      var now := tries[|tries| - 1];
      if |Trailing(h, now, window)| < maxRequests then h + [now] else h
  }

  lemma {:induction false} HistoryIsSorted(tries: seq<real>, maxRequests: nat, window: real)
    requires Sorted(tries)
    ensures var h := History(tries, maxRequests, window);
            Sorted(h) && forall i :: 0 <= i < |h| ==> tries != [] && h[i] <= tries[|tries| - 1]
    decreases |tries|
  {
    if tries != [] {
      HistoryIsSorted(tries[..|tries| - 1], maxRequests, window);
    }
  }

  /** Any admission and the one `maxRequests` later are at least a window apart. */
  lemma {:induction false} AdmissionsAreSpread(tries: seq<real>, maxRequests: nat, window: real)
    requires Sorted(tries) && maxRequests > 0 && window > 0.0
    ensures Spread(History(tries, maxRequests, window), maxRequests, window)
    decreases |tries|
  {
    if tries != [] {
      var before, now := tries[..|tries| - 1], tries[|tries| - 1];
      AdmissionsAreSpread(before, maxRequests, window);
      HistoryIsSorted(before, maxRequests, window);
      TrailingIsTheWindow(History(before, maxRequests, window), now, window);
    }
  }

  /**
   * The budget: whatever number of callers tried at whatever instants of a
   * monotone clock, no half-open window ever holds more than `maxRequests`
   * admissions.
   */
  lemma BudgetHolds(tries: seq<real>, maxRequests: nat, window: real, from: real)
    requires Sorted(tries) && maxRequests > 0 && window > 0.0
    ensures |InWindow(History(tries, maxRequests, window), from, window)| <= maxRequests
  {
    AdmissionsAreSpread(tries, maxRequests, window);
    HistoryIsSorted(tries, maxRequests, window);
    SpreadBoundsEveryWindow(History(tries, maxRequests, window), maxRequests, window, from);
  }

  /** How many admissions a caller at `now` sees in the trailing window `(now - window, now]`. */
  ghost function Recent(h: seq<real>, now: real, window: real): set<int>
  {
    set i | 0 <= i < |h| && now - h[i] < window
  }

  lemma RecentIsTrailing(h: seq<real>, now: real, window: real)
    requires Sorted(h)
    ensures |Recent(h, now, window)| == |Trailing(h, now, window)|
  {
    TrailingIsTheWindow(h, now, window);
    var n := |Trailing(h, now, window)|;
    assert Recent(h, now, window) == Range(|h| - n, n);
  }

  /** And it defers nobody needlessly: a caller is admitted exactly when fewer than `maxRequests` admissions are that recent. */
  lemma AdmittedIffRoom(tries: seq<real>, now: real, maxRequests: nat, window: real)
    requires Sorted(tries + [now]) && maxRequests > 0 && window > 0.0
    ensures var h := History(tries, maxRequests, window);
            History(tries + [now], maxRequests, window) == if |Recent(h, now, window)| < maxRequests then h + [now] else h
  {
    assert (tries + [now])[..|tries|] == tries;
    forall i, j | 0 <= i <= j < |tries| ensures tries[i] <= tries[j] {
      assert tries[i] == (tries + [now])[i] && tries[j] == (tries + [now])[j];
    }
    HistoryIsSorted(tries, maxRequests, window);
    RecentIsTrailing(History(tries, maxRequests, window), now, window);
  }

  /** Whether a caller at `now` would be admitted. */
  ghost predicate HasRoom(h: seq<real>, now: real, maxRequests: nat, window: real) { |Recent(h, now, window)| < maxRequests }

  /** With the window full, the wait for its oldest admission is exactly the time until there is room. */
  lemma WaitIsExact(h: seq<real>, now: real, maxRequests: nat, window: real)
    requires Sorted(h) && window > 0.0 && Trailing(h, now, window) != []
    requires maxRequests == |Trailing(h, now, window)|
    ensures forall later :: now <= later ==>
              (HasRoom(h, later, maxRequests, window) <==> later >= now + (window - (now - Trailing(h, now, window)[0])))
  {
    TrailingIsTheWindow(h, now, window);
    assert Trailing(h, now, window)[0] == h[|h| - maxRequests];
    forall later | now <= later
      ensures HasRoom(h, later, maxRequests, window) <==> later >= now + (window - (now - h[|h| - maxRequests]))
    {
      RecentIsTrailing(h, later, window);
      TrailingIsTheWindow(h, later, window);
    }
  }

  lemma SortedOneMore(tries: seq<real>, now: real)
    requires Sorted(tries) && (tries != [] ==> tries[|tries| - 1] <= now)
    ensures Sorted(tries + [now])
  {
  }

  lemma HistoryOneMore(tries: seq<real>, now: real, maxRequests: nat, window: real)
    ensures var h := History(tries, maxRequests, window);
            History(tries + [now], maxRequests, window) == if |Trailing(h, now, window)| < maxRequests then h + [now] else h
  {
    assert (tries + [now])[..|tries|] == tries;
  }

  /** One more look at the guard: what it sees, and what the history becomes. */
  lemma OneMoreTry(tries: seq<real>, clock: real, now: real, maxRequests: nat, window: real)
    requires Sorted(tries) && (tries != [] ==> tries[|tries| - 1] <= clock) && clock <= now
    requires maxRequests > 0 && window > 0.0
    ensures Sorted(tries + [now]) && Sorted(History(tries, maxRequests, window))
    ensures var h := History(tries, maxRequests, window); var kept := Trailing(h, now, window);
            && Trailing(Trailing(h, clock, window), now, window) == kept
            && (HasRoom(h, now, maxRequests, window) <==> |kept| < maxRequests)
            && History(tries + [now], maxRequests, window) == (if |kept| < maxRequests then h + [now] else h)
            && Trailing(h + [now], now, window) == kept + [now]
  {
    var h := History(tries, maxRequests, window);
    HistoryIsSorted(tries, maxRequests, window);
    SortedOneMore(tries, now);
    HistoryOneMore(tries, now, maxRequests, window);
    RecentIsTrailing(h, now, window);
    TrailingTwice(h, clock, now, window);
    TrailingAppend(h, now, window);
  }

  /** The guard itself. */
  class BudgetGuard {
    const maxRequests: nat
    const windowMs: real
    var timestamps: seq<real>
    /** Every clock reading of every caller, and every admission ever made. */
    ghost var tries: seq<real>
    ghost var admissions: seq<real>
    ghost var clock: real

    /** The kept list is the trailing window, as of some moment, of all admissions. */
    ghost predicate Valid()
      reads this
    {
      && maxRequests >= 1 && windowMs > 0.0
      && Sorted(tries) && (tries != [] ==> tries[|tries| - 1] <= clock)
      && admissions == History(tries, maxRequests, windowMs)
      && timestamps == Trailing(admissions, clock, windowMs)
      && |timestamps| <= maxRequests
    }

    constructor (maxRequests: nat, windowMs: real, ghost now: real)
      requires maxRequests >= 1 && windowMs > 0.0
      ensures Valid() && this.maxRequests == maxRequests && this.windowMs == windowMs
      ensures tries == [] && clock == now
    {
      this.maxRequests, this.windowMs := maxRequests, windowMs;
      timestamps, tries, admissions, clock := [], [], [], now;
    }

    method PruneExpired(now: real)
      modifies this`timestamps
      ensures timestamps == Trailing(old(timestamps), now, windowMs) && |timestamps| <= |old(timestamps)|
    {
      while |timestamps| > 0 && now - timestamps[0] >= windowMs
        invariant Trailing(timestamps, now, windowMs) == Trailing(old(timestamps), now, windowMs)
        invariant |timestamps| <= |old(timestamps)|
        decreases |timestamps|
      {
        timestamps := timestamps[1..];
      }
    }

    /**
     * One iteration of an acquire loop: admits, or says how long to sleep. A
     * caller whose sleep completes is admitted on its next iteration if
     * nobody else was admitted meanwhile.
     */
    method Iterate(now: real) returns (sleepMs: Option<real>)
      requires Valid() && clock <= now
      modifies this
      ensures Valid() && clock == now && tries == old(tries) + [now]
      ensures sleepMs.None? <==> HasRoom(old(admissions), now, maxRequests, windowMs)
      ensures admissions == if sleepMs.None? then old(admissions) + [now] else old(admissions)
      ensures sleepMs.Some? ==> sleepMs.value >= 1.0
      ensures sleepMs.Some? ==> forall later :: later >= now + sleepMs.value ==> HasRoom(admissions, later, maxRequests, windowMs)
      ensures sleepMs.Some? && sleepMs.value > 1.0 ==>
                forall sooner :: now <= sooner < now + sleepMs.value ==> !HasRoom(admissions, sooner, maxRequests, windowMs)
    {
      OneMoreTry(tries, clock, now, maxRequests, windowMs);
      PruneExpired(now);
      tries, clock := tries + [now], now;
      if |timestamps| < maxRequests {
        timestamps := timestamps + [now];
        admissions := admissions + [now];
        return None;
      }
      var waitMs := windowMs - (now - timestamps[0]);
      sleepMs := Some(Max(waitMs, 1.0));
      WaitIsExact(admissions, now, maxRequests, windowMs);
    }
  }
}
