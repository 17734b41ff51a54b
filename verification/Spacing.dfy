/**
 * The minimum-spacing guard. wait() reserves its slot before it sleeps, so a
 * history is just the instants at which wait() was called, in call order; no
 * monotonicity of the clock is assumed.
 */
module Spacing {
  import opened Prelude
  import opened Windows

  const SCC_MIN_SPACING_MS: real := 30000.0

  /** The reserved release times of the calls made at `calls`. */
  function Releases(calls: seq<real>, gap: real): (r: seq<real>)
    ensures |r| == |calls|
    decreases |calls|
  {
    if calls == [] then []
    else
      var r := Releases(calls[..|calls| - 1], gap);
      var now := calls[|calls| - 1];
      r + [if r == [] then now else Max(r[|r| - 1] + gap, now)]
  }

  /** A schedule that serves the calls in order, none before it was made, `gap` apart. */
  ghost predicate Serves(q: seq<real>, calls: seq<real>, gap: real)
  {
    && |q| == |calls|
    && (forall i :: 0 <= i < |q| ==> q[i] >= calls[i])
    && (forall i, j :: 0 <= i && j == i + 1 && j < |q| ==> q[j] >= q[i] + gap)
  }

  lemma {:induction false} ReleasesServe(calls: seq<real>, gap: real)
    ensures Serves(Releases(calls, gap), calls, gap)
    decreases |calls|
  {
    if calls != [] {
      ReleasesServe(calls[..|calls| - 1], gap);
    }
  }

  /** No schedule that serves the calls releases any of them earlier. */
  lemma {:induction false} ReleasesAreEarliest(calls: seq<real>, gap: real, q: seq<real>)
    requires Serves(q, calls, gap)
    ensures forall i :: 0 <= i < |calls| ==> Releases(calls, gap)[i] <= q[i]
    decreases |calls|
  {
    if calls != [] {
      var n := |calls| - 1;
      ReleasesAreEarliest(calls[..n], gap, q[..n]);
      if n > 0 {
        assert Releases(calls[..n], gap)[n - 1] <= q[..n][n - 1];
      }
    }
  }

  /** Slots k places apart are at least k gaps apart. */
  lemma {:induction false} SlotsAreSpaced(calls: seq<real>, gap: real, i: nat, j: nat)
    requires i <= j < |calls| && gap >= 0.0
    ensures Releases(calls, gap)[j] - Releases(calls, gap)[i] >= (j - i) as real * gap
    decreases j - i
  {
    if i < j {
      SlotsAreSpaced(calls, gap, i, j - 1);
      ReleasesServe(calls, gap);
      assert (j - i) as real * gap == (j - 1 - i) as real * gap + gap;
    }
  }

  /** If n gaps cover a window, no half-open window of that length holds more than n reserved slots. */
  lemma SlotsPerWindow(calls: seq<real>, gap: real, n: nat, window: real, from: real)
    requires gap >= 0.0 && n > 0 && window > 0.0 && n as real * gap >= window
    ensures |InWindow(Releases(calls, gap), from, window)| <= n
  {
    var r := Releases(calls, gap);
    forall i, j | 0 <= i <= j < |r| ensures r[j] - r[i] >= (j - i) as real * gap {
      SlotsAreSpaced(calls, gap, i, j);
    }
    forall i, j | 0 <= i <= j < |r| ensures r[i] <= r[j] {
      assert r[j] - r[i] >= (j - i) as real * gap;
    }
    forall i, j | 0 <= i && i + n <= j < |r| ensures r[j] - r[i] >= window {
      assert r[j] - r[i] >= (j - i) as real * gap;
      assert (j - i) as real * gap >= n as real * gap;
    }
    SpreadBoundsEveryWindow(r, n, window, from);
  }

  /** All requests of one SCC adapter, retries included, reserve at most two slots in any half-open minute. */
  lemma TwoSccSlotsPerMinute(calls: seq<real>, from: real)
    ensures |InWindow(Releases(calls, SCC_MIN_SPACING_MS), from, 60000.0)| <= 2
  {
    SlotsPerWindow(calls, SCC_MIN_SPACING_MS, 2, 60000.0, from);
  }

  /** And no fewer than it may: of three calls at once the second waits half a minute and the third a whole one. */
  lemma ThirdSccCallWaitsAMinute(now: real)
    ensures Releases([now, now, now], SCC_MIN_SPACING_MS) == [now, now + 30000.0, now + 60000.0]
  {
    var calls := [now, now, now];
    assert calls[..2] == [now, now] && [now, now][..1] == [now] && [now][..0] == [];
    assert Releases([now], SCC_MIN_SPACING_MS) == [now];
    assert Releases([now, now], SCC_MIN_SPACING_MS) == [now, now + 30000.0];
  }

  class SpacingGuard {
    const minSpacingMs: real
    var nextReleaseAt: Option<real>
    ghost var calls: seq<real>

    ghost predicate Valid()
      reads this
    {
      && minSpacingMs >= 0.0
      && nextReleaseAt == if calls == [] then None
                          else Some(Releases(calls, minSpacingMs)[|calls| - 1] + minSpacingMs)
    }

    constructor (minSpacingMs: real)
      requires minSpacingMs >= 0.0
      ensures Valid() && this.minSpacingMs == minSpacingMs && calls == []
    {
      this.minSpacingMs := minSpacingMs;
      nextReleaseAt, calls := None, [];
    }

    /** Reserves the next slot and returns how long to sleep for it; nobody is deferred whose slot is now. */
    method Wait(now: real) returns (delay: real)
      requires Valid()
      modifies this
      ensures Valid() && calls == old(calls) + [now]
      ensures delay >= 0.0 && now + delay == Releases(calls, minSpacingMs)[|old(calls)|]
    {
      var releaseAt := if nextReleaseAt.Some? then Max(nextReleaseAt.value, now) else now;
      delay := releaseAt - now;
      nextReleaseAt := Some(releaseAt + minSpacingMs);
      assert (calls + [now])[..|calls|] == calls;
      calls := calls + [now];
    }
  }
}
