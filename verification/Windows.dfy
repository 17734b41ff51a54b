/** Counting instants in a sliding window. */
module Windows {
  import opened Prelude

  ghost predicate Sorted(log: seq<real>) { forall i, j :: 0 <= i <= j < |log| ==> log[i] <= log[j] }

  /** Any two instants `n` or more places apart are at least `window` apart. */
  ghost predicate Spread(log: seq<real>, n: nat, window: real)
  {
    forall i, j :: 0 <= i && i + n <= j < |log| ==> log[j] - log[i] >= window
  }

  /** The positions whose instant lies in the half-open window that starts at `from`. */
  ghost function InWindow(log: seq<real>, from: real, window: real): set<int>
  {
    set i | 0 <= i < |log| && from <= log[i] < from + window
  }

  ghost function Range(lo: int, n: nat): (r: set<int>)
    ensures forall i :: i in r <==> lo <= i < lo + n
    ensures |r| == n
  {
    if n == 0 then {} else Range(lo, n - 1) + {lo + n - 1}
  }

  /** A sorted log that is spread by `n` never has more than `n` instants in one window. */
  lemma {:induction false} SpreadBoundsEveryWindow(log: seq<real>, n: nat, window: real, from: real)
    requires n > 0 && window > 0.0 && Sorted(log) && Spread(log, n, window)
    ensures |InWindow(log, from, window)| <= n
  {
    var hits := InWindow(log, from, window);
    if hits != {} {
      var first := FirstHit(log, from, window, 0);
      assert hits <= Range(first, n);
      SubsetSize(hits, Range(first, n));
    }
  }

  lemma {:induction false} FirstHit(log: seq<real>, from: real, window: real, lo: nat) returns (first: int)
    requires lo <= |log| && InWindow(log, from, window) != {}
    requires forall i :: 0 <= i < lo ==> i !in InWindow(log, from, window)
    ensures first in InWindow(log, from, window)
    ensures forall i :: i in InWindow(log, from, window) ==> first <= i
    decreases |log| - lo
  {
    if lo in InWindow(log, from, window) {
      first := lo;
    } else if lo == |log| {
      assert false;
    } else {
      first := FirstHit(log, from, window, lo + 1);
    }
  }
}
