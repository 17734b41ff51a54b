/** Vocabulary shared by every component: optional values and failing results. */
module Prelude {

  datatype Option<+T> = None | Some(value: T)

  datatype Result<+T, +E> = Ok(value: T) | Err(error: E)

  function Max(a: real, b: real): real { if a >= b then a else b }

  function Min(a: real, b: real): real { if a <= b then a else b }

  lemma SubsetSize<T>(a: set<T>, b: set<T>)
    requires a <= b
    ensures |a| <= |b|
  {
    assert b == a + (b - a);
  }

  /** The k-th element moved to the front. */
  function ToFront<T>(s: seq<T>, k: nat): (t: seq<T>)
    requires k < |s|
    ensures |t| == |s|
  {
    [s[k]] + s[..k] + s[k + 1..]
  }

  lemma ToFrontIsAPermutation<T>(s: seq<T>, k: nat)
    requires k < |s|
    ensures multiset(ToFront(s, k)) == multiset(s)
  {
    assert s == s[..k] + [s[k]] + s[k + 1..];
  }

  lemma SameMembers<T>(a: seq<T>, b: seq<T>)
    requires multiset(a) == multiset(b)
    ensures forall x :: x in a <==> x in b
  {
    forall x ensures x in a <==> x in b {
      assert x in a <==> x in multiset(a);
      assert x in b <==> x in multiset(b);
    }
  }

  lemma TwoPlacesCountTwice<T>(s: seq<T>, i: nat, j: nat)
    requires i < j < |s| && s[i] == s[j]
    ensures multiset(s)[s[i]] >= 2
  {
    assert s == s[..j] + s[j..];
    assert s[..j][i] == s[i] && s[j..][0] == s[i];
    assert s[i] in multiset(s[..j]) && s[i] in multiset(s[j..]);
  }

  lemma CountedTwiceInTwoPlaces<T>(s: seq<T>, x: T) returns (i: nat, j: nat)
    requires multiset(s)[x] >= 2
    ensures i < j < |s| && s[i] == x && s[j] == x
  {
    assert x in multiset(s);
    var k :| 0 <= k < |s| && s[k] == x;
    assert s == s[..k] + [s[k]] + s[k + 1..];
    if x in multiset(s[..k]) {
      i :| 0 <= i < k && s[..k][i] == x;
      j := k;
    } else {
      assert x in multiset(s[k + 1..]);
      var m :| 0 <= m < |s| - k - 1 && s[k + 1..][m] == x;
      i, j := k, k + 1 + m;
    }
  }

  /** Two places of one sequence are two places of any permutation of it. */
  lemma TwoPlaces<T>(a: seq<T>, b: seq<T>, i: nat, j: nat) returns (p: nat, q: nat)
    requires multiset(a) == multiset(b) && i < |b| && j < |b| && i != j
    ensures p < |a| && q < |a| && p != q && a[p] == b[i] && a[q] == b[j]
  {
    SameMembers(a, b);
    assert b[i] in a && b[j] in a;
    if b[i] == b[j] {
      TwoPlacesCountTwice(b, if i < j then i else j, if i < j then j else i);
      p, q := CountedTwiceInTwoPlaces(a, b[i]);
    } else {
      p :| 0 <= p < |a| && a[p] == b[i];
      q :| 0 <= q < |a| && a[q] == b[j];
    }
  }

  lemma WithoutOne<T>(init: seq<T>, c: T, before: seq<T>, after: seq<T>)
    requires multiset(init + [c]) == multiset(before + [c] + after)
    ensures multiset(init) == multiset(before + after)
  {
    assert multiset(init) == multiset(init + [c]) - multiset{c};
    assert multiset(before + after) == multiset(before + [c] + after) - multiset{c};
  }

  lemma Regroup<T>(a: seq<T>, b: seq<T>, c: seq<T>)
    ensures (a + b) + c == a + (b + c)
  {
  }
}
