/**
 * The consistent identifier sanitizer: every UUID-shaped substring becomes a
 * placeholder numbered by first appearance, case ignored, for the lifetime of
 * one instance. Keys are kept in insertion order, so a key's number is its
 * position.
 */
module Sanitizer {
  import opened Digits
  import opened FirstSeen
  import opened Prelude

  datatype CharClass = Hex | Hyphen | Other

  function ClassOf(c: char): CharClass
  {
    if '0' <= c <= '9' || 'a' <= c <= 'f' || 'A' <= c <= 'F' then Hex else if c == '-' then Hyphen else Other
  }

  const UUID_LENGTH: nat := 36

  /** The class the UUID pattern asks for at its k-th position. */
  function PatternAt(k: nat): CharClass { if k == 8 || k == 13 || k == 18 || k == 23 then Hyphen else Hex }

  predicate MatchesAt(s: string, i: nat)
  {
    i + UUID_LENGTH <= |s| && forall k :: 0 <= k < UUID_LENGTH ==> ClassOf(s[i + k]) == PatternAt(k)
  }

  function LowerChar(c: char): char { if 'A' <= c <= 'Z' then (c as int + 32) as char else c }

  function Lower(s: string): (l: string)
    ensures |l| == |s|
  {
    seq(|s|, i requires 0 <= i < |s| => LowerChar(s[i]))
  }

  /** The same letter, digit or hyphen, in upper or lower case. */
  predicate SameButForCase(a: char, b: char)
  {
    || a == b
    || ('A' <= a <= 'Z' && b as int == a as int + 32)
    || ('A' <= b <= 'Z' && a as int == b as int + 32)
  }

  /** Keys are equal exactly for strings that are, up to the case of their letters. */
  lemma KeysIgnoreCase(a: string, b: string)
    ensures Lower(a) == Lower(b) <==> |a| == |b| && forall k :: 0 <= k < |a| ==> SameButForCase(a[k], b[k])
  {
    if Lower(a) == Lower(b) {
      assert |a| == |Lower(a)| == |Lower(b)| == |b|;
      forall k | 0 <= k < |a| ensures SameButForCase(a[k], b[k]) {
        assert Lower(a)[k] == Lower(b)[k];
      }
    }
  }

  // ------------------------------------------------------------ placeholders

  /** n in hexadecimal, padded with zeros to `width` digits. */
  function HexPadded(n: nat, width: nat): (s: string)
    ensures |s| >= width
    ensures forall i :: 0 <= i < |s| ==> ClassOf(s[i]) == Hex
    decreases n + width
  {
    if n == 0 && width == 0 then ""
    else HexPadded(n / 16, if width == 0 then 0 else width - 1) + [HexDigit(n % 16)]
  }

  function HexValue(s: string): nat
  {
    if s == "" then 0 else HexValue(s[..|s| - 1]) * 16 + HexDigitValue(s[|s| - 1])
  }

  function Pow16(n: nat): nat { if n == 0 then 1 else 16 * Pow16(n - 1) }

  /** Padded digits read back as the number, and are as many as asked exactly when the number fits. */
  lemma {:induction false} HexRoundTrip(n: nat, width: nat)
    ensures HexValue(HexPadded(n, width)) == n
    ensures |HexPadded(n, width)| == width <==> n < Pow16(width)
    decreases n + width
  {
    if n > 0 || width > 0 {
      var w := if width == 0 then 0 else width - 1;
      HexRoundTrip(n / 16, w);
      var s := HexPadded(n, width);
      assert s[..|s| - 1] == HexPadded(n / 16, w);
    }
  }

  const PREFIX: string := "00000000-0000-4000-8000-"

  function PlaceholderUuid(index: nat): string { PREFIX + HexPadded(index, 12) }

  lemma PlaceholdersAreDistinct(i: nat, j: nat)
    ensures PlaceholderUuid(i) == PlaceholderUuid(j) <==> i == j
  {
    HexRoundTrip(i, 12);
    HexRoundTrip(j, 12);
    assert PlaceholderUuid(i)[|PREFIX|..] == HexPadded(i, 12);
    assert PlaceholderUuid(j)[|PREFIX|..] == HexPadded(j, 12);
  }

  /** A placeholder is itself UUID-shaped exactly while its number has 12 hexadecimal digits. */
  lemma PlaceholderShape(i: nat)
    ensures |PlaceholderUuid(i)| == UUID_LENGTH <==> i < Pow16(12)
    ensures i < Pow16(12) ==> MatchesAt(PlaceholderUuid(i), 0)
    ensures "00000000-0000-4000-8000-" <= PlaceholderUuid(i)
  {
    HexRoundTrip(i, 12);
    var s := PlaceholderUuid(i);
    if i < Pow16(12) {
      forall k | 0 <= k < UUID_LENGTH ensures ClassOf(s[0 + k]) == PatternAt(k) {
        if k >= 24 {
          assert s[k] == HexPadded(i, 12)[k - 24];
        }
      }
    }
  }

  // ------------------------------------------------------------------- table

  function Lookup(keys: seq<string>, key: string): string
    requires key in keys
  {
    PlaceholderUuid(Index(keys, key) + 1)
  }

  lemma LookupGrows(keys: seq<string>, more: seq<string>, key: string)
    requires keys <= more && key in keys
    ensures key in more && Lookup(more, key) == Lookup(keys, key)
  {
    IndexIsKept(keys, more, key);
  }

  /** The map the keys stand for. */
  function Table(keys: seq<string>): map<string, string> { map k | k in keys :: Lookup(keys, k) }

  /** A new key gets the next number and leaves the others alone. */
  lemma TableOfNewKey(keys: seq<string>, key: string)
    requires key !in keys
    ensures Table(keys + [key]) == Table(keys)[key := PlaceholderUuid(|keys| + 1)]
  {
    IndexOfNewKey(keys, key);
    assert Lookup(keys + [key], key) == PlaceholderUuid(|keys| + 1);
    forall k | k in keys ensures k in keys + [key] && Lookup(keys + [key], k) == Lookup(keys, k) {
      LookupGrows(keys, keys + [key], k);
    }
    assert Members(keys + [key]) == Members(keys) + {key};
  }

  lemma TableSize(keys: seq<string>)
    requires Distinct(keys)
    ensures |Table(keys)| == |keys|
  {
    DistinctSize(keys);
    assert Table(keys).Keys == Members(keys);
  }

  lemma LookupIsInjective(keys: seq<string>, a: string, b: string)
    requires a in keys && b in keys
    ensures Lookup(keys, a) == Lookup(keys, b) <==> a == b
  {
    PlaceholdersAreDistinct(Index(keys, a) + 1, Index(keys, b) + 1);
  }

  // ------------------------------------------------------------------- sweep

  function Key(s: string, i: nat): string
    requires i + UUID_LENGTH <= |s|
  {
    Lower(s[i..i + UUID_LENGTH])
  }

  /** The global replace from position i on: leftmost matches, not overlapping. */
  function Sweep(s: string, i: nat, keys: seq<string>): (string, seq<string>)
    decreases |s| - i
  {
    if i >= |s| then ("", keys)
    else if MatchesAt(s, i) then
      var keys' := Add(keys, Key(s, i));
      var (rest, final) := Sweep(s, i + UUID_LENGTH, keys');
      (Lookup(keys', Key(s, i)) + rest, final)
    else
      var (rest, final) := Sweep(s, i + 1, keys);
      ([s[i]] + rest, final)
  }

  /** Whether the scan that starts at i finds a match at p. */
  predicate IsStart(s: string, i: nat, p: nat)
    decreases |s| - i
  {
    i < |s| && (if MatchesAt(s, i) then p == i || IsStart(s, i + UUID_LENGTH, p) else IsStart(s, i + 1, p))
  }

  ghost predicate Covered(s: string, i: nat, k: nat) { exists p: nat :: IsStart(s, i, p) && p <= k < p + UUID_LENGTH }

  lemma {:induction false} StartsMatch(s: string, i: nat, p: nat)
    requires IsStart(s, i, p)
    ensures i <= p && MatchesAt(s, p)
    decreases |s| - i
  {
    if MatchesAt(s, i) {
      if p != i {
        StartsMatch(s, i + UUID_LENGTH, p);
      }
    } else {
      StartsMatch(s, i + 1, p);
    }
  }

  /** `out` is s from position i on with each match replaced by what the table has for its key and nothing else touched. */
  ghost predicate Replaced(s: string, i: nat, out: string, table: map<string, string>)
  {
    && |out| + i == |s|
    && (forall k :: i <= k < |s| ==> ClassOf(out[k - i]) == ClassOf(s[k]))
    && (forall k :: i <= k < |s| && !Covered(s, i, k) ==> out[k - i] == s[k])
    && (forall p: nat :: IsStart(s, i, p) ==> TokenAt(s, i, out, table, p))
  }

  predicate TokenAt(s: string, i: nat, out: string, table: map<string, string>, p: nat)
  {
    && i <= p && p + UUID_LENGTH <= |s| && p - i + UUID_LENGTH <= |out|
    && Key(s, p) in table
    && out[p - i..p - i + UUID_LENGTH] == table[Key(s, p)]
  }

  lemma {:induction false} SweepGrows(s: string, i: nat, keys: seq<string>)
    ensures keys <= Sweep(s, i, keys).1
    ensures Distinct(keys) ==> Distinct(Sweep(s, i, keys).1)
    decreases |s| - i
  {
    if i < |s| {
      if MatchesAt(s, i) {
        SweepGrows(s, i + UUID_LENGTH, Add(keys, Key(s, i)));
      } else {
        SweepGrows(s, i + 1, keys);
      }
    }
  }

  lemma {:induction false} SweepReplaces(s: string, i: nat, keys: seq<string>)
    requires i <= |s| && |Sweep(s, i, keys).1| < Pow16(12)
    ensures Replaced(s, i, Sweep(s, i, keys).0, Table(Sweep(s, i, keys).1))
    decreases |s| - i
  {
    if i < |s| {
      if MatchesAt(s, i) {
        SweepReplaces(s, i + UUID_LENGTH, Add(keys, Key(s, i)));
        MatchStep(s, i, keys);
      } else {
        SweepReplaces(s, i + 1, keys);
        CopyStep(s, i, keys);
      }
    }
  }

  lemma CopyStep(s: string, i: nat, keys: seq<string>)
    requires i < |s| && !MatchesAt(s, i)
    requires Replaced(s, i + 1, Sweep(s, i + 1, keys).0, Table(Sweep(s, i + 1, keys).1))
    ensures Replaced(s, i, Sweep(s, i, keys).0, Table(Sweep(s, i, keys).1))
  {
    var (rest, final) := Sweep(s, i + 1, keys);
    Prepend(s, i, i + 1, [s[i]], rest, Table(final));
  }

  lemma MatchStep(s: string, i: nat, keys: seq<string>)
    requires MatchesAt(s, i) && |Sweep(s, i, keys).1| < Pow16(12)
    requires var keys' := Add(keys, Key(s, i));
             Replaced(s, i + UUID_LENGTH, Sweep(s, i + UUID_LENGTH, keys').0, Table(Sweep(s, i + UUID_LENGTH, keys').1))
    ensures Replaced(s, i, Sweep(s, i, keys).0, Table(Sweep(s, i, keys).1))
  {
    var keys' := Add(keys, Key(s, i));
    var (rest, final) := Sweep(s, i + UUID_LENGTH, keys');
    SweepGrows(s, i + UUID_LENGTH, keys');
    LookupGrows(keys', final, Key(s, i));
    LookupFitsTheMatch(s, i, final);
    Prepend(s, i, i + UUID_LENGTH, Table(final)[Key(s, i)], rest, Table(final));
  }

  /** The placeholder has the classes of the match it replaces. */
  lemma LookupFitsTheMatch(s: string, i: nat, keys: seq<string>)
    requires MatchesAt(s, i) && Key(s, i) in keys && |keys| < Pow16(12)
    ensures var token := Lookup(keys, Key(s, i));
            |token| == UUID_LENGTH && forall k :: i <= k < i + UUID_LENGTH ==> ClassOf(token[k - i]) == ClassOf(s[k])
  {
    var token := Lookup(keys, Key(s, i));
    PlaceholderShape(Index(keys, Key(s, i)) + 1);
    forall k | i <= k < i + UUID_LENGTH ensures ClassOf(token[k - i]) == ClassOf(s[k]) {
      assert ClassOf(token[0 + (k - i)]) == PatternAt(k - i);
      assert ClassOf(s[i + (k - i)]) == PatternAt(k - i);
    }
  }

  /** One step of the sweep: `head` is a copied character or the placeholder of a match at i. */
  lemma Prepend(s: string, i: nat, next: nat, head: string, rest: string, table: map<string, string>)
    requires i < next <= |s| && |head| == next - i && Replaced(s, next, rest, table)
    requires next == i + if MatchesAt(s, i) then UUID_LENGTH else 1
    requires forall k :: i <= k < next ==> ClassOf(head[k - i]) == ClassOf(s[k])
    requires if MatchesAt(s, i) then Key(s, i) in table && head == table[Key(s, i)] else head[0] == s[i]
    ensures Replaced(s, i, head + rest, table)
  {
    var out := head + rest;
    forall k | i <= k < |s| ensures ClassOf(out[k - i]) == ClassOf(s[k]) {
      assert out[k - i] == if k < next then head[k - i] else rest[k - next];
    }
    forall k | i <= k < |s| && !Covered(s, i, k) ensures out[k - i] == s[k] {
      UncoveredLater(s, i, next, k);
      assert out[k - i] == if k < next then head[k - i] else rest[k - next];
    }
    forall p: nat | IsStart(s, i, p) ensures TokenAt(s, i, out, table, p) {
      TokenStep(s, i, next, head, rest, table, p);
    }
  }

  lemma TokenStep(s: string, i: nat, next: nat, head: string, rest: string, table: map<string, string>, p: nat)
    requires i < next <= |s| && |head| == next - i && |rest| == |s| - next
    requires next == i + (if MatchesAt(s, i) then UUID_LENGTH else 1) && IsStart(s, i, p)
    requires IsStart(s, next, p) ==> TokenAt(s, next, rest, table, p)
    requires MatchesAt(s, i) ==> Key(s, i) in table && head == table[Key(s, i)]
    ensures TokenAt(s, i, head + rest, table, p)
  {
    var out := head + rest;
    if p == i && MatchesAt(s, i) {
      assert out[0..UUID_LENGTH] == head;
    } else {
      assert TokenAt(s, next, rest, table, p);
      AfterTheHead(head, rest, p - next, p - next + UUID_LENGTH);
    }
  }

  lemma AfterTheHead(head: string, rest: string, from: nat, to: nat)
    requires from <= to <= |rest|
    ensures (head + rest)[|head| + from..|head| + to] == rest[from..to]
  {
  }

  lemma UncoveredLater(s: string, i: nat, next: nat, k: nat)
    requires i < |s| && next == i + (if MatchesAt(s, i) then UUID_LENGTH else 1) && i <= k && !Covered(s, i, k)
    ensures !Covered(s, next, k)
    ensures MatchesAt(s, i) ==> k >= next
  {
    if Covered(s, next, k) {
      var p: nat :| IsStart(s, next, p) && p <= k < p + UUID_LENGTH;
      assert IsStart(s, i, p);
    }
    if MatchesAt(s, i) {
      assert IsStart(s, i, i);
    }
  }

  /** Matching looks at character classes only. */
  lemma {:induction false} SameClassesSameStarts(s: string, t: string, i: nat, p: nat)
    requires |s| == |t| && forall k :: 0 <= k < |s| ==> ClassOf(s[k]) == ClassOf(t[k])
    ensures IsStart(s, i, p) <==> IsStart(t, i, p)
    decreases |s| - i
  {
    if i < |s| {
      assert MatchesAt(s, i) <==> MatchesAt(t, i);
      if MatchesAt(s, i) {
        SameClassesSameStarts(s, t, i + UUID_LENGTH, p);
      } else {
        SameClassesSameStarts(s, t, i + 1, p);
      }
    }
  }

  /** One of the first `count` placeholders. */
  ghost predicate HandedOut(token: string, count: nat) { exists n: nat :: 1 <= n <= count && token == PlaceholderUuid(n) }

  lemma LookupIsHandedOut(keys: seq<string>, key: string)
    requires key in keys
    ensures HandedOut(Lookup(keys, key), |keys|)
  {
    var n := Index(keys, key) + 1;
    assert Lookup(keys, key) == PlaceholderUuid(n);
  }

  /** Rescanning the output finds matches at the same positions, and every one is a placeholder this instance handed out. */
  lemma RescanFindsOnlyPlaceholders(s: string, keys: seq<string>, p: nat)
    requires |Sweep(s, 0, keys).1| < Pow16(12)
    ensures var (out, final) := Sweep(s, 0, keys);
            && (IsStart(out, 0, p) <==> IsStart(s, 0, p))
            && (IsStart(out, 0, p) ==> p + UUID_LENGTH <= |out| && HandedOut(out[p..p + UUID_LENGTH], |final|))
  {
    SweepReplaces(s, 0, keys);
    var (out, final) := Sweep(s, 0, keys);
    SameClassesSameStarts(s, out, 0, p);
    if IsStart(s, 0, p) {
      var key := Key(s, p);
      assert TokenAt(s, 0, out, Table(final), p);
      LookupIsHandedOut(final, key);
      assert out[p - 0..p - 0 + UUID_LENGTH] == out[p..p + UUID_LENGTH];
    }
  }

  // ------------------------------------------------- any sequence of strings

  /** One instance sanitizing several strings in a row. */
  function SweepAll(inputs: seq<string>, keys: seq<string>): (r: (seq<string>, seq<string>))
    ensures |r.0| == |inputs|
    decreases |inputs|
  {
    if inputs == [] then ([], keys)
    else
      var (outs, mid) := SweepAll(inputs[..|inputs| - 1], keys);
      var (out, final) := Sweep(inputs[|inputs| - 1], 0, mid);
      (outs + [out], final)
  }

  lemma {:induction false} EveryMatchIsLookedUp(inputs: seq<string>, keys: seq<string>, i: nat, p: nat)
    requires |SweepAll(inputs, keys).1| < Pow16(12) && i < |inputs| && IsStart(inputs[i], 0, p)
    ensures TokenAt(inputs[i], 0, SweepAll(inputs, keys).0[i], Table(SweepAll(inputs, keys).1), p)
    decreases |inputs|
  {
    var n := |inputs| - 1;
    var (outs, mid) := SweepAll(inputs[..n], keys);
    var (out, final) := Sweep(inputs[n], 0, mid);
    SweepGrows(inputs[n], 0, mid);
    if i == n {
      SweepReplaces(inputs[n], 0, mid);
    } else {
      EveryMatchIsLookedUp(inputs[..n], keys, i, p);
      LookupGrows(mid, final, Key(inputs[i], p));
    }
  }

  /**
   * Across any sequence of strings given to one instance, two UUIDs get the
   * same placeholder exactly when they are equal up to case.
   */
  lemma ConsistentAcrossCalls(inputs: seq<string>, i: nat, p: nat, j: nat, q: nat)
    requires |SweepAll(inputs, []).1| < Pow16(12)
    requires i < |inputs| && j < |inputs| && IsStart(inputs[i], 0, p) && IsStart(inputs[j], 0, q)
    ensures p + UUID_LENGTH <= |inputs[i]| == |SweepAll(inputs, []).0[i]|
    ensures q + UUID_LENGTH <= |inputs[j]| == |SweepAll(inputs, []).0[j]|
    ensures var outs := SweepAll(inputs, []).0;
            outs[i][p..p + UUID_LENGTH] == outs[j][q..q + UUID_LENGTH]
            <==> Lower(inputs[i][p..p + UUID_LENGTH]) == Lower(inputs[j][q..q + UUID_LENGTH])
  {
    LengthsKept(inputs, [], i);
    LengthsKept(inputs, [], j);
    EveryMatchIsLookedUp(inputs, [], i, p);
    EveryMatchIsLookedUp(inputs, [], j, q);
    var (outs, final) := SweepAll(inputs, []);
    LookupIsInjective(final, Key(inputs[i], p), Key(inputs[j], q));
    assert outs[i][p - 0..p - 0 + UUID_LENGTH] == outs[i][p..p + UUID_LENGTH];
    assert outs[j][q - 0..q - 0 + UUID_LENGTH] == outs[j][q..q + UUID_LENGTH];
  }

  lemma {:induction false} LengthsKept(inputs: seq<string>, keys: seq<string>, i: nat)
    requires |SweepAll(inputs, keys).1| < Pow16(12) && i < |inputs|
    ensures |SweepAll(inputs, keys).0[i]| == |inputs[i]|
    decreases |inputs|
  {
    var n := |inputs| - 1;
    var mid := SweepAll(inputs[..n], keys).1;
    SweepGrows(inputs[n], 0, mid);
    if i == n {
      SweepReplaces(inputs[n], 0, mid);
    } else {
      LengthsKept(inputs[..n], keys, i);
    }
  }

  // -------------------------------------------------------- IPv4 placeholders

  function PlaceholderIpv4(index: nat): string { "203.0.113." + Decimal(index % 254) }

  /** IPv4 placeholders repeat: two numbers share one exactly when they differ by a multiple of 254. */
  lemma Ipv4PlaceholdersRepeatIff(i: nat, j: nat)
    ensures PlaceholderIpv4(i) == PlaceholderIpv4(j) <==> i % 254 == j % 254
    ensures 1 <= i <= 254 && 1 <= j <= 254 ==> (PlaceholderIpv4(i) == PlaceholderIpv4(j) <==> i == j)
    ensures PlaceholderIpv4(255) == PlaceholderIpv4(1)
  {
    DecimalRoundTrip(i % 254);
    DecimalRoundTrip(j % 254);
    assert PlaceholderIpv4(i)[10..] == Decimal(i % 254) && PlaceholderIpv4(j)[10..] == Decimal(j % 254);
  }

  // ------------------------------------------------------- the loop, step by step

  type Swept = (string, seq<string>)

  /** `result` followed by the sweep of what is left is the whole sweep. */
  predicate Continues(whole: Swept, s: string, i: nat, keys: seq<string>, result: string)
  {
    whole == (result + Sweep(s, i, keys).0, Sweep(s, i, keys).1)
  }

  lemma SweepStarts(s: string, keys: seq<string>)
    ensures Continues(Sweep(s, 0, keys), s, 0, keys, "")
  {
    var out := Sweep(s, 0, keys).0;
    assert "" + out == out;
  }

  lemma SweepOfMatch(s: string, i: nat, keys: seq<string>)
    requires MatchesAt(s, i)
    ensures var keys' := Add(keys, Key(s, i)); var (rest, final) := Sweep(s, i + UUID_LENGTH, keys');
            Sweep(s, i, keys) == (Lookup(keys', Key(s, i)) + rest, final)
  {
  }

  lemma SweepMatches(whole: Swept, s: string, i: nat, keys: seq<string>, result: string)
    requires Continues(whole, s, i, keys, result) && MatchesAt(s, i)
    ensures var keys' := Add(keys, Key(s, i));
            Continues(whole, s, i + UUID_LENGTH, keys', result + Lookup(keys', Key(s, i)))
  {
    SweepOfMatch(s, i, keys);
    var keys' := Add(keys, Key(s, i));
    Regroup(result, Lookup(keys', Key(s, i)), Sweep(s, i + UUID_LENGTH, keys').0);
  }

  lemma SweepCopies(whole: Swept, s: string, i: nat, keys: seq<string>, result: string)
    requires i < |s| && Continues(whole, s, i, keys, result) && !MatchesAt(s, i)
    ensures Continues(whole, s, i + 1, keys, result + [s[i]])
  {
    Regroup(result, [s[i]], Sweep(s, i + 1, keys).0);
  }

  lemma SweepEnds(whole: Swept, s: string, i: nat, keys: seq<string>, result: string)
    requires i >= |s| && Continues(whole, s, i, keys, result)
    ensures whole == (result, keys)
  {
    assert result + "" == result;
  }

  // ------------------------------------------------------------------ object

  class Sanitizer {
    var uuidMap: map<string, string>
    /** The keys of uuidMap in insertion order. */
    ghost var keys: seq<string>

    ghost predicate Valid()
      reads this
    {
      Distinct(keys) && uuidMap == Table(keys)
    }

    constructor ()
      ensures Valid() && keys == []
    {
      uuidMap, keys := map[], [];
    }

    method PlaceholderFor(match_: string) returns (placeholder: string)
      requires Valid()
      modifies this
      ensures Valid() && keys == old(Add(keys, Lower(match_)))
      ensures placeholder == Table(keys)[Lower(match_)]
    {
      var lower := Lower(match_);
      if lower in uuidMap {
        return uuidMap[lower];
      }
      TableSize(keys);
      TableOfNewKey(keys, lower);
      placeholder := PlaceholderUuid(|uuidMap| + 1);
      uuidMap := uuidMap[lower := placeholder];
      keys := keys + [lower];
    }

    /** The UUID pass over one string. */
    method SanitizeUuids(input: string) returns (result: string)
      requires Valid()
      modifies this
      ensures Valid() && (result, keys) == old(Sweep(input, 0, keys))
    {
      result := "";
      var i := 0;
      ghost var whole := Sweep(input, 0, keys);
      SweepStarts(input, keys);
      while i < |input|
        invariant Valid() && i <= |input|
        invariant Continues(whole, input, i, keys, result)
        decreases |input| - i
      {
        if MatchesAt(input, i) {
          ghost var before := keys;
          var placeholder := PlaceholderFor(input[i..i + UUID_LENGTH]);
          SweepMatches(whole, input, i, before, result);
          result := result + placeholder;
          i := i + UUID_LENGTH;
        } else {
          SweepCopies(whole, input, i, keys, result);
          result := result + [input[i]];
          i := i + 1;
        }
      }
      SweepEnds(whole, input, i, keys, result);
    }
  }
}
