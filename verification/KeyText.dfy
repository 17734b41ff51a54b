/**
 * When text built from values with markers between them can be read in only
 * one way. A value that contains the marker before it or after it lets that
 * marker move; if none does, none can.
 */
module KeyText {
  import opened Prelude
  import opened SeriesKeys

  predicate PlacedAt(s: string, t: string, i: nat) { i + |t| <= |s| && s[i..i + |t|] == t }

  predicate Contains(s: string, t: string) { exists i: nat :: i <= |s| && PlacedAt(s, t, i) }

  lemma PlacedBetween(before: string, t: string, after: string)
    ensures PlacedAt(before + (t + after), t, |before|)
  {
  }

  lemma PlacedSplits(s: string, t: string, i: nat)
    requires PlacedAt(s, t, i)
    ensures s == s[..i] + (t + s[i + |t|..])
  {
  }

  // ------------------------------------------------------------------ markers

  /** What b would put over the end of a from place o on is what a has there. */
  predicate Agrees(a: string, b: string, o: nat) { forall k :: 0 <= k < |b| && o + k < |a| ==> a[o + k] == b[k] }

  /** None of these markers can begin inside another, or where another does. */
  ghost predicate Rigid(markers: set<string>)
  {
    && "" !in markers
    && forall a, b, o: nat :: a in markers && b in markers && o < |a| && Agrees(a, b, o) ==> o == 0 && a == b
  }

  /** How a label with this name begins when another precedes it. */
  function Marker(name: string): string { "," + name + "=" }

  lemma LabelMarkersAreRigid(markers: set<string>)
    requires forall m :: m in markers ==> exists n: LabelName :: m == Marker(n)
    ensures Rigid(markers)
  {
    forall a, b, o: nat | a in markers && b in markers && o < |a| && Agrees(a, b, o) ensures o == 0 && a == b {
      var m: LabelName :| a == Marker(m);
      var n: LabelName :| b == Marker(n);
      LabelMarkersAgree(m, n, o);
    }
  }

  lemma MarkerChars(n: LabelName)
    ensures var m := Marker(n);
            && |m| == |n| + 2 && m[0] == ',' && m[|n| + 1] == '=' && m[1..|n| + 1] == n
            && forall k :: 0 < k <= |n| ==> m[k] != ',' && m[k] != '='
  {
    assert Marker(n) == [','] + n + ['='];
  }

  lemma LabelMarkersAgree(m: LabelName, n: LabelName, o: nat)
    requires o < |Marker(m)| && Agrees(Marker(m), Marker(n), o)
    ensures o == 0 && m == n
  {
    var a, b := Marker(m), Marker(n);
    MarkerChars(m);
    MarkerChars(n);
    assert a[o + 0] == b[0];
    var k := (if |m| < |n| then |m| else |n|) + 1;
    assert a[0 + k] == b[k];
    assert a[1..|m| + 1] == b[1..|n| + 1];
  }

  /** What stands between two values when a label between them has one of a few words. */
  function Pair(first: string, word: string, second: string): string { Marker(first) + (word + Marker(second)) }

  lemma PairChars(first: LabelName, word: string, second: LabelName)
    requires IsName(word)
    ensures var m, f := Pair(first, word, second), Marker(first) + word;
            && |m| == |f| + |Marker(second)| && m[..|Marker(first)|] == Marker(first) && m[|f|..] == Marker(second)
            && m[|Marker(first)|..|f|] == word && forall k :: 0 < k < |m| && m[k] == ',' ==> k == |f|
  {
    MarkerChars(first);
    MarkerChars(second);
    var m, f, g := Pair(first, word, second), Marker(first) + word, Marker(second);
    Regroup(Marker(first), word, g);
    forall k | 0 < k < |m| && k != |f| ensures m[k] != ',' {
      assert m[k] == if k < |Marker(first)| then Marker(first)[k] else if k < |f| then word[k - |Marker(first)|] else g[k - |f|];
    }
  }

  /** If markers agree from some place on, so do what begins them there. */
  lemma BeginningsAgree(a: string, b: string, o: nat, p: string, q: string)
    requires Agrees(a, b, o) && o + |p| <= |a| && a[o..o + |p|] == p && |q| <= |b| && b[..|q|] == q
    ensures Agrees(p, q, 0)
  {
    forall k | 0 <= k < |q| && 0 + k < |p| ensures p[0 + k] == q[k] {
      assert a[o + k] == b[k];
    }
  }

  ghost predicate SimpleOrPair(names: set<LabelName>, first: LabelName, words: set<string>, second: LabelName, m: string)
  {
    (exists n :: n in names && m == Marker(n)) || (exists w :: w in words && m == Pair(first, w, second))
  }

  /** How such a marker begins: with that of a label other than the second of the pair. */
  lemma FirstLabelOf(names: set<LabelName>, first: LabelName, words: set<string>, second: LabelName, m: string)
    returns (n: LabelName)
    requires SimpleOrPair(names, first, words, second, m) && forall w :: w in words ==> IsName(w)
    ensures (n in names && m == Marker(n)) || (n == first && exists w :: w in words && m == Pair(first, w, second))
    ensures |Marker(n)| <= |m| && m[..|Marker(n)|] == Marker(n)
  {
    if w :| w in words && m == Pair(first, w, second) {
      n := first;
      PairChars(first, w, second);
    } else {
      n :| n in names && m == Marker(n);
    }
  }

  /** Markers of single labels and of such pairs are rigid together. */
  lemma PairsAreRigid(markers: set<string>, names: set<LabelName>, first: LabelName, words: set<string>, second: LabelName)
    requires first !in names && second !in names && first != second && forall w :: w in words ==> IsName(w)
    requires forall m :: m in markers ==> SimpleOrPair(names, first, words, second, m)
    ensures Rigid(markers)
  {
    forall a, b, o: nat | a in markers && b in markers && o < |a| && Agrees(a, b, o) ensures o == 0 && a == b {
      SimpleOrPairAgrees(names, first, words, second, a, b, o);
    }
    if "" in markers {
      var n := FirstLabelOf(names, first, words, second, "");
    }
  }

  lemma SimpleOrPairAgrees(names: set<LabelName>, first: LabelName, words: set<string>, second: LabelName,
                           a: string, b: string, o: nat)
    requires first !in names && second !in names && first != second && forall w :: w in words ==> IsName(w)
    requires SimpleOrPair(names, first, words, second, a) && SimpleOrPair(names, first, words, second, b)
    requires o < |a| && Agrees(a, b, o)
    ensures o == 0 && a == b
  {
    var m := FirstLabelOf(names, first, words, second, a);
    var n := FirstLabelOf(names, first, words, second, b);
    MarkerChars(m);
    MarkerChars(n);
    assert a[o + 0] == b[0] == ',';
    if a == Marker(m) {
      BeginningsAgree(a, b, o, Marker(m)[o..], Marker(n));
      assert o == 0;
      LabelMarkersAgree(m, n, 0);
    } else {
      var w :| w in words && a == Pair(first, w, second);
      PairBeginsAtItsFirst(first, w, second, b, n, o);
      BeginningsAgree(a, b, 0, Marker(m), Marker(n));
      LabelMarkersAgree(m, n, 0);
      var v :| v in words && b == Pair(first, v, second);
      PairsOfWordsAgree(first, w, v, second);
    }
  }

  lemma PairBeginsAtItsFirst(first: LabelName, w: string, second: LabelName, b: string, n: LabelName, o: nat)
    requires IsName(w) && |Marker(n)| <= |b| && b[..|Marker(n)|] == Marker(n) && n != second
    requires o < |Pair(first, w, second)| && Pair(first, w, second)[o] == ',' && Agrees(Pair(first, w, second), b, o)
    ensures o == 0
  {
    PairChars(first, w, second);
    SecondNeverAgrees(Pair(first, w, second), |Marker(first) + w|, second, b, n);
  }

  lemma SecondNeverAgrees(a: string, f: nat, second: LabelName, b: string, n: LabelName)
    requires f <= |a| && a[f..] == Marker(second) && |Marker(n)| <= |b| && b[..|Marker(n)|] == Marker(n) && n != second
    ensures !Agrees(a, b, f)
  {
    if Agrees(a, b, f) {
      BeginningsAgree(a, b, f, Marker(second), Marker(n));
      LabelMarkersAgree(second, n, 0);
    }
  }

  lemma PairsOfWordsAgree(first: LabelName, v: string, w: string, second: LabelName)
    requires IsName(v) && IsName(w) && Agrees(Pair(first, v, second), Pair(first, w, second), 0)
    ensures v == w
  {
    PairChars(first, v, second);
    PairChars(first, w, second);
    MarkerChars(second);
    var a, b, k := Pair(first, v, second), Pair(first, w, second), |Marker(first)| + if |v| < |w| then |v| else |w|;
    assert a[0 + k] == b[k];
    assert a[|Marker(first)| + |v|..][0] == ',' && b[|Marker(first)| + |w|..][0] == ',';
    assert |v| == |w|;
    forall i | 0 <= i < |v| ensures v[i] == w[i] {
      assert a[0 + (|Marker(first)| + i)] == b[|Marker(first)| + i];
      assert v[i] == a[|Marker(first)| + i] && w[i] == b[|Marker(first)| + i];
    }
  }

  /** Two markers of a text that both reach a common place do not cross. */
  lemma MarkersDoNotCross(markers: set<string>, text: string, a: string, i: nat, b: string, j: nat)
    requires Rigid(markers) && a in markers && b in markers
    requires PlacedAt(text, a, i) && PlacedAt(text, b, j) && i <= j
    ensures (i == j && a == b) || i + |a| <= j
  {
    if j < i + |a| {
      forall k | 0 <= k < |b| && (j - i) + k < |a| ensures a[(j - i) + k] == b[k] {
        assert text[i..i + |a|][(j - i) + k] == text[j..j + |b|][k];
      }
      assert Agrees(a, b, j - i);
    }
  }

  lemma LastPartsMatch(n: LabelName, x: string, a: string, y: string, b: string)
    requires Without(a, ',') && Without(b, ',') && x + (Marker(n) + a) == y + (Marker(n) + b)
    ensures x == y && a == b
  {
    var s := x + (Marker(n) + a);
    assert s[|x|] == ',' && s[|y|] == ',' by {
      MarkerChars(n);
      assert s[|x|] == (Marker(n) + a)[0] && s[|y|] == (Marker(n) + b)[0];
    }
    OnlyItsFirstComma(n, x, a);
    OnlyItsFirstComma(n, y, b);
    assert x == s[..|x|] && y == s[..|x|];
    assert a == s[|x| + |Marker(n)|..] && b == s[|x| + |Marker(n)|..];
  }

  lemma OnlyItsFirstComma(n: LabelName, x: string, a: string)
    requires Without(a, ',')
    ensures var s := x + (Marker(n) + a); forall i :: |x| < i < |s| ==> s[i] != ','
  {
    MarkerChars(n);
    var s, tail := x + (Marker(n) + a), Marker(n) + a;
    forall i | |x| < i < |s| ensures s[i] != ',' {
      var k := i - |x|;
      assert s[i] == tail[k];
      assert tail[k] == if k < |Marker(n)| then Marker(n)[k] else a[k - |Marker(n)|];
    }
  }

  // -------------------------------------------------------------------- lines

  /** Values with a marker between each two; `slot` holds those that may stand there. */
  datatype Line =
    | Last(value: string, mayBeEmpty: bool)
    | More(value: string, mayBeEmpty: bool, slot: set<string>, marker: string, rest: Line)

  function Text(l: Line): string
  {
    match l
    case Last(value, _) => value
    case More(value, _, _, marker, rest) => value + (marker + Text(rest))
  }

  function TextAfterValue(l: Line): string { if l.Last? then "" else l.marker + Text(l.rest) }

  /** Every marker stands where it may, and no value is empty that may not be. */
  ghost predicate Proper(markers: set<string>, l: Line)
  {
    && (l.value == "" ==> l.mayBeEmpty)
    && (l.More? ==> l.slot <= markers && l.marker in l.slot && Proper(markers, l.rest))
  }

  ghost predicate SameShape(l: Line, m: Line)
  {
    && l.mayBeEmpty == m.mayBeEmpty
    && (l.Last? <==> m.Last?)
    && (l.More? ==> l.slot == m.slot && SameShape(l.rest, m.rest))
  }

  /** The value could end where it holds the marker. */
  predicate EndsEarly(value: string, mayBeEmpty: bool, marker: string)
  {
    exists i: nat :: i <= |value| && PlacedAt(value, marker, i) && (i == 0 ==> mayBeEmpty)
  }

  /** The value could begin behind the place where it holds the marker. */
  predicate BeginsLate(value: string, mayBeEmpty: bool, marker: string)
  {
    exists i: nat :: i <= |value| && PlacedAt(value, marker, i) && (i + |marker| == |value| ==> mayBeEmpty)
  }

  ghost predicate NoneEndsEarly(l: Line, slot: set<string>) { forall m :: m in slot ==> !EndsEarly(l.value, l.mayBeEmpty, m) }

  ghost predicate NoneBeginsLate(l: Line, slot: set<string>) { forall m :: m in slot ==> !BeginsLate(l.value, l.mayBeEmpty, m) }

  /** No value holds a marker of a neighbouring slot where that could do for the slot's own. */
  ghost predicate Clear(l: Line)
  {
    l.More? ==> NoneEndsEarly(l, l.slot) && NoneBeginsLate(l.rest, l.slot) && Clear(l.rest)
  }

  /** A marker that moved to the right leaves, there or further on, a value that holds its own marker. */
  lemma {:induction false} MovedRight(markers: set<string>, slot: set<string>, a: string, x: Line,
                                      p: string, b: string, y: Line)
    requires Rigid(markers) && slot <= markers && a in slot && b in slot && p != ""
    requires Proper(markers, x) && Proper(markers, y) && SameShape(x, y)
    requires a + Text(x) == p + (b + Text(y))
    ensures !NoneBeginsLate(x, slot) || !Clear(x)
    decreases x, 1
  {
    var text := a + Text(x);
    assert PlacedAt(text, a, 0);
    PlacedBetween(p, b, Text(y));
    MarkersDoNotCross(markers, text, a, 0, b, |p|);
    AfterPrefix(a, Text(x), p, b + Text(y));
    LandedBehind(markers, slot, x, p[|a|..], b, y);
  }

  /** It lands in the value behind it, or behind that. */
  lemma {:induction false} LandedBehind(markers: set<string>, slot: set<string>, x: Line, q: string, b: string, y: Line)
    requires Rigid(markers) && slot <= markers && b in slot
    requires Proper(markers, x) && Proper(markers, y) && SameShape(x, y)
    requires Text(x) == q + (b + Text(y))
    ensures !NoneBeginsLate(x, slot) || !Clear(x)
    decreases x, 0
  {
    var v := x.value;
    assert |Text(x)| == |q| + |b| + |Text(y)|;
    PlacedBetween(q, b, Text(y));
    if |q| + |b| < |v| || (|q| + |b| == |v| && x.mayBeEmpty) {
      PlacedInside(Text(x), b, |q|, v);
      assert BeginsLate(v, x.mayBeEmpty, b);
    } else if |q| + |b| == |v| {
      AfterPrefix(v, TextAfterValue(x), q + b, Text(y));
      Regroup(q, b, Text(y));
      assert x.More? && TextAfterValue(x) == y.value + (y.marker + Text(y.rest));
      MovedRight(markers, x.slot, x.marker, x.rest, y.value, y.marker, y.rest);
    } else {
      assert x.More?;
      PlacedBetween(v, x.marker, Text(x.rest));
      if |q| < |v| {
        MarkersDoNotCross(markers, Text(x), b, |q|, x.marker, |v|);
      } else {
        LandedFurtherOn(x, q, b, y);
        MovedRight(markers, x.slot, x.marker, x.rest, q[|v|..] + b + y.value, y.marker, y.rest);
      }
    }
  }

  lemma LandedFurtherOn(x: Line, q: string, b: string, y: Line)
    requires x.More? && y.More? && Text(x) == q + (b + Text(y)) && |x.value| <= |q|
    ensures x.marker + Text(x.rest) == (q[|x.value|..] + b + y.value) + (y.marker + Text(y.rest))
  {
    var r := q[|x.value|..];
    AfterPrefix(x.value, x.marker + Text(x.rest), q, b + Text(y));
    Regroup(r, b, Text(y));
    Regroup(r + b, y.value, y.marker + Text(y.rest));
  }

  lemma AfterPrefix(a: string, x: string, p: string, y: string)
    requires a + x == p + y && |a| <= |p|
    ensures a == p[..|a|] && x == p[|a|..] + y
  {
    assert a == (a + x)[..|a|] == (p + y)[..|a|];
    assert x == (a + x)[|a|..] == (p + y)[|a|..];
  }

  /** What a text holds within its first value, that value holds. */
  lemma PlacedInside(text: string, t: string, i: nat, v: string)
    requires PlacedAt(text, t, i) && v <= text && i + |t| <= |v|
    ensures PlacedAt(v, t, i)
  {
    assert v[i..i + |t|] == text[i..i + |t|];
  }

  /** A clear line is the only line of its shape that reads as it does. */
  lemma {:induction false} ClearReadsBack(markers: set<string>, x: Line, y: Line)
    requires Rigid(markers) && Proper(markers, x) && Proper(markers, y) && SameShape(x, y)
    requires Text(x) == Text(y) && Clear(x)
    ensures x == y
    decreases x
  {
    if x.More? {
      var v, w, text := x.value, y.value, Text(x);
      PlacedBetween(v, x.marker, Text(x.rest));
      PlacedBetween(w, y.marker, Text(y.rest));
      if |w| < |v| {
        MarkersDoNotCross(markers, text, y.marker, |w|, x.marker, |v|);
        PlacedInside(text, y.marker, |w|, v);
        assert EndsEarly(v, x.mayBeEmpty, y.marker);
        assert false;
      } else if |v| < |w| {
        AfterPrefix(v, x.marker + Text(x.rest), w, y.marker + Text(y.rest));
        MovedRight(markers, x.slot, x.marker, x.rest, w[|v|..], y.marker, y.rest);
        assert false;
      } else {
        AfterPrefix(v, x.marker + Text(x.rest), w, y.marker + Text(y.rest));
        MarkersDoNotCross(markers, text, x.marker, |v|, y.marker, |w|);
        AfterPrefix(x.marker, Text(x.rest), y.marker, Text(y.rest));
        ClearReadsBack(markers, x.rest, y.rest);
      }
    }
  }

  // --------------------------------------------------------- the other direction

  /** The first marker moved to the left: the value ends early. */
  function MovedLeft(x: Line, i: nat, m: string): Line
    requires x.More? && PlacedAt(x.value, m, i)
  {
    x.(value := x.value[..i], marker := m, rest := x.rest.(value := x.value[i + |m|..] + x.marker + x.rest.value))
  }

  /** The first marker moved to the right: the next value begins late. */
  function MovedOn(x: Line, i: nat, m: string): Line
    requires x.More? && PlacedAt(x.rest.value, m, i)
  {
    x.(value := x.value + x.marker + x.rest.value[..i], marker := m, rest := x.rest.(value := x.rest.value[i + |m|..]))
  }

  lemma MovedLeftReadsTheSame(x: Line, i: nat, m: string)
    requires x.More? && PlacedAt(x.value, m, i)
    ensures Text(MovedLeft(x, i, m)) == Text(x)
  {
    var p, r, after := x.value[..i], x.value[i + |m|..], TextAfterValue(x.rest);
    PlacedSplits(x.value, m, i);
    assert Text(x.rest) == x.rest.value + after;
    assert Text(MovedLeft(x, i, m)) == p + (m + ((r + x.marker + x.rest.value) + after));
  }

  lemma MovedOnReadsTheSame(x: Line, i: nat, m: string)
    requires x.More? && PlacedAt(x.rest.value, m, i)
    ensures Text(MovedOn(x, i, m)) == Text(x)
  {
    var p, r, after := x.rest.value[..i], x.rest.value[i + |m|..], TextAfterValue(x.rest);
    PlacedSplits(x.rest.value, m, i);
    assert Text(x.rest) == x.rest.value + after;
    assert Text(MovedOn(x, i, m)) == (x.value + x.marker + p) + (m + (r + after));
    Regroup(x.value + x.marker, p, m + (r + after));
    Regroup(x.value, x.marker, p + (m + (r + after)));
    Regroup(p, m + r, after);
    Regroup(m, r, after);
  }

  ghost predicate ReadsLike(markers: set<string>, x: Line, y: Line)
  {
    Proper(markers, y) && SameShape(x, y) && Text(y) == Text(x) && y != x
  }

  lemma {:induction false} SameShapeAsItself(x: Line)
    ensures SameShape(x, x)
  {
    if x.More? {
      SameShapeAsItself(x.rest);
    }
  }

  /** A line that is not clear reads like another. */
  lemma {:induction false} UnclearReadsLikeAnother(markers: set<string>, x: Line) returns (y: Line)
    requires Rigid(markers) && Proper(markers, x) && !Clear(x)
    ensures ReadsLike(markers, x, y)
    decreases x
  {
    SameShapeAsItself(x.rest);
    if !NoneEndsEarly(x, x.slot) {
      var m :| m in x.slot && EndsEarly(x.value, x.mayBeEmpty, m);
      var i: nat :| PlacedAt(x.value, m, i) && (i == 0 ==> x.mayBeEmpty);
      y := MovedLeft(x, i, m);
      MovedLeftReadsTheSame(x, i, m);
    } else if !NoneBeginsLate(x.rest, x.slot) {
      var m :| m in x.slot && BeginsLate(x.rest.value, x.rest.mayBeEmpty, m);
      var i: nat :| PlacedAt(x.rest.value, m, i) && (i + |m| == |x.rest.value| ==> x.rest.mayBeEmpty);
      y := MovedOn(x, i, m);
      MovedOnReadsTheSame(x, i, m);
    } else {
      var rest := UnclearReadsLikeAnother(markers, x.rest);
      y := x.(rest := rest);
    }
  }

  /** The exact condition for a line to be the only one of its shape that reads as it does. */
  lemma ReadsBackIff(markers: set<string>, x: Line)
    requires Rigid(markers) && Proper(markers, x)
    ensures (forall y :: !ReadsLike(markers, x, y)) <==> Clear(x)
  {
    if Clear(x) {
      forall y ensures !ReadsLike(markers, x, y) {
        if ReadsLike(markers, x, y) {
          ClearReadsBack(markers, x, y);
        }
      }
    } else {
      var y := UnclearReadsLikeAnother(markers, x);
    }
  }

  // -------------------------------------------------------------- label lists

  /** The line of a label list: any values, each marker fixed by the name of the label it begins. */
  function LineOf(labels: Labels): Line
    requires labels != []
  {
    if |labels| == 1 then Last(labels[0].value, true)
    else More(labels[0].value, true, {Marker(labels[1].name)}, Marker(labels[1].name), LineOf(labels[1..]))
  }

  lemma {:induction false} JoinedIsText(labels: Labels)
    requires labels != []
    ensures Joined(labels) == (labels[0].name + "=") + Text(LineOf(labels))
  {
    if |labels| > 1 {
      JoinedIsText(labels[1..]);
      var l, next := labels[0], labels[1];
      Regroup(l.name + "=", l.value, "," + Joined(labels[1..]));
      Regroup(",", next.name + "=", Text(LineOf(labels[1..])));
      Regroup(",", next.name, "=");
      Regroup(LabelText(l), ",", Joined(labels[1..]));
    }
  }

  ghost predicate SameNames(a: Labels, b: Labels) { |a| == |b| && forall i :: 0 <= i < |a| ==> a[i].name == b[i].name }

  function Markers(labels: Labels): set<string> { set i | 0 < i < |labels| :: Marker(labels[i].name) }

  lemma MarkersOfLabelsAreRigid(labels: Labels)
    ensures Rigid(Markers(labels))
  {
    forall m | m in Markers(labels) ensures exists n: LabelName :: m == Marker(n) {
      var i :| 0 < i < |labels| && m == Marker(labels[i].name);
      var n: LabelName := labels[i].name;
    }
    LabelMarkersAreRigid(Markers(labels));
  }

  lemma {:induction false} LineOfIsProper(markers: set<string>, labels: Labels)
    requires labels != [] && Markers(labels) <= markers
    ensures Proper(markers, LineOf(labels))
  {
    if |labels| > 1 {
      assert Marker(labels[1].name) in Markers(labels);
      forall m | m in Markers(labels[1..]) ensures m in markers {
        var i :| 0 < i < |labels[1..]| && m == Marker(labels[1..][i].name);
        assert labels[1..][i] == labels[i + 1];
        assert m in Markers(labels);
      }
      LineOfIsProper(markers, labels[1..]);
    }
  }

  /** The labels with the values of a line. */
  function WithValues(labels: Labels, l: Line): (b: Labels)
    requires labels != [] && SameShape(LineOf(labels), l)
    ensures |b| == |labels|
  {
    if |labels| == 1 then [Label(labels[0].name, l.value)]
    else [Label(labels[0].name, l.value)] + WithValues(labels[1..], l.rest)
  }

  lemma {:induction false} LineOfWithValues(markers: set<string>, labels: Labels, l: Line)
    requires labels != [] && SameShape(LineOf(labels), l) && Proper(markers, l)
    ensures SameNames(labels, WithValues(labels, l)) && LineOf(WithValues(labels, l)) == l
  {
    if |labels| > 1 {
      var rest := WithValues(labels[1..], l.rest);
      LineOfWithValues(markers, labels[1..], l.rest);
      assert WithValues(labels, l)[1..] == rest;
      assert forall i :: 0 < i < |labels| ==> labels[i] == labels[1..][i - 1] && WithValues(labels, l)[i] == rest[i - 1];
    }
  }

  lemma {:induction false} LinesTellLabels(a: Labels, b: Labels)
    requires a != [] && SameNames(a, b)
    ensures SameShape(LineOf(a), LineOf(b)) && (LineOf(a) == LineOf(b) <==> a == b)
  {
    if |a| > 1 {
      assert forall i :: 0 <= i < |a| - 1 ==> a[1..][i].name == b[1..][i].name;
      LinesTellLabels(a[1..], b[1..]);
      assert a == [a[0]] + a[1..] && b == [b[0]] + b[1..];
    }
  }

  /** A value holds neither the next label's marker nor, if another label precedes it, its own. */
  predicate HoldsNoMarker(labels: Labels, j: nat)
    requires j + 1 < |labels|
  {
    !Contains(labels[j].value, Marker(labels[j + 1].name)) && !Contains(labels[j + 1].value, Marker(labels[j + 1].name))
  }

  predicate NoneHoldsAMarker(labels: Labels) { forall j: nat :: j + 1 < |labels| ==> HoldsNoMarker(labels, j) }

  lemma EmptyValuesAreFree(value: string, marker: string)
    ensures EndsEarly(value, true, marker) <==> Contains(value, marker)
    ensures BeginsLate(value, true, marker) <==> Contains(value, marker)
  {
    if i: nat :| i <= |value| && PlacedAt(value, marker, i) {
      assert PlacedAt(value, marker, i) && (i == 0 ==> true);
    }
  }

  lemma {:induction false} ClearLabels(labels: Labels)
    requires labels != []
    ensures Clear(LineOf(labels)) <==> NoneHoldsAMarker(labels)
  {
    if |labels| > 1 {
      var rest := labels[1..];
      ClearLabels(rest);
      EmptyValuesAreFree(labels[0].value, Marker(labels[1].name));
      EmptyValuesAreFree(labels[1].value, Marker(labels[1].name));
      assert LineOf(rest).value == labels[1].value && LineOf(rest).mayBeEmpty;
      assert forall j: nat :: j + 1 < |rest| ==> HoldsNoMarker(rest, j) == HoldsNoMarker(labels, j + 1);
      assert NoneHoldsAMarker(labels) <==> HoldsNoMarker(labels, 0) && NoneHoldsAMarker(rest) by {
        if HoldsNoMarker(labels, 0) && NoneHoldsAMarker(rest) {
          forall j: nat | j + 1 < |labels| ensures HoldsNoMarker(labels, j) {
            if j > 0 {
              assert HoldsNoMarker(rest, j - 1);
            }
          }
        }
      }
    }
  }

  /** No other list of labels with these names is written down as this one. */
  ghost predicate ReadsBack(a: Labels) { forall b :: SameNames(a, b) && Joined(a) == Joined(b) ==> a == b }

  /** The exact condition, for label lists of any length. */
  lemma LabelsReadBackIff(a: Labels)
    ensures ReadsBack(a) <==> NoneHoldsAMarker(a)
  {
    if a != [] {
      MarkersOfLabelsAreRigid(a);
      LineOfIsProper(Markers(a), a);
      ReadsBackIff(Markers(a), LineOf(a));
      ClearLabels(a);
      if Clear(LineOf(a)) {
        forall b | SameNames(a, b) && Joined(a) == Joined(b) ensures a == b {
          OtherLabelsReadLike(a, b);
        }
      } else {
        var y :| ReadsLike(Markers(a), LineOf(a), y);
        OtherLineIsOtherLabels(a, y);
      }
    }
  }

  lemma OtherLabelsReadLike(a: Labels, b: Labels)
    requires a != [] && SameNames(a, b) && Joined(a) == Joined(b)
    ensures a == b || ReadsLike(Markers(a), LineOf(a), LineOf(b))
  {
    JoinedIsText(a);
    JoinedIsText(b);
    AfterPrefix(a[0].name + "=", Text(LineOf(a)), b[0].name + "=", Text(LineOf(b)));
    LinesTellLabels(a, b);
    assert Markers(b) <= Markers(a);
    LineOfIsProper(Markers(a), b);
  }

  lemma OtherLineIsOtherLabels(a: Labels, y: Line)
    requires a != [] && ReadsLike(Markers(a), LineOf(a), y)
    ensures !ReadsBack(a)
  {
    LineOfWithValues(Markers(a), a, y);
    var b := WithValues(a, y);
    JoinedIsText(a);
    JoinedIsText(b);
    LinesTellLabels(a, b);
    assert SameNames(a, b) && Joined(a) == Joined(b) && a != b;
  }

  lemma {:induction false} JoinedOneMore(labels: Labels, l: Label)
    requires labels != []
    ensures Joined(labels + [l]) == Joined(labels) + (Marker(l.name) + l.value)
  {
    var tail := Marker(l.name) + l.value;
    assert tail == "," + LabelText(l) by {
      Regroup(",", l.name + "=", l.value);
      Regroup(",", l.name, "=");
    }
    if |labels| == 1 {
      assert labels + [l] == [labels[0], l] && [labels[0], l][1..] == [l];
      Regroup(LabelText(labels[0]), ",", LabelText(l));
    } else {
      var rest := labels[1..];
      JoinedOneMore(rest, l);
      assert (labels + [l])[1..] == rest + [l];
      Regroup(LabelText(labels[0]) + ",", Joined(rest), tail);
    }
  }

  lemma LastLabelsMatch(a: Labels, v: string, b: Labels, w: string, n: LabelName)
    requires a != [] && b != [] && Without(v, ',') && Without(w, ',')
    requires Joined(a + [Label(n, v)]) == Joined(b + [Label(n, w)])
    ensures Joined(a) == Joined(b) && v == w
  {
    JoinedOneMore(a, Label(n, v));
    JoinedOneMore(b, Label(n, w));
    LastPartsMatch(n, Joined(a), v, Joined(b), w);
  }
}
