/**
 * The two ways a series is written down to be counted: labels joined with
 * commas (device and certificate collectors) and labels as JSON (inventory
 * collector). Each is parsed back, which shows when it tells series apart.
 */
module SeriesKeys {
  import opened Digits

  predicate IsName(s: string) { forall i :: 0 <= i < |s| ==> s[i] != ',' && s[i] != '=' }

  /** A label name; none contains a separator. */
  type LabelName = s: string | IsName(s)

  datatype Label = Label(name: LabelName, value: string)

  /** One label set, in the order of its sorted names. */
  type Labels = seq<Label>

  type Pairs = seq<(string, string)>

  function PairsOf(labels: Labels): Pairs { seq(|labels|, i requires 0 <= i < |labels| => (labels[i].name, labels[i].value)) }

  lemma PairsOfRest(labels: Labels)
    requires labels != []
    ensures PairsOf(labels) == [(labels[0].name, labels[0].value)] + PairsOf(labels[1..])
  {
  }

  lemma PairsAreTheLabels(a: Labels, b: Labels)
    requires PairsOf(a) == PairsOf(b)
    ensures a == b
  {
    assert |a| == |PairsOf(a)| == |PairsOf(b)| == |b|;
    forall i | 0 <= i < |a| ensures a[i] == b[i] {
      assert PairsOf(a)[i] == PairsOf(b)[i];
    }
  }

  predicate Without(s: string, c: char) { forall i :: 0 <= i < |s| ==> s[i] != c }

  /** Where c first is in s, or the end of s. */
  function Find(s: string, c: char): (i: nat)
    ensures i <= |s| && (i < |s| ==> s[i] == c) && Without(s[..i], c)
  {
    if s == "" || s[0] == c then 0 else 1 + Find(s[1..], c)
  }

  lemma {:induction false} FindAfter(before: string, c: char, after: string)
    requires Without(before, c)
    ensures Find(before + [c] + after, c) == |before|
    ensures Find(before, c) == |before|
  {
    var s := before + [c] + after;
    if before != "" {
      assert s[0] == before[0] && s[1..] == before[1..] + [c] + after;
      FindAfter(before[1..], c, after);
    }
  }

  // ---------------------------------------------------------- the comma key

  function LabelText(l: Label): string { l.name + "=" + l.value }

  function Joined(labels: Labels): string
  {
    if labels == [] then "" else if |labels| == 1 then LabelText(labels[0])
    else LabelText(labels[0]) + "," + Joined(labels[1..])
  }

  function CommaKey(index: nat, labels: Labels): string { Decimal(index) + "{" + Joined(labels) + "}" }

  function ParseLabel(s: string): (string, string)
  {
    var e := Find(s, '=');
    (s[..e], if e < |s| then s[e + 1..] else "")
  }

  function Split(s: string): Pairs
  {
    if s == "" then []
    else
      var e := Find(s, ',');
      [ParseLabel(s[..e])] + (if e < |s| then Split(s[e + 1..]) else [])
  }

  function ParseCommaKey(key: string): (nat, Pairs)
  {
    var e := Find(key, '{');
    (if AllDigits(key[..e]) then Number(key[..e]) else 0, if e + 1 < |key| then Split(key[e + 1..|key| - 1]) else [])
  }

  ghost predicate CommaFree(labels: Labels) { forall l :: l in labels ==> Without(l.value, ',') }

  lemma ParseLabelText(l: Label)
    ensures ParseLabel(LabelText(l)) == (l.name, l.value)
  {
    var s := l.name + "=" + l.value;
    FindAfter(l.name, '=', l.value);
    assert s[..|l.name|] == l.name && s[|l.name| + 1..] == l.value;
  }

  lemma {:induction false} SplitJoined(labels: Labels)
    requires CommaFree(labels)
    ensures Split(Joined(labels)) == PairsOf(labels)
  {
    if labels != [] {
      var head, rest := LabelText(labels[0]), Joined(labels[1..]);
      assert Without(head, ',') by {
        assert Without(labels[0].name, ',') && Without(labels[0].value, ',');
      }
      ParseLabelText(labels[0]);
      PairsOfRest(labels);
      if |labels| == 1 {
        FindAfter(head, ',', "");
        assert head[..|head|] == head;
      } else {
        SplitJoined(labels[1..]);
        FindAfter(head, ',', rest);
        var s := head + "," + rest;
        assert s[..|head|] == head && s[|head| + 1..] == rest;
      }
    }
  }

  lemma DigitsThenMark(index: nat, mark: char, rest: string)
    requires !IsDigit(mark)
    ensures var s := Decimal(index) + [mark] + rest; var e := Find(s, mark);
            s[..e] == Decimal(index) && s[e + 1..] == rest && e < |s|
  {
    var s := Decimal(index) + [mark] + rest;
    FindAfter(Decimal(index), mark, rest);
    assert s[..|Decimal(index)|] == Decimal(index) && s[|Decimal(index)| + 1..] == rest;
  }

  /** A comma key gives back its series if no label value contains a comma. */
  lemma CommaKeyParses(index: nat, labels: Labels)
    requires CommaFree(labels)
    ensures ParseCommaKey(CommaKey(index, labels)) == (index, PairsOf(labels))
  {
    var body := Joined(labels);
    var key := CommaKey(index, labels);
    assert key == Decimal(index) + ['{'] + (body + "}");
    DigitsThenMark(index, '{', body + "}");
    DecimalRoundTrip(index);
    var e := Find(key, '{');
    assert key[e + 1..|key| - 1] == (body + "}")[..|body|] == body;
    SplitJoined(labels);
  }

  lemma CommaKeysDiffer(i: nat, a: Labels, j: nat, b: Labels)
    requires CommaFree(a) && CommaFree(b)
    ensures CommaKey(i, a) == CommaKey(j, b) <==> i == j && a == b
  {
    CommaKeyParses(i, a);
    CommaKeyParses(j, b);
    if PairsOf(a) == PairsOf(b) {
      PairsAreTheLabels(a, b);
    }
  }

  // ----------------------------------------------------------- the JSON key

  /** How JSON.stringify writes one character of a string. */
  function EscapedChar(c: char): string
  {
    if c == '"' then ['\\', '"'] else if c == '\\' then ['\\', '\\']
    else if c == '\U{08}' then ['\\', 'b'] else if c == '\t' then ['\\', 't'] else if c == '\n' then ['\\', 'n']
    else if c == '\U{0C}' then ['\\', 'f'] else if c == '\r' then ['\\', 'r']
    else if c < ' ' then ['\\', 'u', '0', '0', HexDigit(c as int / 16), HexDigit(c as int % 16)]
    else [c]
  }

  function Escaped(s: string): string { if s == "" then "" else EscapedChar(s[0]) + Escaped(s[1..]) }

  /** The text of s as a JSON string, followed by `rest`. */
  function Quoted(s: string, rest: string): string { ['"'] + (Escaped(s) + (['"'] + rest)) }

  /** Reads one escape or plain character: the character and what it took. */
  function ReadChar(t: string): (r: (char, nat))
    requires t != ""
    ensures 1 <= r.1 <= |t|
  {
    if t[0] != '\\' || |t| < 2 then (t[0], 1)
    else if t[1] == 'b' then ('\U{08}', 2) else if t[1] == 't' then ('\t', 2) else if t[1] == 'n' then ('\n', 2)
    else if t[1] == 'f' then ('\U{0C}', 2) else if t[1] == 'r' then ('\r', 2)
    else if t[1] == 'u' && |t| >= 6 then ((HexDigitValue(t[4]) * 16 + HexDigitValue(t[5])) as char, 6)
    else (t[1], 2)
  }

  /** Reads up to the closing quote: the string and what follows it. */
  function ReadString(t: string): (r: (string, string))
    ensures |r.1| <= |t|
    decreases |t|
  {
    if t == "" then ("", "") else if t[0] == '"' then ("", t[1..])
    else
      var (c, n) := ReadChar(t);
      var (s, rest) := ReadString(t[n..]);
      ([c] + s, rest)
  }

  lemma EscapedCharReads(c: char, rest: string)
    ensures var t := EscapedChar(c) + rest; t[0] != '"' && ReadChar(t) == (c, |EscapedChar(c)|)
  {
  }

  lemma {:induction false} EscapedReads(s: string, rest: string)
    ensures ReadString(Escaped(s) + (['"'] + rest)) == (s, rest)
  {
    var t := Escaped(s) + (['"'] + rest);
    if s == "" {
      assert t == ['"'] + rest;
    } else {
      var head, more := EscapedChar(s[0]), Escaped(s[1..]) + (['"'] + rest);
      assert t == head + more;
      EscapedCharReads(s[0], more);
      assert t[|head|..] == more;
      EscapedReads(s[1..], rest);
      assert [s[0]] + s[1..] == s;
    }
  }

  lemma QuotedReads(before: char, s: string, rest: string)
    ensures ReadString(Drop([before] + Quoted(s, rest), 2)) == (s, rest)
  {
    var t := [before] + Quoted(s, rest);
    assert t[2..] == Escaped(s) + (['"'] + rest);
    EscapedReads(s, rest);
  }

  /** A pair, or all pairs from some position on with the closing bracket, each followed by `rest`. */
  function PairText(l: Label, rest: string): string { ['['] + Quoted(l.name, [','] + Quoted(l.value, [']'] + rest)) }

  function Elements(labels: Labels): string
  {
    if labels == [] then "]" else if |labels| == 1 then PairText(labels[0], [']'])
    else PairText(labels[0], [','] + Elements(labels[1..]))
  }

  function JsonKey(index: nat, labels: Labels): string { Decimal(index) + "[" + Elements(labels) }

  function Drop(t: string, n: nat): (rest: string)
    ensures |rest| <= |t| && (n > 0 && t != "" ==> |rest| < |t|)
  {
    if n <= |t| then t[n..] else ""
  }

  /** Reads pairs for as long as one begins. */
  function ReadPairs(t: string): Pairs
    decreases |t|
  {
    if t == "" || t[0] != '[' then []
    else
      var (name, afterName) := ReadString(Drop(t, 2));
      var (value, afterValue) := ReadString(Drop(afterName, 2));
      [(name, value)] + ReadPairs(Drop(afterValue, 2))
  }

  function ParseJsonKey(key: string): (nat, Pairs)
  {
    var e := Find(key, '[');
    (if AllDigits(key[..e]) then Number(key[..e]) else 0, ReadPairs(Drop(key, e + 1)))
  }

  lemma PairReads(l: Label, separator: char, rest: string)
    ensures var t := PairText(l, [separator] + rest);
            ReadPairs(t) == [(l.name, l.value)] + ReadPairs(rest)
  {
    var afterValue := [']'] + ([separator] + rest);
    var afterName := [','] + Quoted(l.value, afterValue);
    QuotedReads('[', l.name, afterName);
    QuotedReads(',', l.value, afterValue);
    assert afterValue[2..] == rest;
    OnePairRead(['['] + Quoted(l.name, afterName), l, afterName, afterValue);
  }

  lemma OnePairRead(t: string, l: Label, afterName: string, afterValue: string)
    requires t != "" && t[0] == '[' && ReadString(Drop(t, 2)) == (l.name, afterName)
    requires ReadString(Drop(afterName, 2)) == (l.value, afterValue)
    ensures ReadPairs(t) == [(l.name, l.value)] + ReadPairs(Drop(afterValue, 2))
  {
  }

  lemma LastPairReads(l: Label)
    ensures ReadPairs(PairText(l, [']'])) == [(l.name, l.value)]
  {
    var nothing: string := [];
    PairReads(l, ']', nothing);
    assert [']'] + nothing == [']'];
  }

  lemma {:induction false} ElementsRead(labels: Labels)
    ensures ReadPairs(Elements(labels)) == PairsOf(labels)
  {
    if labels != [] {
      PairsOfRest(labels);
      var l, rest := labels[0], labels[1..];
      if rest == [] {
        LastPairReads(l);
      } else {
        var text := Elements(rest);
        ElementsRead(rest);
        PairReads(l, ',', text);
        assert Elements(labels) == PairText(l, [','] + text);
      }
    }
  }

  /** A JSON key gives back its series, whatever the labels contain. */
  lemma JsonKeyParses(index: nat, labels: Labels)
    ensures ParseJsonKey(JsonKey(index, labels)) == (index, PairsOf(labels))
  {
    var body := Elements(labels);
    var key := JsonKey(index, labels);
    assert key == Decimal(index) + ['['] + body;
    DigitsThenMark(index, '[', body);
    DecimalRoundTrip(index);
    ElementsRead(labels);
  }

  lemma JsonKeysDiffer(i: nat, a: Labels, j: nat, b: Labels)
    ensures JsonKey(i, a) == JsonKey(j, b) <==> i == j && a == b
  {
    JsonKeyParses(i, a);
    JsonKeyParses(j, b);
    if PairsOf(a) == PairsOf(b) {
      PairsAreTheLabels(a, b);
    }
  }

  lemma SameKeySameText(i: nat, a: Labels, j: nat, b: Labels)
    ensures CommaKey(i, a) == CommaKey(j, b) <==> i == j && Joined(a) == Joined(b)
  {
    if CommaKey(i, a) == CommaKey(j, b) {
      var key := CommaKey(i, a);
      assert key == Decimal(i) + ['{'] + (Joined(a) + "}");
      assert key == Decimal(j) + ['{'] + (Joined(b) + "}");
      DigitsThenMark(i, '{', Joined(a) + "}");
      DigitsThenMark(j, '{', Joined(b) + "}");
      DecimalRoundTrip(i);
      DecimalRoundTrip(j);
      assert (Joined(a) + "}")[..|Joined(a)|] == Joined(a) && (Joined(b) + "}")[..|Joined(b)|] == Joined(b);
    }
  }
}
