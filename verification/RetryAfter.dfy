/**
 * The Retry-After header (section 10.2.3 of RFC 9110): whole seconds or a
 * date, never honoured for more than eight seconds. Dates are read by the
 * engine's own parser, which is a parameter here.
 */
module RetryAfter {
  import opened Prelude
  import opened Digits
  import opened Text

  const CAP_DELAY_MS: real := 8000.0

  type DateParser = string -> Option<real>

  predicate IsInteger(s: string) { s != "" && AllDigits(s) }

  /** digits, then perhaps a point, then at least one digit */
  predicate IsDecimal(s: string)
  {
    exists i :: 0 <= i <= |s| && PointAfter(s, i)
  }

  predicate PointAfter(s: string, i: nat)
    requires i <= |s|
  {
    AllDigits(s[..i]) && (IsInteger(s[i..]) || (i < |s| && s[i] == '.' && IsInteger(s[i + 1..])))
  }

  /** The pattern that keeps numbers away from the date parser. */
  predicate LooksNumeric(s: string)
  {
    IsDecimal(s) || (s != "" && (s[0] == '+' || s[0] == '-') && IsDecimal(s[1..]))
  }

  /** The least integer that rounds to Infinity as a double: 2^1024 - 2^970. */
  const OVERFLOWS_AT: nat :=
    0xFFFFFFFFFFFFFC00000000000000000000000000000000000000000000000000000000000000000000000000000000000000000000000000000000000000000000000000000000000000000000000000000000000000000000000000000000000000000000000000000000000000000000000000000000000000000000000000

  function Clamp(ms: real): real { Min(Max(ms, 0.0), CAP_DELAY_MS) }

  function ParseRetryAfterMs(value: Option<string>, wallNowMs: real, dates: DateParser): Option<real>
  {
    if value.None? then None
    else
      var trimmed := Trim(value.value);
      if IsInteger(trimmed) then
        if Number(trimmed) < OVERFLOWS_AT then Some(Min(Number(trimmed) as real * 1000.0, CAP_DELAY_MS)) else None
      else if LooksNumeric(trimmed) then None
      else match dates(trimmed) case None => None case Some(dateMs) => Some(Clamp(dateMs - wallNowMs))
  }

  lemma NeverBeyondTheCap(value: Option<string>, wallNowMs: real, dates: DateParser)
    ensures var ms := ParseRetryAfterMs(value, wallNowMs, dates); ms.Some? ==> 0.0 <= ms.value <= CAP_DELAY_MS
  {
  }

  // ------------------------------------------------------------ whole seconds

  /** Any number of whole seconds a server can write is honoured up to the cap; an overflowing one is ignored. */
  lemma WholeSecondsAreHonoured(before: string, seconds: nat, after: string, wallNowMs: real, dates: DateParser)
    requires AllSpace(before) && AllSpace(after)
    ensures ParseRetryAfterMs(Some(before + Decimal(seconds) + after), wallNowMs, dates)
            == if seconds < OVERFLOWS_AT then Some(Min(seconds as real * 1000.0, CAP_DELAY_MS)) else None
  {
    var s := Decimal(seconds);
    assert IsDigit(s[0]) && IsDigit(s[|s| - 1]);
    TrimDrops(before, s, after);
    DecimalRoundTrip(seconds);
  }

  // ------------------------------------------------------------------- dates

  /** Text that begins like a date, with neither a digit nor a sign nor a point. */
  predicate BeginsWithAWord(s: string)
  {
    s != "" && !IsSpace(s[0]) && !IsDigit(s[0]) && s[0] != '.' && s[0] != '+' && s[0] != '-' && !IsSpace(s[|s| - 1])
  }

  /** A date is waited for, up to eight seconds; one that is past asks for no wait, and one the engine cannot read for nothing. */
  lemma DatesAreWaitedFor(before: string, text: string, after: string, wallNowMs: real, dates: DateParser)
    requires AllSpace(before) && AllSpace(after) && BeginsWithAWord(text)
    ensures var ms, date := ParseRetryAfterMs(Some(before + text + after), wallNowMs, dates), dates(text);
            && (ms.Some? <==> date.Some?)
            && (date.Some? && date.value <= wallNowMs ==> ms.value == 0.0)
            && (date.Some? && wallNowMs < date.value <= wallNowMs + 8000.0 ==> wallNowMs + ms.value == date.value)
            && (date.Some? && date.value > wallNowMs + 8000.0 ==> ms.value == 8000.0)
    ensures ParseRetryAfterMs(None, wallNowMs, dates) == None
  {
    TrimDrops(before, text, after);
    if IsDecimal(text) {
      DecimalsAreBounded(text);
    }
  }

  // ------------------------------------------------ what the date parser sees

  predicate DecidedAsNumber(value: Option<string>)
  {
    value.Some? ==> IsInteger(Trim(value.value)) || LooksNumeric(Trim(value.value))
  }

  /** What the date parser answers can make a difference. */
  ghost predicate DatesMatter(value: Option<string>, wallNowMs: real)
  {
    exists d: DateParser, e: DateParser :: ParseRetryAfterMs(value, wallNowMs, d) != ParseRetryAfterMs(value, wallNowMs, e)
  }

  lemma DatesMatterIff(value: Option<string>, wallNowMs: real)
    ensures DatesMatter(value, wallNowMs) <==> !DecidedAsNumber(value)
  {
    if !DecidedAsNumber(value) {
      var never: DateParser := _ => None;
      var now: DateParser := _ => Some(wallNowMs);
      assert ParseRetryAfterMs(value, wallNowMs, never) != ParseRetryAfterMs(value, wallNowMs, now);
    }
  }

  lemma DecimalsAreBounded(s: string)
    requires IsDecimal(s)
    ensures s != "" && (IsDigit(s[0]) || s[0] == '.') && IsDigit(s[|s| - 1])
  {
    var i :| 0 <= i <= |s| && PointAfter(s, i);
    if IsInteger(s[i..]) {
      assert s[|s| - 1] == s[i..][|s| - i - 1];
      assert s[0] == if i > 0 then s[..i][0] else s[i..][0];
    } else {
      assert s[|s| - 1] == s[i + 1..][|s| - i - 2];
      assert i > 0 ==> s[0] == s[..i][0];
    }
  }

  lemma PointedNumbersAreDecimal(whole: string, fraction: string)
    requires AllDigits(whole) && IsInteger(fraction)
    ensures IsDecimal(whole + "." + fraction)
  {
    var s := whole + "." + fraction;
    assert s[..|whole|] == whole && s[|whole| + 1..] == fraction && s[|whole|] == '.';
    assert PointAfter(s, |whole|);
  }

  /** A signed number, or one with a fraction, asks for nothing, whatever the date parser would make of it. */
  lemma MalformedNumbersAreIgnored(body: string, sign: char, wallNowMs: real, dates: DateParser)
    requires IsDecimal(body) && (sign == '+' || sign == '-')
    ensures !IsInteger(body) ==> ParseRetryAfterMs(Some(body), wallNowMs, dates) == None
    ensures ParseRetryAfterMs(Some([sign] + body), wallNowMs, dates) == None
  {
    DecimalsAreBounded(body);
    Untrimmed(body);
    var signed := [sign] + body;
    assert signed[|signed| - 1] == body[|body| - 1];
    Untrimmed(signed);
    assert signed[1..] == body && !IsDigit(signed[0]);
  }

  /** A string over digits and points. */
  predicate DigitsAndPoints(s: string) { forall i :: 0 <= i < |s| ==> IsDigit(s[i]) || s[i] == '.' }

  predicate OnePointAtMost(s: string) { forall i, j :: 0 <= i < j < |s| ==> s[i] != '.' || s[j] != '.' }

  lemma DecimalsHaveOnePointAtMost(s: string)
    requires IsDecimal(s)
    ensures OnePointAtMost(s)
  {
    var i :| 0 <= i <= |s| && PointAfter(s, i);
    assert forall k :: 0 <= k < i ==> s[k] == s[..i][k];
    if IsInteger(s[i..]) {
      assert forall k :: i <= k < |s| ==> s[k] == s[i..][k - i];
    } else {
      assert forall k :: i < k < |s| ==> s[k] == s[i + 1..][k - i - 1];
    }
  }

  /** Over digits and points, the pattern asks for a last digit and at most one point. */
  lemma DecimalIff(s: string)
    requires s != "" && DigitsAndPoints(s)
    ensures IsDecimal(s) <==> IsDigit(s[|s| - 1]) && OnePointAtMost(s)
  {
    if IsDecimal(s) {
      DecimalsAreBounded(s);
      DecimalsHaveOnePointAtMost(s);
    }
    if IsDigit(s[|s| - 1]) && OnePointAtMost(s) {
      if p: nat :| p < |s| && s[p] == '.' {
        assert s == s[..p] + "." + s[p + 1..];
        PointedNumbersAreDecimal(s[..p], s[p + 1..]);
      } else {
        assert s[..0] == "" && s[0..] == s;
        assert PointAfter(s, 0);
      }
    }
  }

  lemma UnsignedIsDecidedIff(body: string)
    requires body != "" && DigitsAndPoints(body)
    ensures IsInteger(body) || LooksNumeric(body) <==> IsDecimal(body)
  {
    if IsInteger(body) {
      DecimalIff(body);
    }
  }

  lemma SignedIsDecidedIff(sign: char, body: string)
    requires (sign == '+' || sign == '-') && body != ""
    ensures IsInteger([sign] + body) || LooksNumeric([sign] + body) <==> IsDecimal(body)
  {
    var s := [sign] + body;
    assert s[1..] == body && s[0] == sign;
    if IsDecimal(s) {
      DecimalsAreBounded(s);
    }
  }

  /**
   * Which number-like strings slip through to the date parser: over digits
   * and points, with or without a sign, exactly those that end in a point or
   * hold more than one.
   */
  lemma NumberLikeReachesTheDateParserIff(sign: string, body: string, wallNowMs: real)
    requires (sign == "" || sign == "+" || sign == "-") && body != "" && DigitsAndPoints(body)
    ensures DatesMatter(Some(sign + body), wallNowMs) <==> body[|body| - 1] == '.' || !OnePointAtMost(body)
  {
    var s := sign + body;
    DatesMatterIff(Some(s), wallNowMs);
    assert s[|s| - 1] == body[|body| - 1];
    Untrimmed(s);
    DecimalIff(body);
    if sign == "" {
      assert s == body;
      UnsignedIsDecidedIff(body);
    } else {
      SignedIsDecidedIff(sign[0], body);
    }
  }
}
