/**
 * The two timestamp parsers. Both hand the matched fields to the Date engine
 * and keep its answer only if the components it reads back are the fields. An
 * engine must be right about real instants (section 21.4.1 of ECMA-262); what
 * it makes of other fields, rolled over or rejected, is left open.
 */
module Timestamps {
  import opened Prelude
  import opened Calendar
  import opened Digits

  // ---------------------------------------------------------------- formats

  /** yyyy-mm-ddT */
  predicate DateShape(s: string)
  {
    |s| == 11 && AllDigits(s[0..4]) && s[4] == '-' && AllDigits(s[5..7]) && s[7] == '-' && AllDigits(s[8..10]) && s[10] == 'T'
  }

  /** hh:mm */
  predicate ClockShape(s: string) { |s| == 5 && AllDigits(s[0..2]) && s[2] == ':' && AllDigits(s[3..5]) }

  /** The part both formats share. */
  predicate MinuteShape(s: string) { |s| == 16 && DateShape(s[..11]) && ClockShape(s[11..]) }

  function PrintDate(year: nat, month: nat, day: nat): (s: string)
    ensures |s| == 11
  {
    Padded(year, 4) + "-" + Padded(month, 2) + "-" + Padded(day, 2) + "T"
  }

  function PrintClock(hour: nat, minute: nat): (s: string)
    ensures |s| == 5
  {
    Padded(hour, 2) + ":" + Padded(minute, 2)
  }

  predicate NoneNegative(c: Civil) { c.year >= 0 && c.month >= 0 && c.day >= 0 && c.hour >= 0 && c.minute >= 0 && c.second >= 0 }

  function PrintMinute(c: Civil): (s: string)
    requires NoneNegative(c)
    ensures |s| == 16
  {
    PrintDate(c.year, c.month, c.day) + PrintClock(c.hour, c.minute)
  }

  function MinuteFields(s: string): (c: Civil)
    requires MinuteShape(s)
    ensures NoneNegative(c) && c.second == 0
  {
    var d, t := s[..11], s[11..];
    Civil(Number(d[0..4]), Number(d[5..7]), Number(d[8..10]), Number(t[0..2]), Number(t[3..5]), 0)
  }

  lemma PrintedDate(d: string)
    requires DateShape(d)
    ensures PrintDate(Number(d[0..4]), Number(d[5..7]), Number(d[8..10])) == d && Number(d[0..4]) <= 9999
  {
    YearIsSmall(d[0..4]);
    FieldIsPrinted(d, 0, 4);
    FieldIsPrinted(d, 5, 7);
    FieldIsPrinted(d, 8, 10);
    DateOfFields(d, Padded(Number(d[0..4]), 4), Padded(Number(d[5..7]), 2), Padded(Number(d[8..10]), 2));
  }

  lemma YearIsSmall(year: string)
    requires AllDigits(year) && |year| == 4
    ensures Number(year) <= 9999
  {
    PaddedNumber(year);
    assert Pow10(4) == 10000;
  }

  lemma FieldIsPrinted(s: string, from: nat, to: nat)
    requires from <= to <= |s| && AllDigits(s[from..to])
    ensures Padded(Number(s[from..to]), to - from) == s[from..to]
  {
    PaddedNumber(s[from..to]);
  }

  lemma DateOfFields(d: string, year: string, month: string, day: string)
    requires DateShape(d) && year == d[0..4] && month == d[5..7] && day == d[8..10]
    ensures year + "-" + month + "-" + day + "T" == d
  {
  }

  lemma PrintedClock(t: string)
    requires ClockShape(t)
    ensures PrintClock(Number(t[0..2]), Number(t[3..5])) == t
  {
    PaddedNumber(t[0..2]);
    PaddedNumber(t[3..5]);
    assert t == t[0..2] + [t[2]] + t[3..5];
  }

  lemma PrintedMinute(s: string)
    requires MinuteShape(s)
    ensures PrintMinute(MinuteFields(s)) == s && MinuteFields(s).year <= 9999
  {
    PrintedDate(s[..11]);
    PrintedClock(s[11..]);
    assert s == s[..11] + s[11..];
  }

  lemma ReadDate(year: nat, month: nat, day: nat)
    requires year <= 9999 && month <= 99 && day <= 99
    ensures var s := PrintDate(year, month, day);
            DateShape(s) && Number(s[0..4]) == year && Number(s[5..7]) == month && Number(s[8..10]) == day
  {
    assert Pow10(2) == 100 && Pow10(4) == 10000;
    NumberPadded(year, 4);
    NumberPadded(month, 2);
    NumberPadded(day, 2);
    FieldsOfDate(Padded(year, 4), Padded(month, 2), Padded(day, 2));
  }

  lemma FieldsOfDate(year: string, month: string, day: string)
    requires |year| == 4 && |month| == 2 && |day| == 2 && AllDigits(year) && AllDigits(month) && AllDigits(day)
    ensures var s := year + "-" + month + "-" + day + "T";
            DateShape(s) && s[0..4] == year && s[5..7] == month && s[8..10] == day
  {
    var s := year + "-" + month + "-" + day + "T";
    assert s[0..4] == year && s[5..7] == month && s[8..10] == day;
  }

  lemma ReadClock(hour: nat, minute: nat)
    requires hour <= 99 && minute <= 99
    ensures var s := PrintClock(hour, minute);
            ClockShape(s) && Number(s[0..2]) == hour && Number(s[3..5]) == minute
  {
    assert Pow10(2) == 100;
    NumberPadded(hour, 2);
    NumberPadded(minute, 2);
    var s := PrintClock(hour, minute);
    assert s[0..2] == Padded(hour, 2) && s[3..5] == Padded(minute, 2);
  }

  lemma ReadMinute(c: Civil)
    requires Valid(c) && 0 <= c.year <= 9999
    ensures MinuteShape(PrintMinute(c)) && MinuteFields(PrintMinute(c)) == c.(second := 0)
  {
    ReadDate(c.year, c.month, c.day);
    ReadClock(c.hour, c.minute);
    var s := PrintMinute(c);
    assert s[..11] == PrintDate(c.year, c.month, c.day) && s[11..] == PrintClock(c.hour, c.minute);
  }

  /** The capture groups of the license pattern: the shared part, seconds, and a literal UTC. */
  function LicenseFields(s: string): (c: Option<Civil>)
    ensures c.Some? ==> |s| == 22 && NoneNegative(c.value)
  {
    if |s| == 22 && MinuteShape(s[..16]) && s[16] == ':' && AllDigits(s[17..19]) && s[19..] == "UTC"
    then Some(MinuteFields(s[..16]).(second := Number(s[17..19])))
    else None
  }

  /** The capture groups of the certificate pattern: seconds are optional, and Z ends it. */
  function ExpiryFields(s: string): (c: Option<Civil>)
    ensures c.Some? ==> |s| in {17, 20} && NoneNegative(c.value)
  {
    if |s| == 17 && MinuteShape(s[..16]) && s[16..] == "Z" then Some(MinuteFields(s[..16]))
    else if |s| == 20 && MinuteShape(s[..16]) && s[16] == ':' && AllDigits(s[17..19]) && s[19..] == "Z"
    then Some(MinuteFields(s[..16]).(second := Number(s[17..19])))
    else None
  }

  // ---------------------------------------------------------------- parsing

  /** What `new Date` makes of matched fields: a time value in milliseconds, or an invalid date. */
  type Engine = Civil -> Option<int>

  /** Right about real instants of the years 0 to 9999, anything elsewhere. */
  ghost predicate Conforming(engine: Engine)
  {
    forall c: Civil :: Valid(c) && 0 <= c.year <= 9999 ==> engine(c) == Some(1000 * SecondsOf(c))
  }

  /** The round-trip check on the engine's answer. */
  function Checked(engine: Engine, fields: Option<Civil>): Option<int>
  {
    if fields.None? then None
    else
      var date := engine(fields.value);
      if date.Some? && CivilOf(date.value / 1000) == fields.value then date else None
  }

  function ParseLicenseTimestamp(engine: Engine, s: string): Option<int> { Checked(engine, LicenseFields(s)) }

  function ParseCertificateExpiry(engine: Engine, s: string): Option<int> { Checked(engine, ExpiryFields(s)) }

  /** The check keeps an answer exactly when the fields name a real instant, and then it is that instant. */
  lemma CheckedIff(engine: Engine, c: Civil)
    requires Conforming(engine) && 0 <= c.year <= 9999
    ensures Checked(engine, Some(c)).Some? <==> Valid(c)
    ensures Valid(c) ==> Checked(engine, Some(c)) == Some(1000 * SecondsOf(c)) && CivilOf(1000 * SecondsOf(c) / 1000) == c
  {
    if Valid(c) {
      ComponentsRoundTrip(c);
      assert 1000 * SecondsOf(c) / 1000 == SecondsOf(c);
    }
  }

  function PrintLicense(c: Civil): string
    requires Valid(c) && 0 <= c.year
  {
    PrintMinute(c) + ":" + Padded(c.second, 2) + "UTC"
  }

  function PrintExpiry(c: Civil, withSeconds: bool): string
    requires Valid(c) && 0 <= c.year
  {
    PrintMinute(c) + (if withSeconds then ":" + Padded(c.second, 2) else "") + "Z"
  }

  lemma LicenseFieldsPrint(s: string)
    requires LicenseFields(s).Some? && Valid(LicenseFields(s).value)
    ensures PrintLicense(LicenseFields(s).value) == s && LicenseFields(s).value.year <= 9999
  {
    PrintedMinute(s[..16]);
    PaddedNumber(s[17..19]);
    assert s == s[..16] + [s[16]] + s[17..19] + s[19..];
  }

  lemma ExpiryFieldsPrint(s: string)
    requires ExpiryFields(s).Some? && Valid(ExpiryFields(s).value)
    ensures PrintExpiry(ExpiryFields(s).value, |s| == 20) == s && ExpiryFields(s).value.year <= 9999
  {
    PrintedMinute(s[..16]);
    if |s| == 20 {
      FieldIsPrinted(s, 17, 19);
      ExpiryOfFields(s, s[..16], Padded(Number(s[17..19]), 2));
    } else {
      ShortExpiryOfFields(s, s[..16]);
    }
  }

  lemma ExpiryOfFields(s: string, minute: string, second: string)
    requires |s| == 20 && minute == s[..16] && second == s[17..19] && s[16] == ':' && s[19] == 'Z'
    ensures minute + (":" + second) + "Z" == s
  {
  }

  lemma ShortExpiryOfFields(s: string, minute: string)
    requires |s| == 17 && minute == s[..16] && s[16] == 'Z'
    ensures minute + "" + "Z" == s
  {
  }

  lemma YearHasFourDigits(s: string)
    requires MinuteShape(s)
    ensures MinuteFields(s).year <= 9999
  {
    PrintedMinute(s);
  }

  /**
   * A license timestamp is accepted exactly when it has the shape and its
   * fields name a real UTC instant; the result is that instant, and printing
   * its components gives the input back.
   */
  lemma LicenseTimestampIff(engine: Engine, s: string)
    requires Conforming(engine)
    ensures ParseLicenseTimestamp(engine, s).Some? <==> LicenseFields(s).Some? && Valid(LicenseFields(s).value)
    ensures ParseLicenseTimestamp(engine, s).Some? ==>
              var c := CivilOf(ParseLicenseTimestamp(engine, s).value / 1000);
              ParseLicenseTimestamp(engine, s).value == 1000 * SecondsOf(c) && 0 <= c.year && PrintLicense(c) == s
  {
    if LicenseFields(s).Some? {
      YearHasFourDigits(s[..16]);
      CheckedIff(engine, LicenseFields(s).value);
      if Valid(LicenseFields(s).value) {
        LicenseFieldsPrint(s);
      }
    }
  }

  /** The same for a certificate expiry, with or without seconds. */
  lemma CertificateExpiryIff(engine: Engine, s: string)
    requires Conforming(engine)
    ensures ParseCertificateExpiry(engine, s).Some? <==> ExpiryFields(s).Some? && Valid(ExpiryFields(s).value)
    ensures ParseCertificateExpiry(engine, s).Some? ==>
              var c := CivilOf(ParseCertificateExpiry(engine, s).value / 1000);
              ParseCertificateExpiry(engine, s).value == 1000 * SecondsOf(c) && 0 <= c.year && PrintExpiry(c, |s| == 20) == s
  {
    if ExpiryFields(s).Some? {
      YearHasFourDigits(s[..16]);
      CheckedIff(engine, ExpiryFields(s).value);
      if Valid(ExpiryFields(s).value) {
        ExpiryFieldsPrint(s);
      }
    }
  }

  /** Conversely every real instant of the years 0 to 9999, printed, parses to itself. */
  lemma PrintedLicenseParses(engine: Engine, c: Civil)
    requires Conforming(engine) && Valid(c) && 0 <= c.year <= 9999
    ensures ParseLicenseTimestamp(engine, PrintLicense(c)) == Some(1000 * SecondsOf(c))
  {
    ReadMinute(c);
    assert Pow10(2) == 100;
    NumberPadded(c.second, 2);
    CheckedIff(engine, c);
    var s := PrintLicense(c);
    assert s[..16] == PrintMinute(c) && s[17..19] == Padded(c.second, 2) && s[19..] == "UTC";
    assert LicenseFields(s) == Some(c);
  }

  lemma PrintedExpiryParses(engine: Engine, c: Civil, withSeconds: bool)
    requires Conforming(engine) && Valid(c) && 0 <= c.year <= 9999 && (withSeconds || c.second == 0)
    ensures ParseCertificateExpiry(engine, PrintExpiry(c, withSeconds)) == Some(1000 * SecondsOf(c))
  {
    ReadMinute(c);
    assert Pow10(2) == 100;
    NumberPadded(c.second, 2);
    CheckedIff(engine, c);
    var s := PrintExpiry(c, withSeconds);
    assert s[..16] == PrintMinute(c);
    if withSeconds {
      assert s[17..19] == Padded(c.second, 2) && s[19..] == "Z";
    } else {
      assert s[16..] == "Z";
    }
    assert ExpiryFields(s) == Some(c);
  }
}
