/** UTC calendar arithmetic as section 21.4.1 of ECMA-262 defines it, on whole seconds since the epoch. */
module Calendar {

  /** The components of an instant, months and days counted from 1. */
  datatype Civil = Civil(year: int, month: int, day: int, hour: int, minute: int, second: int)

  /** Day number of the first of January. */
  function DayFromYear(y: int): int
  {
    365 * (y - 1970) + (y - 1969) / 4 - (y - 1901) / 100 + (y - 1601) / 400
  }

  predicate IsLeap(y: int) { y % 4 == 0 && (y % 100 != 0 || y % 400 == 0) }

  function DaysInYear(y: int): int { if IsLeap(y) then 366 else 365 }

  lemma YearLength(y: int)
    ensures DayFromYear(y + 1) - DayFromYear(y) == DaysInYear(y)
  {
    DivStep(y - 1969, 4);
    DivStep(y - 1901, 100);
    DivStep(y - 1601, 400);
  }

  lemma DivStep(a: int, n: int)
    requires n > 0
    ensures (a + 1) / n == a / n + if (a + 1) % n == 0 then 1 else 0
  {
    var q, r := a / n, a % n;
    assert a == q * n + r && 0 <= r < n;
    if r == n - 1 {
      assert a + 1 == (q + 1) * n + 0;
      DivUnique(a + 1, n, q + 1, 0);
    } else {
      DivUnique(a + 1, n, q, r + 1);
    }
  }

  lemma DivUnique(a: int, n: int, q: int, r: int)
    requires n > 0 && a == q * n + r && 0 <= r < n
    ensures a / n == q && a % n == r
  {
    var d := a / n - q;
    assert d * n == r - a % n by {
      assert a == (a / n) * n + a % n;
      assert (a / n - q) * n == (a / n) * n - q * n;
    }
    MultipleIsFar(d, n);
  }

  lemma MultipleIsFar(d: int, n: int)
    requires n > 0
    ensures d > 0 ==> d * n >= n
    ensures d < 0 ==> d * n <= -n
  {
  }

  function DaysInMonth(y: int, m: int): int
    requires 1 <= m <= 12
  {
    if m == 2 then (if IsLeap(y) then 29 else 28) else if m == 4 || m == 6 || m == 9 || m == 11 then 30 else 31
  }

  /** Days of the year before month m. */
  function DaysBefore(y: int, m: int): (d: int)
    requires 1 <= m <= 13
    ensures d >= 0
  {
    if m == 1 then 0 else DaysBefore(y, m - 1) + DaysInMonth(y, m - 1)
  }

  lemma MonthsFillTheYear(y: int)
    ensures DaysBefore(y, 13) == DaysInYear(y)
  {
    var leap := if IsLeap(y) then 1 else 0;
    assert DaysBefore(y, 2) == 31;
    assert DaysBefore(y, 3) == 59 + leap;
    assert DaysBefore(y, 4) == 90 + leap;
    assert DaysBefore(y, 5) == 120 + leap;
    assert DaysBefore(y, 6) == 151 + leap;
    assert DaysBefore(y, 7) == 181 + leap;
    assert DaysBefore(y, 8) == 212 + leap;
    assert DaysBefore(y, 9) == 243 + leap;
    assert DaysBefore(y, 10) == 273 + leap;
    assert DaysBefore(y, 11) == 304 + leap;
    assert DaysBefore(y, 12) == 334 + leap;
  }

  predicate ValidDate(c: Civil) { 1 <= c.month <= 12 && 1 <= c.day <= DaysInMonth(c.year, c.month) }

  predicate ValidTime(c: Civil) { 0 <= c.hour < 24 && 0 <= c.minute < 60 && 0 <= c.second < 60 }

  /** The components name a real instant. */
  predicate Valid(c: Civil) { ValidDate(c) && ValidTime(c) }

  /** Components to instant: MakeDate(MakeDay, MakeTime). */
  function SecondsOf(c: Civil): int
    requires 1 <= c.month <= 12
  {
    (DayFromYear(c.year) + DaysBefore(c.year, c.month) + c.day - 1) * 86400 + c.hour * 3600 + c.minute * 60 + c.second
  }

  // -------------------------------------------------- instant to components

  /** Searches forward from a year that does not start later. */
  function YearFrom(day: int, y: int): (r: int)
    requires DayFromYear(y) <= day
    ensures DayFromYear(r) <= day < DayFromYear(r + 1)
    decreases day - DayFromYear(y)
  {
    YearLength(y);
    if day < DayFromYear(y + 1) then y else YearFrom(day, y + 1)
  }

  lemma DayFromYearOfEra(era: int)
    ensures DayFromYear(1970 + 400 * era) == 146097 * era
  {
    DivUnique(1 + 400 * era, 4, 100 * era, 1);
    DivUnique(69 + 400 * era, 100, 4 * era, 69);
    DivUnique(369 + 400 * era, 400, era, 369);
  }

  /** The year a day falls in: the one with DayFromYear(y) <= day < DayFromYear(y + 1). */
  function YearFromDay(day: int): (y: int)
    ensures DayFromYear(y) <= day < DayFromYear(y + 1)
  {
    var era := day / 146097;
    DayFromYearOfEra(era);
    YearFrom(day, 1970 + 400 * era)
  }

  /** The month a day of the year falls in, searching from month m. */
  function MonthFrom(y: int, dayInYear: int, m: int): (r: int)
    requires 1 <= m <= 12 && DaysBefore(y, m) <= dayInYear < DaysInYear(y)
    ensures m <= r <= 12 && DaysBefore(y, r) <= dayInYear < DaysBefore(y, r + 1)
    decreases 12 - m
  {
    MonthsFillTheYear(y);
    if dayInYear < DaysBefore(y, m + 1) then m else MonthFrom(y, dayInYear, m + 1)
  }

  function CivilOf(seconds: int): (c: Civil)
    ensures Valid(c)
  {
    var day, time := seconds / 86400, seconds % 86400;
    var y := YearFromDay(day);
    YearLength(y);
    var dayInYear := day - DayFromYear(y);
    var m := MonthFrom(y, dayInYear, 1);
    Civil(y, m, dayInYear - DaysBefore(y, m) + 1, time / 3600, time % 3600 / 60, time % 60)
  }

  // ---------------------------------------------------------------- inverse

  /** Every instant is the instant its components name. */
  lemma InstantRoundTrip(seconds: int)
    ensures SecondsOf(CivilOf(seconds)) == seconds
  {
    var time := seconds % 86400;
    assert time == time / 3600 * 3600 + time % 3600;
    assert time % 3600 == time % 3600 / 60 * 60 + time % 3600 % 60;
    DivUnique(time, 60, time / 3600 * 60 + time % 3600 / 60, time % 3600 % 60);
  }

  lemma {:induction false} YearsAscend(y: int, z: int)
    requires y <= z
    ensures DayFromYear(y) <= DayFromYear(z)
    ensures y < z ==> DayFromYear(y + 1) <= DayFromYear(z)
    decreases z - y
  {
    if y < z {
      YearsAscend(y + 1, z);
      YearLength(y);
    }
  }

  lemma {:induction false} MonthsAscend(y: int, m: int, n: int)
    requires 1 <= m <= n <= 13
    ensures DaysBefore(y, m) <= DaysBefore(y, n)
    ensures m < n ==> DaysBefore(y, m + 1) <= DaysBefore(y, n)
    decreases n - m
  {
    if m < n {
      MonthsAscend(y, m, n - 1);
    }
  }

  /** Components of a real instant are the components of the instant they name. */
  lemma ComponentsRoundTrip(c: Civil)
    requires Valid(c)
    ensures CivilOf(SecondsOf(c)) == c
  {
    var s := SecondsOf(c);
    var day := DayFromYear(c.year) + DaysBefore(c.year, c.month) + c.day - 1;
    var time := c.hour * 3600 + c.minute * 60 + c.second;
    assert 0 <= time < 86400;
    DivUnique(s, 86400, day, time);
    DayDeterminesDate(c.year, c.month, c.day, CivilOf(s));
    DivUnique(time, 3600, c.hour, c.minute * 60 + c.second);
    DivUnique(time % 3600, 60, c.minute, c.second);
    DivUnique(time, 60, c.hour * 60 + c.minute, c.second);
  }

  lemma DayDeterminesDate(y: int, m: int, d: int, c: Civil)
    requires 1 <= m <= 12 && 1 <= d <= DaysInMonth(y, m) && ValidDate(c)
    requires DayFromYear(y) + DaysBefore(y, m) + d == DayFromYear(c.year) + DaysBefore(c.year, c.month) + c.day
    ensures y == c.year && m == c.month && d == c.day
  {
    DateWithinYear(y, m, d);
    DateWithinYear(c.year, c.month, c.day);
    if y < c.year {
      YearsAscend(y, c.year);
    } else if c.year < y {
      YearsAscend(c.year, y);
    } else if m < c.month {
      MonthsAscend(y, m, c.month);
    } else if c.month < m {
      MonthsAscend(y, c.month, m);
    }
  }

  lemma DateWithinYear(y: int, m: int, d: int)
    requires 1 <= m <= 12 && 1 <= d <= DaysInMonth(y, m)
    ensures DayFromYear(y) <= DayFromYear(y) + DaysBefore(y, m) + d - 1 < DayFromYear(y + 1)
  {
    MonthsAscend(y, m, 13);
    MonthsFillTheYear(y);
    YearLength(y);
  }
}
