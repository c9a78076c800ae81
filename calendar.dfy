/**
 * The part of Python's datetime that the reminder commands use:
 * datetime.strptime(date + " " + time, "%Y-%m-%d %H:%M") on inputs that
 * passed the shape checks, arithmetic with timedelta(hours=...), the range
 * of datetime (years 1 to 9999), and strftime("%Y-%m-%d %H:%M").
 *
 * An instant is an integer count of seconds since 0001-01-01T00:00:00, the
 * smallest datetime; the proleptic Gregorian calendar maps it to a date.
 */
module Calendar {
  import opened Wrappers
  import opened Strings
  import Helpers

  predicate IsLeap(y: int) { y % 4 == 0 && (y % 100 != 0 || y % 400 == 0) }

  function DaysInYear(y: int): int { if IsLeap(y) then 366 else 365 }

  function DaysInMonth(y: int, m: int): (n: int)
    requires 1 <= m <= 12
    ensures 28 <= n <= 31
  {
    if m == 2 then (if IsLeap(y) then 29 else 28)
    else if m == 4 || m == 6 || m == 9 || m == 11 then 30
    else 31
  }

  /** Days of the year before the first of month m, as CPython's table has them. */
  function DaysBeforeMonth(y: int, m: int): (n: int)
    requires 1 <= m <= 12
    ensures 0 <= n && n + DaysInMonth(y, m) <= DaysInYear(y)
    ensures m == 12 ==> n + DaysInMonth(y, m) == DaysInYear(y)
  {
    [0, 31, 59, 90, 120, 151, 181, 212, 243, 273, 304, 334][m - 1] +
    (if m > 2 && IsLeap(y) then 1 else 0)
  }

  lemma DaysBeforeMonthStep(y: int, m: int)
    requires 1 <= m < 12
    ensures DaysBeforeMonth(y, m + 1) == DaysBeforeMonth(y, m) + DaysInMonth(y, m)
  {
  }

  lemma {:induction false} DaysBeforeMonthGrows(y: int, a: int, b: int)
    requires 1 <= a < b <= 12
    ensures DaysBeforeMonth(y, b) >= DaysBeforeMonth(y, a) + DaysInMonth(y, a)
    decreases b - a
  {
    DaysBeforeMonthStep(y, a);
    if a + 1 < b {
      DaysBeforeMonthGrows(y, a + 1, b);
    }
  }

  /** Days before January 1 of year y, counted from January 1 of year 1 (_days_before_year). */
  function DaysBeforeYear(y: int): nat
    requires y >= 1
  {
    var p := y - 1;
    p * 365 + p / 4 - p / 100 + p / 400
  }

  /** Each year adds its own length. */
  lemma DaysBeforeYearStep(y: int)
    requires y >= 1
    ensures DaysBeforeYear(y + 1) == DaysBeforeYear(y) + DaysInYear(y)
  {
    DivStep4(y);
    DivStep100(y);
    DivStep400(y);
    DivisorChain(y);
  }

  lemma DivisorChain(y: int)
    ensures y % 400 == 0 ==> y % 100 == 0
    ensures y % 100 == 0 ==> y % 4 == 0
  {
  }

  /** Counting multiples of 4, 100 and 400: y adds one exactly when it is such a multiple. */
  lemma DivStep4(y: int)
    ensures y / 4 == (y - 1) / 4 + (if y % 4 == 0 then 1 else 0)
  {
  }

  lemma DivStep100(y: int)
    ensures y / 100 == (y - 1) / 100 + (if y % 100 == 0 then 1 else 0)
  {
  }

  lemma DivStep400(y: int)
    ensures y / 400 == (y - 1) / 400 + (if y % 400 == 0 then 1 else 0)
  {
  }

  lemma {:induction false} DaysBeforeYearGrows(a: int, b: int)
    requires 1 <= a < b
    ensures DaysBeforeYear(b) >= DaysBeforeYear(a) + DaysInYear(a)
    decreases b - a
  {
    DaysBeforeYearStep(b - 1);
    if a + 1 < b {
      DaysBeforeYearGrows(a, b - 1);
    }
  }

  datatype DateTime = DateTime(year: int, month: int, day: int, hour: int, minute: int)

  /** The values a datetime can hold, at minute precision. */
  predicate ValidDateTime(dt: DateTime)
  {
    && 1 <= dt.year <= 9999
    && 1 <= dt.month <= 12
    && 1 <= dt.day <= DaysInMonth(dt.year, dt.month)
    && 0 <= dt.hour < 24
    && 0 <= dt.minute < 60
  }

  /** One past the last representable instant: datetime.max is the last second of 9999. */
  function InstantLimit(): nat { DaysBeforeYear(10000) * 86400 }

  predicate InRange(t: int) { 0 <= t < InstantLimit() }

  /** The day number of a date: 1 for 0001-01-01 (date.toordinal). */
  function Ordinal(y: int, m: int, d: int): int
    requires y >= 1 && 1 <= m <= 12
  {
    DaysBeforeYear(y) + DaysBeforeMonth(y, m) + d
  }

  function ToInstant(dt: DateTime): (t: int)
    requires ValidDateTime(dt)
    ensures InRange(t) && t % 60 == 0
  {
    var ord := Ordinal(dt.year, dt.month, dt.day);
    DaysBeforeYearGrows(dt.year, 10000);
    assert 1 <= ord <= DaysBeforeYear(10000);
    InstantBounds(ord - 1, dt.hour, dt.minute, DaysBeforeYear(10000));
    (ord - 1) * 86400 + dt.hour * 3600 + dt.minute * 60
  }

  /** The instant of a minute within one of the first limitDays days lies in range and is a whole minute. */
  lemma InstantBounds(days: int, h: int, mi: int, limitDays: int)
    requires 0 <= days < limitDays && 0 <= h < 24 && 0 <= mi < 60
    ensures var t := days * 86400 + h * 3600 + mi * 60;
      0 <= t < limitDays * 86400 && t % 60 == 0
  {
    var t := days * 86400 + h * 3600 + mi * 60;
    assert t == 60 * (days * 1440 + h * 60 + mi);
  }

  /** The year holding day number n, found by walking forward from year y; and the day within it. */
  function YearWalk(n: int, y: int): (r: (int, int))
    requires n >= 1 && y >= 1
    ensures r.0 >= y && 1 <= r.1 <= DaysInYear(r.0)
    ensures DaysBeforeYear(r.0) - DaysBeforeYear(y) + r.1 == n
    decreases n
  {
    if n <= DaysInYear(y) then (y, n)
    else
      DaysBeforeYearStep(y);
      YearWalk(n - DaysInYear(y), y + 1)
  }

  /** The month holding day k of year y, walking forward from month m; and the day within it. */
  function MonthWalk(y: int, k: int, m: int): (r: (int, int))
    requires 1 <= m <= 12 && 1 <= k <= DaysInYear(y) - DaysBeforeMonth(y, m)
    ensures m <= r.0 <= 12 && 1 <= r.1 <= DaysInMonth(y, r.0)
    ensures DaysBeforeMonth(y, r.0) - DaysBeforeMonth(y, m) + r.1 == k
    decreases 12 - m
  {
    if k <= DaysInMonth(y, m) then (m, k)
    else
      DaysBeforeMonthStep(y, m);
      MonthWalk(y, k - DaysInMonth(y, m), m + 1)
  }

  /**
   * The datetime an instant denotes, to the minute (strftime's "%H:%M" drops
   * the seconds).  Its instant is the input rounded down to the minute.
   */
  function FromInstant(t: int): (dt: DateTime)
    requires InRange(t)
    ensures ValidDateTime(dt)
    ensures ToInstant(dt) == t - t % 60
  {
    var ord := t / 86400 + 1;
    var sod := t % 86400;
    var (y, doy) := YearWalk(ord, 1);
    var (m, d) := MonthWalk(y, doy, 1);
    YearBelowLimit(y, doy);
    SecondsOfDay(t);
    DateTime(y, m, d, sod / 3600, (sod % 3600) / 60)
  }

  lemma YearBelowLimit(y: int, k: int)
    requires y >= 1 && k >= 1 && DaysBeforeYear(y) + k <= DaysBeforeYear(10000)
    ensures y < 10000
  {
    if y > 10000 { DaysBeforeYearGrows(10000, y); }
  }

  lemma SecondsOfDay(t: int)
    requires t >= 0
    ensures (t / 86400) * 86400 + (t % 86400) / 3600 * 3600 + ((t % 86400) % 3600) / 60 * 60 == t - t % 60
    ensures 0 <= (t % 86400) / 3600 < 24 && 0 <= ((t % 86400) % 3600) / 60 < 60
  {
  }

  lemma SameYear(y1: int, k1: int, y2: int, k2: int)
    requires y1 >= 1 && y2 >= 1
    requires 1 <= k1 <= DaysInYear(y1) && 1 <= k2 <= DaysInYear(y2)
    requires DaysBeforeYear(y1) + k1 == DaysBeforeYear(y2) + k2
    ensures y1 == y2 && k1 == k2
  {
    if y1 < y2 { DaysBeforeYearGrows(y1, y2); }
    if y2 < y1 { DaysBeforeYearGrows(y2, y1); }
  }

  lemma SameMonth(y: int, m1: int, d1: int, m2: int, d2: int)
    requires 1 <= m1 <= 12 && 1 <= m2 <= 12
    requires 1 <= d1 <= DaysInMonth(y, m1) && 1 <= d2 <= DaysInMonth(y, m2)
    requires DaysBeforeMonth(y, m1) + d1 == DaysBeforeMonth(y, m2) + d2
    ensures m1 == m2 && d1 == d2
  {
    if m1 < m2 { DaysBeforeMonthGrows(y, m1, m2); }
    if m2 < m1 { DaysBeforeMonthGrows(y, m2, m1); }
  }

  /** Every datetime is recovered from its instant. */
  lemma FromToInstant(dt: DateTime)
    requires ValidDateTime(dt)
    ensures FromInstant(ToInstant(dt)) == dt
  {
    var t := ToInstant(dt);
    var r := FromInstant(t);
    assert ToInstant(r) == t;
    SameYear(r.year, DaysBeforeMonth(r.year, r.month) + r.day, dt.year, DaysBeforeMonth(dt.year, dt.month) + dt.day);
    SameMonth(dt.year, r.month, r.day, dt.month, dt.day);
  }

  /** strftime("%Y-%m-%d %H:%M"), every field zero-filled to its width. */
  function FormatDateTime(dt: DateTime): (s: string)
    requires ValidDateTime(dt)
    ensures |s| == 16
  {
    Fixed(dt.year, 4) + "-" + Fixed(dt.month, 2) + "-" + Fixed(dt.day, 2) + " " +
    Fixed(dt.hour, 2) + ":" + Fixed(dt.minute, 2)
  }

  lemma DigitSlices(date: string, time: string)
    requires Helpers.ValidDateFormat(date) && Helpers.ValidTimeFormat(time)
    ensures AllDigits(date[..4]) && AllDigits(date[5..7]) && AllDigits(date[8..10])
    ensures AllDigits(time[..2]) && AllDigits(time[3..5])
  {
    assert date[..4] == [date[0], date[1], date[2], date[3]];
    assert date[5..7] == [date[5], date[6]];
    assert date[8..10] == [date[8], date[9]];
    assert time[..2] == [time[0], time[1]];
    assert time[3..5] == [time[3], time[4]];
  }

  /** The fields strptime reads from shape-checked input, before any range check. */
  function Fields(date: string, time: string): DateTime
    requires Helpers.ValidDateFormat(date) && Helpers.ValidTimeFormat(time)
  {
    DigitSlices(date, time);
    DateTime(DigitsValue(date[..4]), DigitsValue(date[5..7]), DigitsValue(date[8..10]),
             DigitsValue(time[..2]), DigitsValue(time[3..5]))
  }

  /**
   * datetime.strptime(date + " " + time, "%Y-%m-%d %H:%M") on a date and a
   * time of the checked shapes.  strptime's patterns take a month 01-12, a
   * day 01-31, an hour 00-23 and a minute 00-59; the space of the format
   * matches any run of whitespace, so a date ending in a newline still
   * parses, but nothing may follow the minutes, so a time ending in a
   * newline does not; datetime then refuses year 0 and a day past the end
   * of its month.  Each refusal is a ValueError, here None.
   */
  function Strptime(date: string, time: string): (r: Option<DateTime>)
    requires Helpers.ValidDateFormat(date) && Helpers.ValidTimeFormat(time)
    ensures r.Some? <==>
      |time| == 5 &&
      var f := Fields(date, time);
      1 <= f.year && 1 <= f.month <= 12 && 1 <= f.day <= DaysInMonth(f.year, f.month) &&
      f.hour <= 23 && f.minute <= 59
    ensures r.Some? ==> r.value == Fields(date, time) && ValidDateTime(r.value)
  {
    var f := Fields(date, time);
    DigitSlices(date, time);
    assert f.year < 10000;
    if |time| == 5 && 1 <= f.year && 1 <= f.month <= 12 && 1 <= f.day <= DaysInMonth(f.year, f.month)
       && f.hour <= 23 && f.minute <= 59
    then Some(f)
    else None
  }

  /** A well-shaped date with month 13 (such as 2025-13-01) does not parse: strptime raises ValueError. */
  lemma MonthThirteenRejected(date: string, time: string)
    requires Helpers.ValidDateFormat(date) && Helpers.ValidTimeFormat(time)
    requires date[5] == '1' && date[6] == '3'
    ensures Strptime(date, time) == None
  {
    DigitSlices(date, time);
    var mo := date[5..7];
    assert mo == [date[5], date[6]] && mo[..1] == [date[5]];
    assert DigitsValue(mo) == 13;
  }

  /** What strptime parsed, strftime writes back: the entered date and time, without a trailing newline. */
  lemma {:induction false} FormatParsed(date: string, time: string)
    requires Helpers.ValidDateFormat(date) && Helpers.ValidTimeFormat(time)
    requires Strptime(date, time).Some?
    ensures FormatDateTime(Strptime(date, time).value) == date[..10] + " " + time
  {
    DigitSlices(date, time);
    var f := Fields(date, time);
    assert Strptime(date, time).value == f;
    var y, mo, d, h, mi := date[..4], date[5..7], date[8..10], time[..2], time[3..5];
    FixedOfDigits(y);
    FixedOfDigits(mo);
    FixedOfDigits(d);
    FixedOfDigits(h);
    FixedOfDigits(mi);
    assert FormatDateTime(f) == y + "-" + mo + "-" + d + " " + h + ":" + mi;
    DateSlices(date);
    TimeSlices(time);
    Regroup(y + "-" + mo + "-" + d, h, mi);
  }

  lemma Regroup(date: string, h: string, mi: string)
    ensures date + " " + h + ":" + mi == date + " " + (h + ":" + mi)
  {
  }

  lemma DateSlices(date: string)
    requires Helpers.ValidDateFormat(date)
    ensures date[..10] == date[..4] + "-" + date[5..7] + "-" + date[8..10]
  {
    assert date[4] == '-' && date[7] == '-';
  }

  lemma TimeSlices(time: string)
    requires Helpers.ValidTimeFormat(time) && |time| == 5
    ensures time == time[..2] + ":" + time[3..5]
  {
    assert time[2] == ':';
  }

  /** The date and the time part of strftime's text, by slicing around the space. */
  lemma TextSlices(y: string, mo: string, d: string, h: string, mi: string)
    requires |y| == 4 && |mo| == 2 && |d| == 2 && |h| == 2 && |mi| == 2
    ensures var s := y + "-" + mo + "-" + d + " " + h + ":" + mi;
      s[..10] == y + "-" + mo + "-" + d && s[11..] == h + ":" + mi
  {
    var s := y + "-" + mo + "-" + d + " " + h + ":" + mi;
    assert s[..10] == y + "-" + mo + "-" + d;
    assert s[11..] == h + ":" + mi;
  }

  /** A four-digit, a two-digit and a two-digit field joined by dashes: the date shape, and its slices. */
  lemma DateText(y: string, mo: string, d: string)
    requires |y| == 4 && |mo| == 2 && |d| == 2 && AllDigits(y) && AllDigits(mo) && AllDigits(d)
    ensures var date := y + "-" + mo + "-" + d;
      Helpers.ValidDateFormat(date) && date[..4] == y && date[5..7] == mo && date[8..10] == d
  {
    var date := y + "-" + mo + "-" + d;
    assert date[..4] == y && date[5..7] == mo && date[8..10] == d;
    assert date[4] == '-' && date[7] == '-';
    assert forall i :: 0 <= i < 4 ==> date[i] == y[i];
    assert date[5] == mo[0] && date[6] == mo[1] && date[8] == d[0] && date[9] == d[1];
  }

  /** Two two-digit fields joined by a colon: the time shape, and its slices. */
  lemma TimeText(h: string, mi: string)
    requires |h| == 2 && |mi| == 2 && AllDigits(h) && AllDigits(mi)
    ensures var time := h + ":" + mi;
      Helpers.ValidTimeFormat(time) && |time| == 5 && time[..2] == h && time[3..5] == mi
  {
    var time := h + ":" + mi;
    assert time[..2] == h && time[3..5] == mi;
    assert time[0] == h[0] && time[1] == h[1] && time[2] == ':' && time[3] == mi[0] && time[4] == mi[1];
  }

  /** strftime's text of any datetime has the checked shapes and parses back to it. */
  lemma {:induction false} ParseFormatted(dt: DateTime)
    requires ValidDateTime(dt)
    ensures var s := FormatDateTime(dt);
      Helpers.ValidDateFormat(s[..10]) && Helpers.ValidTimeFormat(s[11..]) &&
      Strptime(s[..10], s[11..]) == Some(dt)
  {
    var s := FormatDateTime(dt);
    var y, mo, d, h, mi := Fixed(dt.year, 4), Fixed(dt.month, 2), Fixed(dt.day, 2), Fixed(dt.hour, 2), Fixed(dt.minute, 2);
    var date, time := s[..10], s[11..];
    TextSlices(y, mo, d, h, mi);
    DateText(y, mo, d);
    TimeText(h, mi);
    assert Fields(date, time) == dt;
  }
}
