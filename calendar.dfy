/**
 * The proleptic Gregorian calendar as Python's `datetime.date` counts it:
 * day 1 is 0001-01-01, a Monday. Holds the ordinal arithmetic behind
 * `date.fromordinal`, ISO 8601 week numbering, the day arithmetic that
 * `strptime` performs for the `%G-%V-%u` directives, and `%Y-%m-%d` text.
 */
module Calendar {
  import opened Wrappers
  import opened Decimal

  predicate IsLeap(y: int)
  {
    y % 4 == 0 && (y % 100 != 0 || y % 400 == 0)
  }

  function DaysInYear(y: int): int
  {
    if IsLeap(y) then 366 else 365
  }

  function DaysInMonth(y: int, m: int): (n: int)
    requires 1 <= m <= 12
    ensures 28 <= n <= 31
  {
    if m == 2 then (if IsLeap(y) then 29 else 28)
    else if m == 4 || m == 6 || m == 9 || m == 11 then 30
    else 31
  }

  /** Days before January 1 of year `y`, counted from 0001-01-01. */
  function DaysBeforeYear(y: int): int
    requires y >= 1
  {
    var p := y - 1;
    p * 365 + p / 4 - p / 100 + p / 400
  }

  lemma DaysBeforeNextYear(y: int)
    requires y >= 1
    ensures DaysBeforeYear(y + 1) == DaysBeforeYear(y) + DaysInYear(y)
  {
    var p := y - 1;
    assert (p + 1) / 4 == p / 4 + (if y % 4 == 0 then 1 else 0);
    assert (p + 1) / 100 == p / 100 + (if y % 100 == 0 then 1 else 0);
    assert (p + 1) / 400 == p / 400 + (if y % 400 == 0 then 1 else 0);
  }

  /**
   * Days of year `y` before the first of month `m`; `m == 13` stands for
   * the end of the year.
   */
  function DaysBeforeMonth(y: int, m: int): int
    requires 1 <= m <= 13
  {
    [0, 0, 31, 59, 90, 120, 151, 181, 212, 243, 273, 304, 334, 365][m] + (if m > 2 && IsLeap(y) then 1 else 0)
  }

  lemma MonthStep(y: int, m: int)
    requires 1 <= m <= 12
    ensures DaysBeforeMonth(y, m + 1) == DaysBeforeMonth(y, m) + DaysInMonth(y, m)
    ensures DaysBeforeMonth(y, 13) == DaysInYear(y)
  {
  }

  datatype Date = Date(year: int, month: int, day: int)

  predicate ValidDate(d: Date)
  {
    1 <= d.year && 1 <= d.month <= 12 && 1 <= d.day <= DaysInMonth(d.year, d.month)
  }

  /** `date.toordinal()`. */
  function Ordinal(d: Date): (n: int)
    requires ValidDate(d)
    ensures DaysBeforeYear(d.year) < n <= DaysBeforeYear(d.year) + DaysInYear(d.year)
  {
    MonthEnds(d.year, d.month);
    DaysBeforeYear(d.year) + DaysBeforeMonth(d.year, d.month) + d.day
  }

  lemma {:induction false} MonthEnds(y: int, m: int)
    requires 1 <= m <= 12
    ensures DaysBeforeMonth(y, m) + DaysInMonth(y, m) <= DaysInYear(y)
    decreases 12 - m
  {
    MonthStep(y, m);
    if m < 12 {
      MonthEnds(y, m + 1);
    }
  }

  /** The year holding day `n`, searched upward from year `y`. */
  function YearOf(n: int, y: int): (r: int)
    requires 1 <= y && DaysBeforeYear(y) < n
    ensures y <= r && DaysBeforeYear(r) < n <= DaysBeforeYear(r) + DaysInYear(r)
    decreases n - DaysBeforeYear(y)
  {
    DaysBeforeNextYear(y);
    if n <= DaysBeforeYear(y) + DaysInYear(y) then y else YearOf(n, y + 1)
  }

  /** The month of year `y` holding its day `day`, searched upward from month `m`. */
  function MonthOf(y: int, day: int, m: int): (r: int)
    requires 1 <= m <= 12 && DaysBeforeMonth(y, m) < day <= DaysInYear(y)
    ensures m <= r <= 12 && DaysBeforeMonth(y, r) < day <= DaysBeforeMonth(y, r) + DaysInMonth(y, r)
    decreases 12 - m
  {
    MonthStep(y, m);
    if day <= DaysBeforeMonth(y, m) + DaysInMonth(y, m) then m else MonthOf(y, day, m + 1)
  }

  /** `date.fromordinal(n)`: the valid date whose ordinal is `n`. */
  function FromOrdinal(n: int): (d: Date)
    requires n >= 1
    ensures ValidDate(d) && Ordinal(d) == n
  {
    var y := YearOf(n, 1);
    var day := n - DaysBeforeYear(y);
    var m := MonthOf(y, day, 1);
    Date(y, m, day - DaysBeforeMonth(y, m))
  }

  /** Later years start after every day of an earlier year. */
  lemma {:induction false} YearsAscend(y: int, z: int)
    requires 1 <= y < z
    ensures DaysBeforeYear(y) + DaysInYear(y) <= DaysBeforeYear(z)
    decreases z - y
  {
    DaysBeforeNextYear(y);
    if y + 1 < z {
      YearsAscend(y + 1, z);
      DaysBeforeNextYear(y + 1);
    }
  }

  /** Later months start after every day of an earlier month. */
  lemma {:induction false} MonthsAscend(y: int, m: int, k: int)
    requires 1 <= m < k <= 12
    ensures DaysBeforeMonth(y, m) + DaysInMonth(y, m) <= DaysBeforeMonth(y, k)
    decreases k - m
  {
    MonthStep(y, m);
    if m + 1 < k {
      MonthsAscend(y, m + 1, k);
    }
  }

  /** Every valid date is the date of its own ordinal: `fromordinal` inverts `toordinal`. */
  lemma FromOrdinalRoundTrip(d: Date)
    requires ValidDate(d)
    ensures FromOrdinal(Ordinal(d)) == d
  {
    var n := Ordinal(d);
    var e := FromOrdinal(n);
    if e.year < d.year {
      YearsAscend(e.year, d.year);
    } else if d.year < e.year {
      YearsAscend(d.year, e.year);
    }
    assert e.year == d.year;
    if e.month < d.month {
      MonthsAscend(d.year, e.month, d.month);
    } else if d.month < e.month {
      MonthsAscend(d.year, d.month, e.month);
    }
  }

  /** `date.weekday()` of day `n`: Monday is 0, Sunday 6. */
  function Weekday(n: int): (w: int)
    ensures 0 <= w < 7
  {
    (n + 6) % 7
  }

  /** Moving `b` days on moves the weekday on by `b`, modulo 7. */
  lemma WeekdayAdd(a: int, b: int)
    ensures Weekday(a + b) == (Weekday(a) + b) % 7
  {
    var q := (a + 6) / 7;
    assert a + 6 == 7 * q + Weekday(a);
    assert a + b + 6 == 7 * q + (Weekday(a) + b);
  }

  /**
   * The Monday of ISO week 1 of year `y`: the Monday on or before
   * January 4, so that week 1 is the week holding the year's first
   * Thursday (section 4.1.4.2 of ISO 8601-1:2019).
   */
  function IsoWeek1Monday(y: int): (n: int)
    requires y >= 1
    ensures Weekday(n) == 0
    ensures Ordinal(Date(y, 1, 4)) - 6 <= n <= Ordinal(Date(y, 1, 4))
  {
    var jan4 := Ordinal(Date(y, 1, 4));
    WeekdayAdd(jan4, -Weekday(jan4));
    jan4 - Weekday(jan4)
  }

  /** ISO year `y` runs from its week-1 Monday up to the next year's: 52 or 53 whole weeks. */
  lemma IsoYearLength(y: int)
    requires y >= 1
    ensures IsoWeek1Monday(y + 1) - IsoWeek1Monday(y) == 364 || IsoWeek1Monday(y + 1) - IsoWeek1Monday(y) == 371
  {
    DaysBeforeNextYear(y);
    var jan4 := Ordinal(Date(y, 1, 4));
    var days := DaysInYear(y);
    assert Ordinal(Date(y + 1, 1, 4)) == jan4 + days;
    assert IsoWeek1Monday(y) == jan4 - Weekday(jan4);
    assert IsoWeek1Monday(y + 1) == jan4 + days - Weekday(jan4 + days);
    WeekdayAdd(jan4, days);
    WeekShift(Weekday(jan4), days);
  }

  /** A year of 365 or 366 days moves a weekday `w` on so that whole weeks span 364 or 371 days. */
  lemma WeekShift(w: int, days: int)
    requires 0 <= w < 7 && 365 <= days <= 366
    ensures days + w - (w + days) % 7 == 364 || days + w - (w + days) % 7 == 371
  {
    var q := (w + days) / 7;
    assert w + days == 7 * q + (w + days) % 7;
    assert 52 <= q <= 53;
  }

  function WeeksInYear(y: int): (w: int)
    requires y >= 1
    ensures w == 52 || w == 53
    ensures IsoWeek1Monday(y) + 7 * w == IsoWeek1Monday(y + 1)
  {
    IsoYearLength(y);
    (IsoWeek1Monday(y + 1) - IsoWeek1Monday(y)) / 7
  }

  /** Day `n` is ISO weekday `wd` (Monday 1) of week `w` of ISO year `y`. */
  predicate IsIsoWeekDate(n: int, y: int, w: int, wd: int)
  {
    && y >= 1
    && IsoWeek1Monday(y) <= n < IsoWeek1Monday(y + 1)
    && 1 <= w && 1 <= wd <= 7
    && n == IsoWeek1Monday(y) + 7 * (w - 1) + (wd - 1)
  }

  /** Python's `date.isoweekday()`: Monday is 1, Sunday 7. */
  function IsoWeekday(n: int): int
  {
    Weekday(n) + 1
  }

  /**
   * `_calc_julian_from_V`: the calendar year and day of that year (1 for
   * January 1) of ISO weekday `wd` of week `w` of ISO year `y`. A day that
   * falls before January 1 of `y` is moved into the previous year.
   */
  function CalcJulianFromV(y: int, w: int, wd: int): (yd: (int, int))
    requires y >= 2
    ensures yd.0 == y || yd.0 == y - 1
    ensures JulianOrdinal(yd) == IsoWeek1Monday(y) + 7 * (w - 1) + (wd - 1)
    ensures yd.0 == y - 1 <==> JulianOrdinal(yd) < Ordinal(Date(y, 1, 1))
  {
    var correction := IsoWeekday(Ordinal(Date(y, 1, 4))) + 3;
    var ordinal := w * 7 + wd - correction;
    if ordinal < 1 then
      var shifted := ordinal + Ordinal(Date(y, 1, 1));
      (y - 1, shifted - Ordinal(Date(y - 1, 1, 1)))
    else
      (y, ordinal)
  }

  /** Day number of the day `CalcJulianFromV` names. */
  function JulianOrdinal(yd: (int, int)): int
    requires yd.0 >= 1
  {
    yd.1 - 1 + Ordinal(Date(yd.0, 1, 1))
  }

  /**
   * The date `strptime(f'{y}-{w}-1', '%G-%V-%u').date()` returns: the
   * Monday of week `w` of ISO year `y`, counted on from that year's
   * week-1 Monday.
   */
  function StrptimeIsoMonday(y: int, w: int): (d: Date)
    requires y >= 2 && w >= 1
    ensures ValidDate(d) && Ordinal(d) == IsoWeek1Monday(y) + 7 * (w - 1)
  {
    var yd := CalcJulianFromV(y, w, 1);
    var n := JulianOrdinal(yd);
    assert n == IsoWeek1Monday(y) + 7 * (w - 1);
    DaysBeforeNextYear(1);
    FromOrdinal(n)
  }

  /**
   * The date is a Monday; for a week the ISO year has, that Monday lies in
   * the requested week of the requested ISO year.
   */
  lemma StrptimeIsoWeek(y: int, w: int)
    requires y >= 2 && 1 <= w
    ensures Weekday(Ordinal(StrptimeIsoMonday(y, w))) == 0
    ensures w <= WeeksInYear(y) ==> IsIsoWeekDate(Ordinal(StrptimeIsoMonday(y, w)), y, w, 1)
  {
    var m := IsoWeek1Monday(y);
    WeeklyMondays(m, w - 1);
  }

  lemma WeeklyMondays(m: int, k: int)
    requires Weekday(m) == 0 && k >= 0
    ensures Weekday(m + 7 * k) == 0
  {
    WeekdayAdd(m, 7 * k);
    assert (7 * k) % 7 == 0;
  }

  /** Week 53 of a year with 52 weeks is counted on into week 1 of the next ISO year. */
  lemma StrptimeWeek53Overflow(y: int)
    requires y >= 2 && WeeksInYear(y) == 52
    ensures IsIsoWeekDate(Ordinal(StrptimeIsoMonday(y, 53)), y + 1, 1, 1)
  {
    IsoYearLength(y + 1);
  }

  /** `strftime('%Y-%m-%d')` for a four-digit year. */
  function FormatDate(d: Date): (s: string)
    requires ValidDate(d) && 1000 <= d.year <= 9999
    ensures |s| == 10 && s[4] == '-' && s[7] == '-'
  {
    FourDigitYear(d.year);
    NatToString(d.year) + "-" + TwoDigits(d.month) + "-" + TwoDigits(d.day)
  }

  lemma FourDigitYear(y: int)
    requires 1000 <= y <= 9999
    ensures |NatToString(y)| == 4
  {
    assert |NatToString(y / 1000)| == 1;
    assert |NatToString(y / 100)| == 2;
    assert |NatToString(y / 10)| == 3;
  }

  /** Reads `YYYY-MM-DD` text. */
  function ParseDate(s: string): Option<Date>
  {
    if |s| == 10 && s[4] == '-' && s[7] == '-' && AllDigits(s[..4]) && AllDigits(s[5..7]) && AllDigits(s[8..]) then
      Some(Date(DigitsValue(s[..4]), DigitsValue(s[5..7]), DigitsValue(s[8..])))
    else
      None
  }

  lemma FormatDateRoundTrip(d: Date)
    requires ValidDate(d) && 1000 <= d.year <= 9999
    ensures ParseDate(FormatDate(d)) == Some(d)
  {
    FourDigitYear(d.year);
    var s := FormatDate(d);
    assert s[..4] == NatToString(d.year);
    assert s[5..7] == TwoDigits(d.month);
    assert s[8..] == TwoDigits(d.day);
  }
}
