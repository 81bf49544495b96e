/**
 * `convert_year_week_to_date` of `2_spotify_eda.py`: reads a `YYYY-WW`
 * week key and returns the `YYYY-MM-DD` date of the Monday of that ISO
 * week, or `None` for a key it rejects. Every `ValueError` the function
 * catches is a `None` here.
 */
module YearWeek {
  import opened Wrappers
  import opened Decimal
  import opened Calendar

  // ---- str.split ----

  function Count(s: string, c: char): nat
  {
    if s == [] then 0 else (if s[0] == c then 1 else 0) + Count(s[1..], c)
  }

  /** `s.split(sep)`: the pieces between separators, empty pieces included. */
  function Split(s: string, sep: char): (parts: seq<string>)
    ensures |parts| == Count(s, sep) + 1
    ensures forall i :: 0 <= i < |parts| ==> sep !in parts[i]
  {
    if s == [] then [""]
    else
      var rest := Split(s[1..], sep);
      if s[0] == sep then [""] + rest
      else
        var parts := [[s[0]] + rest[0]] + rest[1..];
        assert forall i :: 1 <= i < |parts| ==> parts[i] == rest[i];
        parts
  }

  /** `sep.join(parts)`. */
  function JoinWith(parts: seq<string>, sep: char): string
    requires |parts| >= 1
  {
    if |parts| == 1 then parts[0] else parts[0] + [sep] + JoinWith(parts[1..], sep)
  }

  /** Joining the pieces with the separator gives the string back. */
  lemma {:induction false} SplitJoin(s: string, sep: char)
    ensures JoinWith(Split(s, sep), sep) == s
  {
    if s != [] {
      SplitJoin(s[1..], sep);
      var rest := Split(s[1..], sep);
      if s[0] != sep {
        var parts := Split(s, sep);
        assert parts[1..] == rest[1..];
        if |rest| > 1 {
          assert JoinWith(rest, sep) == rest[0] + [sep] + JoinWith(rest[1..], sep);
        }
      }
    }
  }

  /** Two pieces free of the separator, joined by it, split back into themselves. */
  lemma {:induction false} SplitTwo(a: string, b: string, sep: char)
    requires sep !in a && sep !in b
    ensures Split(a + [sep] + b, sep) == [a, b]
  {
    if a == [] {
      assert [] + [sep] + b == [sep] + b;
      assert ([sep] + b)[1..] == b;
      SplitNone(b, sep);
    } else {
      assert (a + [sep] + b)[1..] == a[1..] + [sep] + b;
      SplitTwo(a[1..], b, sep);
      assert [a[0]] + a[1..] == a;
    }
  }

  lemma {:induction false} SplitNone(s: string, sep: char)
    requires sep !in s
    ensures Split(s, sep) == [s]
  {
    if s != [] {
      SplitNone(s[1..], sep);
      assert [s[0]] + s[1..] == s;
    }
  }

  // ---- int(str) ----

  /**
   * The characters `int()` ignores around the number: the ASCII white space
   * tab, line feed, vertical tab, form feed, carriage return and space, and
   * the non-ASCII white space that `int()` first turns into a space. The
   * ASCII separators U+001C to U+001F are white space to `str.isspace()`
   * but not to `int()`.
   */
  predicate IsPySpace(c: char)
  {
    var n := c as int;
    || (0x09 <= n <= 0x0D) || n == 0x20 || n == 0x85 || n == 0xA0 || n == 0x1680
    || (0x2000 <= n <= 0x200A) || n == 0x2028 || n == 0x2029 || n == 0x202F || n == 0x205F || n == 0x3000
  }

  /** Drops the leading white space `int()` skips. */
  function LStrip(s: string): (t: string)
    ensures |t| <= |s| && t == s[|s| - |t|..]
    ensures t == [] || !IsPySpace(t[0])
    ensures forall i :: 0 <= i < |s| - |t| ==> IsPySpace(s[i])
  {
    if s != [] && IsPySpace(s[0]) then LStrip(s[1..]) else s
  }

  /** Drops the trailing white space `int()` skips. */
  function RStrip(s: string): (t: string)
    ensures |t| <= |s| && t == s[..|t|]
    ensures t == [] || !IsPySpace(t[|t| - 1])
    ensures forall i :: |t| <= i < |s| ==> IsPySpace(s[i])
  {
    if s != [] && IsPySpace(s[|s| - 1]) then RStrip(s[..|s| - 1]) else s
  }

  function Strip(s: string): string
  {
    RStrip(LStrip(s))
  }

  /** Decimal digits with single underscores between them, as `int()` accepts them. */
  predicate IsDigitRun(s: string)
  {
    && s != [] && IsDigit(s[0]) && IsDigit(s[|s| - 1])
    && (forall i :: 0 <= i < |s| ==> IsDigit(s[i]) || s[i] == '_')
    && (forall i :: 0 <= i < |s| - 1 ==> s[i] != '_' || s[i + 1] != '_')
  }

  function DropUnderscores(s: string): (d: string)
    requires forall i :: 0 <= i < |s| ==> IsDigit(s[i]) || s[i] == '_'
    ensures AllDigits(d)
    ensures AllDigits(s) ==> d == s
  {
    if s == [] then []
    else if s[0] == '_' then DropUnderscores(s[1..])
    else [s[0]] + DropUnderscores(s[1..])
  }

  /**
   * `int(s)` for a string: white space around an optional sign and a run
   * of digits with single underscores between digits; anything else is the
   * `ValueError` that `None` stands for.
   */
  function PyInt(s: string): (r: Option<int>)
    ensures r.Some? ==> forall i :: 0 <= i < |s| ==>
      IsDigit(s[i]) || s[i] == '_' || s[i] == '+' || s[i] == '-' || IsPySpace(s[i])
    ensures r.Some? && '-' !in s ==> r.value >= 0
  {
    StripKeepsAll(s);
    ParseStripped(Strip(s))
  }

  /**
   * The sign and digit run that remain once the white space is stripped:
   * a number has at least one digit, only digits and underscores after an
   * optional leading sign, and is negative only after a '-'.
   */
  function ParseStripped(t: string): (r: Option<int>)
    ensures r.Some? ==> exists i :: 0 <= i < |t| && IsDigit(t[i])
    ensures r.Some? ==> forall i :: 0 <= i < |t| ==>
      IsDigit(t[i]) || t[i] == '_' || (i == 0 && (t[i] == '+' || t[i] == '-'))
    ensures r.Some? && r.value < 0 ==> t[0] == '-'
  {
    if t != [] && (t[0] == '+' || t[0] == '-') then
      if IsDigitRun(t[1..]) then
        var n: int := DigitsValue(DropUnderscores(t[1..]));
        Some(if t[0] == '-' then -n else n)
      else None
    else if IsDigitRun(t) then Some(DigitsValue(DropUnderscores(t)))
    else None
  }

  /** A plain string of digits, leading zeros and all, reads as its value. */
  lemma PyIntOfDigits(s: string)
    requires s != [] && AllDigits(s)
    ensures PyInt(s) == Some(DigitsValue(s))
  {
    StripDigits(s);
    assert IsDigitRun(s);
  }

  lemma StripDigits(s: string)
    requires s != [] && AllDigits(s)
    ensures Strip(s) == s
  {
    assert !IsPySpace(s[0]) && !IsPySpace(s[|s| - 1]);
    assert LStrip(s) == s;
  }

  /** A character that is no digit, underscore, sign or white space makes `int()` fail. */
  lemma PyIntRejects(s: string, i: int)
    requires 0 <= i < |s|
    requires !IsDigit(s[i]) && s[i] != '_' && s[i] != '+' && s[i] != '-' && !IsPySpace(s[i])
    ensures PyInt(s) == None
  {
    StripKeeps(s, i);
    ParseRejects(Strip(s), s[i]);
  }

  /** Stripping white space keeps every other character. */
  lemma StripKeeps(s: string, i: int)
    requires 0 <= i < |s| && !IsPySpace(s[i])
    ensures s[i] in Strip(s)
  {
    var l := LStrip(s);
    var j := i - (|s| - |l|);
    assert 0 <= j < |l| && l[j] == s[i];
    var t := RStrip(l);
    assert j < |t| && t[j] == s[i];
  }

  /** Stripping white space keeps every other character. */
  lemma StripKeepsAll(s: string)
    ensures forall i :: 0 <= i < |s| && !IsPySpace(s[i]) ==> s[i] in Strip(s)
  {
    forall i | 0 <= i < |s| && !IsPySpace(s[i]) {
      StripKeeps(s, i);
    }
  }

  /** An ASCII separator such as U+001C is no white space to `int()`: it spoils the number. */
  lemma PyIntRejectsSeparator(s: string)
    ensures PyInt([0x1C as char] + s) == None
  {
    PyIntRejects([0x1C as char] + s, 0);
  }

  /** A character that is no digit, underscore or sign fails the parse. */
  lemma ParseRejects(t: string, c: char)
    requires c in t
    requires !IsDigit(c) && c != '_' && c != '+' && c != '-'
    ensures ParseStripped(t) == None
  {
    var j :| 0 <= j < |t| && t[j] == c;
    if t[0] == '+' || t[0] == '-' {
      assert j > 0 && t[1..][j - 1] == c;
    }
  }

  /** White space before the number changes nothing. */
  lemma PyIntLeadingSpace(c: char, s: string)
    requires IsPySpace(c)
    ensures PyInt([c] + s) == PyInt(s)
  {
    assert ([c] + s)[1..] == s;
    assert Strip([c] + s) == Strip(s);
  }

  /** White space after the number changes nothing. */
  lemma PyIntTrailingSpace(s: string, c: char)
    requires IsPySpace(c)
    ensures PyInt(s + [c]) == PyInt(s)
  {
    LStripAppendSpace(s, c);
    var l := LStrip(s);
    if l != [] {
      assert (l + [c])[..|l + [c]| - 1] == l;
    }
    assert Strip(s + [c]) == Strip(s);
  }

  lemma {:induction false} LStripAppendSpace(s: string, c: char)
    requires IsPySpace(c)
    ensures LStrip(s + [c]) == if LStrip(s) == [] then [] else LStrip(s) + [c]
  {
    if s != [] {
      assert (s + [c])[0] == s[0];
      assert (s + [c])[1..] == s[1..] + [c];
      LStripAppendSpace(s[1..], c);
    }
  }

  // ---- convert_year_week_to_date ----

  const MinYear := 1900
  const MaxYear := 2100
  const MaxWeek := 53

  /** The year and week a key names, before the range check, or `None` when they do not parse. */
  function YearAndWeek(yearWeek: string): (r: Option<(int, int)>)
    ensures r.Some? ==> Count(yearWeek, '-') == 1
    ensures r.Some? ==> exists a, b ::
      && yearWeek == a + "-" + b && '-' !in a && '-' !in b
      && PyInt(a) == Some(r.value.0) && PyInt(b) == Some(r.value.1)
  {
    var parts := Split(yearWeek, '-');
    SplitJoin(yearWeek, '-');
    if |parts| != 2 then None
    else
      match (PyInt(parts[0]), PyInt(parts[1]))
      case (Some(year), Some(week)) => Some((year, week))
      case _ => None
  }

  predicate InRange(year: int, week: int)
  {
    MinYear <= year <= MaxYear && 1 <= week <= MaxWeek
  }

  /**
   * Splits the key on '-', reads both pieces with `int()`, checks the
   * ranges and formats the Monday `strptime` computes for `%G-%V-%u`.
   */
  function ConvertYearWeekToDate(yearWeek: string): (r: Option<string>)
    ensures r.Some? <==> YearAndWeek(yearWeek).Some? && InRange(YearAndWeek(yearWeek).value.0, YearAndWeek(yearWeek).value.1)
    ensures r.Some? ==> |r.value| == 10
  {
    match YearAndWeek(yearWeek)
    case None => None
    case Some((year, week)) =>
      if !(MinYear <= year <= MaxYear) || !(1 <= week <= MaxWeek) then None
      else
        var monday := StrptimeIsoMonday(year, week);
        MondayYear(year, week);
        Some(FormatDate(monday))
  }

  /** The Monday of a week of ISO year `y` falls in calendar year `y - 1`, `y` or `y + 1`. */
  lemma MondayYear(y: int, w: int)
    requires y >= 2 && 1 <= w <= MaxWeek
    ensures y - 1 <= StrptimeIsoMonday(y, w).year <= y + 1
  {
    DaysBeforeNextYear(y - 1);
    DaysBeforeNextYear(y);
    DaysBeforeNextYear(y + 1);
    YearWithin(StrptimeIsoMonday(y, w), y - 1, y + 1);
  }

  /** A date whose day number lies within years `lo` to `hi` has its year among them. */
  lemma YearWithin(d: Date, lo: int, hi: int)
    requires ValidDate(d) && 1 <= lo <= hi
    requires DaysBeforeYear(lo) < Ordinal(d) <= DaysBeforeYear(hi + 1)
    ensures lo <= d.year <= hi
  {
    if d.year < lo {
      YearsAscend(d.year, lo);
    } else if d.year > hi {
      YearsAscend(hi + 1, d.year);
    }
  }

  /** A key is rejected unless it has exactly one '-'. */
  lemma ConvertNeedsOneDash(yearWeek: string)
    requires Count(yearWeek, '-') != 1
    ensures ConvertYearWeekToDate(yearWeek) == None
  {
  }

  /** A key is rejected when either piece is not an integer to `int()`. */
  lemma ConvertNeedsIntegers(yearWeek: string)
    requires Count(yearWeek, '-') == 1
    requires PyInt(Split(yearWeek, '-')[0]).None? || PyInt(Split(yearWeek, '-')[1]).None?
    ensures ConvertYearWeekToDate(yearWeek) == None
  {
  }

  /**
   * Every key of one '-' between two pieces `int()` reads gives those two
   * integers as its year and week, whatever their spelling ("2022-5",
   * " 2022-05", "2_022-+5").
   */
  lemma YearAndWeekAccepts(a: string, b: string)
    requires '-' !in a && '-' !in b
    requires PyInt(a).Some? && PyInt(b).Some?
    ensures YearAndWeek(a + "-" + b) == Some((PyInt(a).value, PyInt(b).value))
  {
    SplitTwo(a, b, '-');
  }

  /** Such a key with its year in [1900, 2100] and its week in [1, 53] gives a date. */
  lemma ConvertAccepts(a: string, b: string)
    requires '-' !in a && '-' !in b
    requires PyInt(a).Some? && PyInt(b).Some? && InRange(PyInt(a).value, PyInt(b).value)
    ensures ConvertYearWeekToDate(a + "-" + b).Some?
  {
    YearAndWeekAccepts(a, b);
  }

  /**
   * Digit pieces of any length read as their values: "2022-5" is week 5 of
   * 2022 just as "2022-05" is.
   */
  lemma YearAndWeekOfDigits(a: string, b: string)
    requires a != [] && AllDigits(a) && b != [] && AllDigits(b)
    ensures YearAndWeek(a + "-" + b) == Some((DigitsValue(a), DigitsValue(b)))
  {
    PyIntOfDigits(a);
    PyIntOfDigits(b);
    assert !IsDigit('-');
    YearAndWeekAccepts(a, b);
  }

  /**
   * An accepted key gives the `YYYY-MM-DD` text of a Monday; when the ISO
   * year has the requested week, that Monday lies in exactly that week of
   * that ISO year.
   */
  lemma ConvertGivesIsoMonday(yearWeek: string)
    requires ConvertYearWeekToDate(yearWeek).Some?
    ensures var (year, week) := YearAndWeek(yearWeek).value;
      var text := ConvertYearWeekToDate(yearWeek).value;
      && ParseDate(text).Some?
      && ValidDate(ParseDate(text).value)
      && Weekday(Ordinal(ParseDate(text).value)) == 0
      && (week <= WeeksInYear(year) ==> IsIsoWeekDate(Ordinal(ParseDate(text).value), year, week, 1))
  {
    var (year, week) := YearAndWeek(yearWeek).value;
    var monday := StrptimeIsoMonday(year, week);
    MondayYear(year, week);
    FormatDateRoundTrip(monday);
    StrptimeIsoWeek(year, week);
  }

  /** Every key of the app's own form `YYYY-WW` reads back as its year and week. */
  lemma WeekKeyParts(year: nat, week: nat)
    requires week < 100
    ensures YearAndWeek(NatToString(year) + "-" + TwoDigits(week)) == Some((year as int, week as int))
  {
    var a, b := NatToString(year), TwoDigits(week);
    KeySplit(a, b);
    PyIntOfDigits(a);
    PyIntOfDigits(b);
  }

  /** A key made of two digit strings around a '-' splits back into them. */
  lemma KeySplit(a: string, b: string)
    requires AllDigits(a) && AllDigits(b)
    ensures Split(a + "-" + b, '-') == [a, b]
  {
    assert '-' !in a && '-' !in b by {
      assert !IsDigit('-');
    }
    SplitTwo(a, b, '-');
    assert a + "-" + b == a + ['-'] + b;
  }

  /** Every such key within the ranges is accepted. */
  lemma ConvertAcceptsWeekKeys(year: int, week: int)
    requires InRange(year, week)
    ensures var key := NatToString(year) + "-" + TwoDigits(week);
      YearAndWeek(key) == Some((year, week)) && ConvertYearWeekToDate(key).Some?
  {
    WeekKeyParts(year, week);
  }
}
