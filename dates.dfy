/** Day keys: the `getDateKey` helper of src/lib/utils.ts, which takes the
    calendar date of an instant in UTC as `Date.prototype.toISOString` writes
    it (the part before 'T'): `YYYY-MM-DD` for years 0000 to 9999, and the
    expanded `+YYYYYY-MM-DD` / `-YYYYYY-MM-DD` forms outside them.

    The proleptic Gregorian calendar is defined here by counting whole years
    and months from 1970-01-01 rather than by a closed formula, so that the
    conversion is correct by construction and its inverse is easy to state. */
module Dates {

  import opened Types
  import Strings

  datatype CivilDate = CivilDate(year: int, month: int, day: int)

  predicate IsLeapYear(y: int)
  {
    y % 4 == 0 && (y % 100 != 0 || y % 400 == 0)
  }

  function DaysInYear(y: int): int
  {
    if IsLeapYear(y) then 366 else 365
  }

  /** Days in the months of year `y` before month `m` (1 <= m <= 13). */
  function DaysBeforeMonth(y: int, m: int): int
    requires 1 <= m <= 13
  {
    var common := [0, 31, 59, 90, 120, 151, 181, 212, 243, 273, 304, 334, 365][m - 1];
    if IsLeapYear(y) && m > 2 then common + 1 else common
  }

  function DaysInMonth(y: int, m: int): int
    requires 1 <= m <= 12
  {
    DaysBeforeMonth(y, m + 1) - DaysBeforeMonth(y, m)
  }

  lemma MonthLength(y: int, m: int)
    requires 1 <= m <= 12
    ensures 28 <= DaysInMonth(y, m) <= 31
  {
  }

  predicate IsValidDate(c: CivilDate)
  {
    1 <= c.month <= 12 && 1 <= c.day <= DaysInMonth(c.year, c.month)
  }

  /** Day number (days since 1970-01-01) of 1 January of year `y`. */
  function YearStart(y: int): int
    decreases if y < 1970 then 1970 - y else y - 1970
  {
    if y == 1970 then 0
    else if y > 1970 then YearStart(y - 1) + DaysInYear(y - 1)
    else YearStart(y + 1) - DaysInYear(y)
  }

  /** Day number of a calendar date. */
  function DaysFromCivil(c: CivilDate): int
    requires 1 <= c.month <= 12
  {
    YearStart(c.year) + DaysBeforeMonth(c.year, c.month) + c.day - 1
  }

  /** The year holding the day `z` days after 1 January of year `y`, and the
      index of that day within its year. */
  function YearAndDay(z: int, y: int): (r: (int, int))
    ensures 0 <= r.1 < DaysInYear(r.0)
    ensures YearStart(r.0) + r.1 == YearStart(y) + z
    decreases if z < 0 then 367 - z else z
  {
    if z < 0 then YearAndDay(z + DaysInYear(y - 1), y - 1)
    else if z < DaysInYear(y) then (y, z)
    else YearAndDay(z - DaysInYear(y), y + 1)
  }

  /** The month holding the day `doy` days after the first of month `m` of
      year `y`, and that day's day of month. */
  function MonthAndDay(doy: int, y: int, m: int): (r: (int, int))
    requires 1 <= m <= 12
    requires 0 <= doy < DaysInYear(y) - DaysBeforeMonth(y, m)
    ensures m <= r.0 <= 12 && 1 <= r.1 <= DaysInMonth(y, r.0)
    ensures DaysBeforeMonth(y, r.0) + r.1 - 1 == DaysBeforeMonth(y, m) + doy
    decreases 12 - m
  {
    if doy < DaysInMonth(y, m) then (m, doy + 1)
    else MonthAndDay(doy - DaysInMonth(y, m), y, m + 1)
  }

  /** The calendar date of day number `z`. */
  function CivilFromDays(z: int): (c: CivilDate)
    ensures IsValidDate(c)
    ensures DaysFromCivil(c) == z
  {
    var (y, doy) := YearAndDay(z, 1970);
    var (m, d) := MonthAndDay(doy, y, 1);
    CivilDate(y, m, d)
  }

  /** Day number of the UTC day holding instant `t` (division rounding down). */
  function DayNumber(t: int): int
  {
    t / MsPerDay
  }

  /** The year as `toISOString` writes it. */
  function YearText(y: int): string
  {
    if 0 <= y <= 9999 then Strings.PadNat(y, 4)
    else if y > 9999 then "+" + Strings.PadNat(y, 6)
    else "-" + Strings.PadNat(-y, 6)
  }

  function FormatDate(c: CivilDate): string
    requires IsValidDate(c)
  {
    YearText(c.year) + "-" + Strings.PadNat(c.month, 2) + "-" + Strings.PadNat(c.day, 2)
  }

  /** `getDateKey`: the date of `t` in UTC, as the part of its ISO 8601 text
      before 'T': a year of at least four characters, then '-', the month,
      '-' and the day, each of two characters. */
  function DateKey(t: TimeValue): (k: string)
    ensures |k| >= 10 && k[|k| - 6] == '-' && k[|k| - 3] == '-'
  {
    FormatDateParts(CivilFromDays(DayNumber(t)));
    FormatDate(CivilFromDays(DayNumber(t)))
  }

  /** Reads a key of the form FormatDate writes back into a date. */
  function ParseDate(s: string): Option<CivilDate>
  {
    if |s| < 10 || s[|s| - 6] != '-' || s[|s| - 3] != '-' then None
    else
      var yearPart, monthPart, dayPart := s[..|s| - 6], s[|s| - 5..|s| - 3], s[|s| - 2..];
      if !Strings.AllDigits(monthPart) || !Strings.AllDigits(dayPart) then None
      else if yearPart[0] == '+' && Strings.AllDigits(yearPart[1..]) then
        Some(CivilDate(Strings.ParseNat(yearPart[1..]), Strings.ParseNat(monthPart), Strings.ParseNat(dayPart)))
      else if yearPart[0] == '-' && Strings.AllDigits(yearPart[1..]) then
        var magnitude: int := Strings.ParseNat(yearPart[1..]);
        Some(CivilDate(-magnitude, Strings.ParseNat(monthPart), Strings.ParseNat(dayPart)))
      else if Strings.AllDigits(yearPart) then
        Some(CivilDate(Strings.ParseNat(yearPart), Strings.ParseNat(monthPart), Strings.ParseNat(dayPart)))
      else None
  }

  lemma {:induction false} YearTextDigits(y: int)
    ensures |YearText(y)| >= 4
    ensures 0 <= y <= 9999 ==> |YearText(y)| == 4 && Strings.AllDigits(YearText(y))
    ensures y > 9999 ==> YearText(y)[0] == '+' && Strings.AllDigits(YearText(y)[1..])
    ensures y < 0 ==> YearText(y)[0] == '-' && Strings.AllDigits(YearText(y)[1..])
  {
    if 0 <= y <= 9999 {
      assert Strings.Pow10(4) == 10000;
    } else if y > 9999 {
      assert YearText(y)[1..] == Strings.PadNat(y, 6);
    } else {
      assert YearText(y)[1..] == Strings.PadNat(-y, 6);
    }
  }

  lemma PadTwoDigits(n: nat)
    requires n < 100
    ensures |Strings.PadNat(n, 2)| == 2
  {
    assert Strings.Pow10(2) == 100;
  }

  /** Reading a written year gives the year back. */
  lemma ParseYearText(y: int)
    ensures |YearText(y)| >= 4
    ensures var yt := YearText(y);
      if yt[0] == '+' then Strings.AllDigits(yt[1..]) && Strings.ParseNat(yt[1..]) == y
      else if yt[0] == '-' then Strings.AllDigits(yt[1..]) && -(Strings.ParseNat(yt[1..]) as int) == y
      else Strings.AllDigits(yt) && Strings.ParseNat(yt) == y
  {
    var yt := YearText(y);
    YearTextDigits(y);
    if 0 <= y <= 9999 {
      Strings.ParsePadNat(y, 4);
      assert Strings.IsDigit(yt[0]);
    } else if y > 9999 {
      assert yt[1..] == Strings.PadNat(y, 6);
      Strings.ParsePadNat(y, 6);
    } else {
      assert yt[1..] == Strings.PadNat(-y, 6);
      Strings.ParsePadNat(-y, 6);
    }
  }

  /** The three parts of a written date sit at fixed distances from its end. */
  lemma FormatDateParts(c: CivilDate)
    requires IsValidDate(c)
    ensures var s := FormatDate(c);
      |s| >= 10 && s[|s| - 6] == '-' && s[|s| - 3] == '-'
      && s[..|s| - 6] == YearText(c.year)
      && s[|s| - 5..|s| - 3] == Strings.PadNat(c.month, 2)
      && s[|s| - 2..] == Strings.PadNat(c.day, 2)
  {
    var yt, mt, dt := YearText(c.year), Strings.PadNat(c.month, 2), Strings.PadNat(c.day, 2);
    YearTextDigits(c.year);
    PadTwoDigits(c.month);
    MonthLength(c.year, c.month);
    PadTwoDigits(c.day);
    var s := FormatDate(c);
    assert s == yt + "-" + mt + "-" + dt;
    assert s[..|s| - 6] == yt;
    assert s[|s| - 5..|s| - 3] == mt;
    assert s[|s| - 2..] == dt;
  }

  /** Reading a written date gives the date back. */
  lemma ParseFormatDate(c: CivilDate)
    requires IsValidDate(c)
    ensures ParseDate(FormatDate(c)) == Some(c)
  {
    FormatDateParts(c);
    ParseYearText(c.year);
    Strings.ParsePadNat(c.month, 2);
    Strings.ParsePadNat(c.day, 2);
  }

  /** Two instants have the same key exactly when they fall on the same UTC
      day: grouping by key is grouping by day. */
  lemma DateKeySameDay(t1: TimeValue, t2: TimeValue)
    ensures DateKey(t1) == DateKey(t2) <==> DayNumber(t1) == DayNumber(t2)
  {
    var c1, c2 := CivilFromDays(DayNumber(t1)), CivilFromDays(DayNumber(t2));
    if DateKey(t1) == DateKey(t2) {
      ParseFormatDate(c1);
      ParseFormatDate(c2);
      assert c1 == c2;
    }
  }

  /** For years 0000 to 9999 the key is exactly `YYYY-MM-DD`: ten characters,
      dashes at positions 4 and 7, digits elsewhere (the RFC 3339 full-date). */
  lemma DateKeyShape(t: TimeValue)
    requires 0 <= CivilFromDays(DayNumber(t)).year <= 9999
    ensures var k := DateKey(t);
      |k| == 10 && k[4] == '-' && k[7] == '-'
      && forall i :: 0 <= i < 10 && i != 4 && i != 7 ==> Strings.IsDigit(k[i])
  {
    var c := CivilFromDays(DayNumber(t));
    YearTextDigits(c.year);
    PadTwoDigits(c.month);
    MonthLength(c.year, c.month);
    PadTwoDigits(c.day);
    var yt, mt, dt := YearText(c.year), Strings.PadNat(c.month, 2), Strings.PadNat(c.day, 2);
    var k := DateKey(t);
    assert k == yt + "-" + mt + "-" + dt;
    forall i | 0 <= i < 10 && i != 4 && i != 7
      ensures Strings.IsDigit(k[i])
    {
      if i < 4 {
        assert k[i] == yt[i];
      } else if i < 7 {
        assert k[i] == mt[i - 5];
      } else {
        assert k[i] == dt[i - 8];
      }
    }
  }

  /** The Unix epoch is 1970-01-01. */
  lemma EpochKey()
    ensures DateKey(0) == "1970-01-01"
  {
    EpochDay();
    EpochText();
  }

  lemma EpochDay()
    ensures CivilFromDays(0) == CivilDate(1970, 1, 1)
  {
    assert DaysInYear(1970) == 365;
    assert YearAndDay(0, 1970) == (1970, 0);
    assert DaysInMonth(1970, 1) == 31;
    assert MonthAndDay(0, 1970, 1) == (1, 1);
  }

  lemma EpochText()
    ensures FormatDate(CivilDate(1970, 1, 1)) == "1970-01-01"
  {
    assert Strings.PadNat(1970, 4) == "1970";
    assert Strings.PadNat(1, 2) == "01";
  }
}
