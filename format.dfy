/** `formatDuration` and the unit choice of `formatCurrency` in src/lib/utils.ts. */
module Format {

  import opened Types
  import Strings

  /** The two figures `formatDuration` shows, and which pair it chose. */
  datatype Duration =
    | DaysHours(days: int, hours: int)
    | HoursMinutes(hours: int, minutes: int)
    | MinutesSeconds(minutes: int, seconds: int)
    | SecondsOnly(seconds: int)

  /** `Math.floor(x / d)` for a whole number of milliseconds `x` and a positive `d`. */
  function FloorDiv(x: int, d: int): int
    requires d > 0
  {
    x / d
  }

  /** The form `formatDuration(ms)` chooses. Each `%` it applies is on a
      positive number, where JavaScript's remainder is the floor remainder. */
  function DurationOf(ms: int): Duration
  {
    var seconds := FloorDiv(ms, 1000);
    var minutes := FloorDiv(seconds, 60);
    var hours := FloorDiv(minutes, 60);
    var days := FloorDiv(hours, 24);
    if days > 0 then DaysHours(days, hours % 24)
    else if hours > 0 then HoursMinutes(hours, minutes % 60)
    else if minutes > 0 then MinutesSeconds(minutes, seconds % 60)
    else SecondsOnly(seconds)
  }

  /** The template `${a}<unit1> ${b}<unit2>`. */
  function TwoFigures(a: int, unit1: char, b: int, unit2: char): string
  {
    Strings.IntToString(a) + [unit1] + " " + Strings.IntToString(b) + [unit2]
  }

  function Render(d: Duration): string
  {
    match d
    case DaysHours(a, b) => TwoFigures(a, 'd', b, 'h')
    case HoursMinutes(a, b) => TwoFigures(a, 'h', b, 'm')
    case MinutesSeconds(a, b) => TwoFigures(a, 'm', b, 's')
    case SecondsOnly(a) => Strings.IntToString(a) + "s"
  }

  /** `formatDuration`: the text reads back as the form and figures chosen
      for `ms`. */
  function FormatDuration(ms: int): (s: string)
    ensures ParseDuration(s) == Some(DurationOf(ms))
  {
    ParseRender(DurationOf(ms));
    Render(DurationOf(ms))
  }

  /** Euclidean division by `b` then by `c` is division by `b * c`. */
  lemma DivDiv(a: int, b: int, c: int)
    requires b > 0 && c > 0
    ensures a / b / c == a / (b * c)
  {
    var q, r := a / b, a % b;
    var q2, r2 := q / c, q % c;
    MulExpand(b, q, c, q2, r2);
    MulBelow(b, r2, c);
    DivUnique(a, b * c, q2, b * r2 + r);
  }

  lemma MulExpand(b: int, q: int, c: int, q2: int, r2: int)
    requires q == c * q2 + r2
    ensures b * q == (b * c) * q2 + b * r2
  {
  }

  lemma MulBelow(b: int, r2: int, c: int)
    requires b > 0 && 0 <= r2 < c
    ensures 0 <= b * r2 <= b * c - b
  {
    MulNonNegative(b, r2);
    MulNonNegative(b, c - 1 - r2);
    assert b * (c - 1 - r2) == b * c - b - b * r2;
  }

  lemma MulNonNegative(x: int, y: int)
    requires x >= 0 && y >= 0
    ensures x * y >= 0
  {
  }

  lemma DivUnique(a: int, d: int, q: int, r: int)
    requires d > 0 && a == d * q + r && 0 <= r < d
    ensures a / d == q
  {
    var q', r' := a / d, a % d;
    assert d * (q' - q) == r - r';
    if q' > q {
      AtLeastDivisor(d, q' - q);
    } else if q' < q {
      AtLeastDivisor(d, q - q');
    }
  }

  lemma AtLeastDivisor(d: int, k: int)
    requires d > 0 && k >= 1
    ensures d * k >= d
  {
  }

  /** What each form means: days and hours are the whole hours of `ms`,
      hours and minutes its whole minutes, minutes and seconds its whole
      seconds; the second figure is always below its unit, and the form is
      chosen by the size of `ms` alone. */
  lemma DurationMeaning(ms: int)
    ensures DurationOf(ms).DaysHours? <==> ms >= 86_400_000
    ensures DurationOf(ms).HoursMinutes? <==> 3_600_000 <= ms < 86_400_000
    ensures DurationOf(ms).MinutesSeconds? <==> 60_000 <= ms < 3_600_000
    ensures DurationOf(ms).SecondsOnly? <==> ms < 60_000
    ensures DurationOf(ms).DaysHours? ==>
      var d := DurationOf(ms); d.days * 24 + d.hours == ms / 3_600_000 && 0 <= d.hours < 24
    ensures DurationOf(ms).HoursMinutes? ==>
      var d := DurationOf(ms); d.hours * 60 + d.minutes == ms / 60_000 && 0 <= d.minutes < 60
    ensures DurationOf(ms).MinutesSeconds? ==>
      var d := DurationOf(ms); d.minutes * 60 + d.seconds == ms / 1000 && 0 <= d.seconds < 60
    ensures DurationOf(ms).SecondsOnly? ==> DurationOf(ms).seconds == ms / 1000
  {
    DivDiv(ms, 1000, 60);
    DivDiv(ms, 60_000, 60);
    DivDiv(ms, 3_600_000, 24);
  }

  /** Durations under one second render as "0s". */
  lemma SubSecond(ms: int)
    requires 0 <= ms < 1000
    ensures FormatDuration(ms) == "0s"
  {
  }

  /** Reads the text `formatDuration` renders back into its form. */
  function ParseDuration(s: string): Option<Duration>
  {
    var i := SpaceIndex(s, 0);
    if i < 0 then ParseSingle(s)
    else if i < 1 || |s| < i + 3 then None
    else ParseTwo(s[..i - 1], s[i - 1], s[i + 1..|s| - 1], s[|s| - 1])
  }

  /** A text without a space: a number followed by "s". */
  function ParseSingle(s: string): Option<Duration>
  {
    if |s| >= 2 && s[|s| - 1] == 's' then
      match Strings.ParseInt(s[..|s| - 1])
      case Some(a) => Some(SecondsOnly(a))
      case None => None
    else None
  }

  /** Two numbers, each followed by its unit letter. */
  function ParseTwo(first: string, unit1: char, second: string, unit2: char): Option<Duration>
  {
    match (Strings.ParseInt(first), Strings.ParseInt(second))
    case (Some(a), Some(b)) => PairOf(unit1, unit2, a, b)
    case _ => None
  }

  /** The form named by a pair of unit letters. */
  function PairOf(unit1: char, unit2: char, a: int, b: int): Option<Duration>
  {
    if unit1 == 'd' && unit2 == 'h' then Some(DaysHours(a, b))
    else if unit1 == 'h' && unit2 == 'm' then Some(HoursMinutes(a, b))
    else if unit1 == 'm' && unit2 == 's' then Some(MinutesSeconds(a, b))
    else None
  }

  /** The index of the first space at or after `from`, or -1. */
  function SpaceIndex(s: string, from: nat): (i: int)
    requires from <= |s|
    ensures i == -1 || from <= i < |s|
    ensures i == -1 ==> forall k :: from <= k < |s| ==> s[k] != ' '
    ensures i >= 0 ==> s[i] == ' ' && forall k :: from <= k < i ==> s[k] != ' '
    decreases |s| - from
  {
    if from == |s| then -1
    else if s[from] == ' ' then from
    else SpaceIndex(s, from + 1)
  }

  /** A rendered number holds no space and no letter. */
  lemma IntTextPlain(a: int)
    ensures forall k :: 0 <= k < |Strings.IntToString(a)| ==>
      Strings.IntToString(a)[k] != ' ' && Strings.IntToString(a)[k] != 's'
  {
    var t := Strings.IntToString(a);
    if a < 0 {
      assert t == "-" + Strings.NatToString(-a);
      assert forall k :: 1 <= k < |t| ==> t[k] == Strings.NatToString(-a)[k - 1];
    }
  }

  /** Reading a rendered duration gives the duration back: the text determines
      the form and both figures. */
  lemma ParseRender(d: Duration)
    ensures ParseDuration(Render(d)) == Some(d)
  {
    match d
    case SecondsOnly(a) =>
      ParseSeconds(a);
    case DaysHours(a, b) =>
      ParsePair(a, 'd', b, 'h');
    case HoursMinutes(a, b) =>
      ParsePair(a, 'h', b, 'm');
    case MinutesSeconds(a, b) =>
      ParsePair(a, 'm', b, 's');
  }

  lemma ParseSeconds(a: int)
    ensures ParseDuration(Strings.IntToString(a) + "s") == Some(SecondsOnly(a))
  {
    var t := Strings.IntToString(a);
    var s := t + "s";
    IntTextPlain(a);
    assert forall k :: 0 <= k < |s| ==> s[k] != ' ';
    NoSpace(s);
    assert s[..|s| - 1] == t;
    Strings.ParseIntToString(a);
  }

  lemma NoSpace(s: string)
    requires forall k :: 0 <= k < |s| ==> s[k] != ' '
    ensures SpaceIndex(s, 0) == -1
  {
    NoSpaceFrom(s, 0);
  }

  lemma {:induction false} NoSpaceFrom(s: string, from: nat)
    requires from <= |s|
    requires forall k :: from <= k < |s| ==> s[k] != ' '
    ensures SpaceIndex(s, from) == -1
    decreases |s| - from
  {
    if from < |s| {
      NoSpaceFrom(s, from + 1);
    }
  }

  lemma ParsePair(a: int, u1: char, b: int, u2: char)
    requires u1 != ' ' && u2 != ' '
    ensures ParseDuration(TwoFigures(a, u1, b, u2)) == PairOf(u1, u2, a, b)
  {
    PairSplit(Strings.IntToString(a), u1, Strings.IntToString(b), u2);
    FirstSpace(a, u1, b, u2);
    ParseTwoOf(a, u1, b, u2);
  }

  /** The first space of a two-figure text is the one after the first unit. */
  lemma FirstSpace(a: int, u1: char, b: int, u2: char)
    requires u1 != ' '
    ensures SpaceIndex(TwoFigures(a, u1, b, u2), 0) == |Strings.IntToString(a)| + 1
  {
    var ta := Strings.IntToString(a);
    var s := TwoFigures(a, u1, b, u2);
    var i := |ta| + 1;
    IntTextPlain(a);
    assert forall k :: 0 <= k < |ta| ==> s[k] == ta[k];
    assert s[|ta|] == u1 && s[i] == ' ';
    SpaceFrom(s, 0, i);
  }

  /** Where the parts of a two-figure text sit. */
  lemma PairSplit(ta: string, u1: char, tb: string, u2: char)
    ensures var s, i := ta + [u1] + " " + tb + [u2], |ta| + 1;
      |s| == i + |tb| + 2 && s[i] == ' ' && s[i - 1] == u1 && s[|s| - 1] == u2
      && s[..i - 1] == ta && s[i + 1..|s| - 1] == tb
  {
    var s, i := ta + [u1] + " " + tb + [u2], |ta| + 1;
    assert s[..i - 1] == ta;
    assert s[i + 1..|s| - 1] == tb;
  }

  lemma ParseTwoOf(a: int, u1: char, b: int, u2: char)
    ensures ParseTwo(Strings.IntToString(a), u1, Strings.IntToString(b), u2) == PairOf(u1, u2, a, b)
  {
    Strings.ParseIntToString(a);
    Strings.ParseIntToString(b);
  }

  lemma {:induction false} SpaceFrom(s: string, from: nat, i: nat)
    requires from <= i < |s| && s[i] == ' '
    requires forall k :: from <= k < i ==> s[k] != ' '
    ensures SpaceIndex(s, from) == i
    decreases i - from
  {
    if from < i {
      SpaceFrom(s, from + 1, i);
    }
  }

  /** Rendering the durations of two instants gives equal text only when
      their forms and figures agree. */
  lemma FormatDurationInjective(ms1: int, ms2: int)
    requires FormatDuration(ms1) == FormatDuration(ms2)
    ensures DurationOf(ms1) == DurationOf(ms2)
  {
    ParseRender(DurationOf(ms1));
    ParseRender(DurationOf(ms2));
  }

  /** The unit `formatCurrency` picks: millions, thousands or none. */
  datatype CurrencyUnit = Millions | Thousands | Units

  function CurrencyUnitOf(value: real): CurrencyUnit
  {
    var absValue := Abs(value);
    if absValue >= 1_000_000.0 then Millions
    else if absValue >= 1_000.0 then Thousands
    else Units
  }

  function Divisor(u: CurrencyUnit): real
  {
    match u
    case Millions => 1_000_000.0
    case Thousands => 1_000.0
    case Units => 1.0
  }

  function Suffix(u: CurrencyUnit): string
  {
    match u
    case Millions => "M"
    case Thousands => "K"
    case Units => ""
  }

  /** The number `formatCurrency` hands to `toFixed`, with its suffix. */
  function CurrencyScale(value: real): (string, real)
  {
    var u := CurrencyUnitOf(value);
    (Suffix(u), value / Divisor(u))
  }

  /** The scaled figure times the suffix's factor is the value; with a suffix
      its magnitude is at least 1, and under "K" or no suffix it is below 1000. */
  lemma CurrencyScaleMeaning(value: real)
    ensures var (suffix, scaled) := CurrencyScale(value);
      && scaled * Divisor(CurrencyUnitOf(value)) == value
      && (suffix == "M" <==> Abs(value) >= 1_000_000.0)
      && (suffix == "K" <==> 1_000.0 <= Abs(value) < 1_000_000.0)
      && (suffix == "" <==> Abs(value) < 1_000.0)
      && (suffix != "" ==> Abs(scaled) >= 1.0)
      && (suffix != "M" ==> Abs(scaled) < 1_000.0)
  {
  }
}
