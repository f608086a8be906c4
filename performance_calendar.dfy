/** The heat-map grid of src/components/dashboard/PerformanceCalendar.tsx:
    the shade of a day, the scale the shades are measured against, the
    lookup of a day's figures by date, the week-by-week layout of the cells,
    and the profit/loss-day counts shown under the grid. */
module PerformanceCalendar {

  import opened Types
  import opened Seqs
  import opened OrderedMaps

  /** The shades of a winning day, lightest first. */
  const Emerald: seq<string> := ["bg-emerald-400/30", "bg-emerald-400/50", "bg-emerald-400/80", "bg-emerald-500"]

  /** The shades of a losing day, lightest first. */
  const Red: seq<string> := ["bg-red-400/30", "bg-red-400/50", "bg-red-400/80", "bg-red-500"]

  /** The cell of a day without gain or loss. */
  const Slate: string := "bg-slate-800"

  /** `x > t` on a JavaScript number: never for NaN, always for +Infinity. */
  predicate Exceeds(x: ExtReal, t: real)
  {
    match x
    case Finite(v) => v > t
    case PosInf => true
    case NegInf => false
    case NaN => false
  }

  /** `getIntensityClass`: the colour family follows the sign of the pnl, the
      shade how far `|pnl| / maxPnl` is above 0.25, 0.5 and 0.75. */
  function IntensityClass(pnl: real, maxPnl: real): (c: string)
    ensures pnl > 0.0 <==> c in Emerald
    ensures pnl < 0.0 <==> c in Red
    ensures pnl == 0.0 <==> c == Slate
  {
    var normalized := Div(Abs(pnl), maxPnl);
    if pnl > 0.0 then
      if Exceeds(normalized, 0.75) then "bg-emerald-500"
      else if Exceeds(normalized, 0.5) then "bg-emerald-400/80"
      else if Exceeds(normalized, 0.25) then "bg-emerald-400/50"
      else "bg-emerald-400/30"
    else if pnl < 0.0 then
      if Exceeds(normalized, 0.75) then "bg-red-500"
      else if Exceeds(normalized, 0.5) then "bg-red-400/80"
      else if Exceeds(normalized, 0.25) then "bg-red-400/50"
      else "bg-red-400/30"
    else Slate
  }

  /** How dark a shade is: 0 (lightest) to 3 within its family, -1 for the
      empty cell. */
  function ShadeLevel(c: string): (level: int)
    ensures -1 <= level <= 3
    ensures 0 <= level ==> c == Emerald[level] || c == Red[level]
  {
    if c == Emerald[3] || c == Red[3] then 3
    else if c == Emerald[2] || c == Red[2] then 2
    else if c == Emerald[1] || c == Red[1] then 1
    else if c == Emerald[0] || c == Red[0] then 0
    else -1
  }

  /** A red shade for an emerald one of the same darkness, and back. */
  function Mirror(c: string): string
  {
    if c in Emerald then Red[ShadeLevel(c)]
    else if c in Red then Emerald[ShadeLevel(c)]
    else c
  }

  lemma ScaleAbove(a: real, m: real, t: real)
    requires m > 0.0
    ensures a / m > t <==> a > t * m
  {
    var q := a / m;
    assert q * m == a;
    if q > t {
      assert q * m > t * m;
    } else {
      assert q * m <= t * m;
    }
  }

  /** With a positive scale, the shade of a nonzero day is the number of the
      thresholds 0.25, 0.5 and 0.75 that `|pnl|` exceeds as a fraction of the
      scale (strictly: a day at exactly three quarters is not the darkest). */
  lemma IntensityBands(pnl: real, maxPnl: real)
    requires maxPnl > 0.0 && pnl != 0.0
    ensures var level := ShadeLevel(IntensityClass(pnl, maxPnl));
      && 0 <= level <= 3
      && (level == 3 <==> Abs(pnl) > 0.75 * maxPnl)
      && (level >= 2 <==> Abs(pnl) > 0.5 * maxPnl)
      && (level >= 1 <==> Abs(pnl) > 0.25 * maxPnl)
  {
    ScaleAbove(Abs(pnl), maxPnl, 0.75);
    ScaleAbove(Abs(pnl), maxPnl, 0.5);
    ScaleAbove(Abs(pnl), maxPnl, 0.25);
  }

  /** A loss gets the red shade of the same darkness as the emerald shade of
      the equal gain. */
  lemma IntensitySymmetric(pnl: real, maxPnl: real)
    ensures IntensityClass(-pnl, maxPnl) == Mirror(IntensityClass(pnl, maxPnl))
    ensures IntensityClass(pnl, maxPnl) == Mirror(IntensityClass(-pnl, maxPnl))
  {
    MirrorShade(pnl, maxPnl);
    MirrorShade(-pnl, maxPnl);
  }

  lemma MirrorShade(pnl: real, maxPnl: real)
    ensures IntensityClass(-pnl, maxPnl) == Mirror(IntensityClass(pnl, maxPnl))
  {
    assert Abs(-pnl) == Abs(pnl);
    var band := Band(Div(Abs(pnl), maxPnl));
    IntensityShape(pnl, maxPnl);
    IntensityShape(-pnl, maxPnl);
    MirrorBand(band);
    if pnl > 0.0 {
      assert IntensityClass(pnl, maxPnl) == Emerald[band] && IntensityClass(-pnl, maxPnl) == Red[band];
    } else if pnl < 0.0 {
      assert IntensityClass(pnl, maxPnl) == Red[band] && IntensityClass(-pnl, maxPnl) == Emerald[band];
    } else {
      assert IntensityClass(pnl, maxPnl) == Slate && IntensityClass(-pnl, maxPnl) == Slate;
    }
  }

  /** How many of the thresholds 0.25, 0.5 and 0.75 a normalised value exceeds. */
  function Band(normalized: ExtReal): (b: nat)
    ensures b < 4
  {
    if Exceeds(normalized, 0.75) then 3
    else if Exceeds(normalized, 0.5) then 2
    else if Exceeds(normalized, 0.25) then 1
    else 0
  }

  /** The shade is the band's entry in the family of the pnl's sign. */
  lemma IntensityShape(pnl: real, maxPnl: real)
    ensures var b := Band(Div(Abs(pnl), maxPnl));
      IntensityClass(pnl, maxPnl) == if pnl > 0.0 then Emerald[b] else if pnl < 0.0 then Red[b] else Slate
  {
  }

  /** Mirroring swaps the two shades of a band. */
  lemma MirrorBand(b: nat)
    requires b < 4
    ensures Mirror(Emerald[b]) == Red[b] && Mirror(Red[b]) == Emerald[b] && Mirror(Slate) == Slate
  {
  }

  /** `Math.max(1, ...calendarData.map(d => Math.abs(d.pnl)))`. */
  function GridMaxPnl(days: seq<CalendarDay>): (m: real)
    ensures m >= 1.0
    ensures forall i :: 0 <= i < |days| ==> Abs(days[i].pnl) <= m
    ensures m == 1.0 || exists i :: 0 <= i < |days| && Abs(days[i].pnl) == m
    decreases |days|
  {
    if days == [] then 1.0 else Max(GridMaxPnl(days[..|days| - 1]), Abs(days[|days| - 1].pnl))
  }

  /** On the grid's scale no day is above 1. */
  lemma GridScale(days: seq<CalendarDay>, i: nat)
    requires i < |days|
    ensures var m := GridMaxPnl(days);
      Div(Abs(days[i].pnl), m).Finite? && Div(Abs(days[i].pnl), m).value <= 1.0
  {
    var a, m := Abs(days[i].pnl), GridMaxPnl(days);
    FractionAtMostOne(a, m);
    assert Div(a, m) == Finite(a / m);
  }

  lemma FractionAtMostOne(a: real, m: real)
    requires a <= m && m > 0.0
    ensures a / m <= 1.0
  {
    ScaleAbove(a, m, 1.0);
  }

  /** A day that sets the grid's scale gets the darkest shade of its family. */
  lemma GridTopShade(days: seq<CalendarDay>, i: nat)
    requires i < |days| && Abs(days[i].pnl) == GridMaxPnl(days)
    ensures ShadeLevel(IntensityClass(days[i].pnl, GridMaxPnl(days))) == 3
  {
    IntensityBands(days[i].pnl, GridMaxPnl(days));
  }

  /** What `pnlMap` holds for one date. */
  datatype DayCell = DayCell(pnl: real, trades: nat)

  /** `pnlMap.get(dateKey) || { pnl: 0, trades: 0 }` for a date without entry. */
  const NoData := DayCell(0.0, 0)

  /** The map the `forEach` over the calendar days builds: `set` per day, so
      a later day with the same date replaces an earlier one. */
  function PnlMapOf(days: seq<CalendarDay>): seq<Entry<DayCell>>
    decreases |days|
  {
    if days == [] then []
    else
      var d := days[|days| - 1];
      Put(PnlMapOf(days[..|days| - 1]), d.date, DayCell(d.pnl, d.trades))
  }

  method BuildPnlMap(calendarData: seq<CalendarDay>) returns (pnlMap: seq<Entry<DayCell>>)
    ensures pnlMap == PnlMapOf(calendarData)
  {
    pnlMap := [];
    for i := 0 to |calendarData|
      invariant pnlMap == PnlMapOf(calendarData[..i])
    {
      var day := calendarData[i];
      pnlMap := Put(pnlMap, day.date, DayCell(day.pnl, day.trades));
      assert calendarData[..i + 1][..i] == calendarData[..i];
    }
    assert calendarData[..|calendarData|] == calendarData;
  }

  /** The position of the last day with date `k`, or -1 when there is none. */
  function LastWithDate(days: seq<CalendarDay>, k: string): (i: int)
    ensures -1 <= i < |days|
    ensures i >= 0 ==> days[i].date == k && forall j :: i < j < |days| ==> days[j].date != k
    ensures i == -1 <==> forall j :: 0 <= j < |days| ==> days[j].date != k
    decreases |days|
  {
    if days == [] then -1
    else if days[|days| - 1].date == k then |days| - 1
    else LastWithDate(days[..|days| - 1], k)
  }

  /** Looking a date up finds the figures of the last calendar day with that
      date, and pnl 0 with 0 trades for a date without one. */
  lemma {:induction false} PnlMapLookup(days: seq<CalendarDay>, k: string)
    ensures var i := LastWithDate(days, k);
      Get(PnlMapOf(days), k, NoData) == if i < 0 then NoData else DayCell(days[i].pnl, days[i].trades)
    decreases |days|
  {
    if days != [] {
      var init, d := days[..|days| - 1], days[|days| - 1];
      PnlMapLookup(init, k);
      PutGet(PnlMapOf(init), d.date, DayCell(d.pnl, d.trades), k, NoData);
    }
  }

  /** One cell of the grid: a padding cell has no date. */
  datatype GridCell = GridCell(date: Option<string>, pnl: real, trades: nat)

  /** `{ date: new Date(0), pnl: 0, trades: 0 }`, a cell before the first day. */
  const Padding := GridCell(None, 0.0, 0)

  /** The cell of date `key`. */
  function CellOf(pnlMap: seq<Entry<DayCell>>, key: string): GridCell
  {
    var data := Get(pnlMap, key, NoData);
    GridCell(Some(key), data.pnl, data.trades)
  }

  /** `count` padding cells. */
  function PaddingCells(count: nat): (cells: seq<GridCell>)
    ensures |cells| == count && forall i :: 0 <= i < count ==> cells[i] == Padding
  {
    seq(count, i => Padding)
  }

  /** One cell per day of the interval, in order. */
  function DayCells(pnlMap: seq<Entry<DayCell>>, allDays: seq<string>): (cells: seq<GridCell>)
    ensures |cells| == |allDays| && forall i :: 0 <= i < |allDays| ==> cells[i] == CellOf(pnlMap, allDays[i])
  {
    seq(|allDays|, i requires 0 <= i < |allDays| => CellOf(pnlMap, allDays[i]))
  }

  /** The grid's cells in order: `startDayOfWeek` padding cells, then one
      cell per day of the interval. */
  function Cells(pnlMap: seq<Entry<DayCell>>, allDays: seq<string>, startDayOfWeek: nat): (cells: seq<GridCell>)
  {
    PaddingCells(startDayOfWeek) + DayCells(pnlMap, allDays)
  }

  /** The weeks laid end to end. */
  function Flatten<T>(weeks: seq<seq<T>>): seq<T>
    decreases |weeks|
  {
    if weeks == [] then [] else Flatten(weeks[..|weeks| - 1]) + weeks[|weeks| - 1]
  }

  /** Every week has seven cells. */
  ghost predicate AllFull<T>(weeks: seq<seq<T>>)
  {
    forall w :: 0 <= w < |weeks| ==> |weeks[w]| == 7
  }

  lemma {:induction false} FlattenFull<T>(weeks: seq<seq<T>>)
    requires AllFull(weeks)
    ensures |Flatten(weeks)| == 7 * |weeks|
    decreases |weeks|
  {
    if weeks != [] {
      FlattenFull(weeks[..|weeks| - 1]);
    }
  }

  /** The loop that groups the cells into weeks: padding cells first, then a
      cell per day, a week closed whenever it holds seven cells and the last,
      shorter week closed after the loop. `startDayOfWeek` is `getDay` of the
      first day, a weekday number from 0 (Sunday) to 6. */
  method BuildWeeks(pnlMap: seq<Entry<DayCell>>, allDays: seq<string>, startDayOfWeek: nat) returns (weeks: seq<seq<GridCell>>)
    requires startDayOfWeek < 7
    ensures Flatten(weeks) == Cells(pnlMap, allDays, startDayOfWeek)
    ensures forall w :: 0 <= w < |weeks| - 1 ==> |weeks[w]| == 7
    ensures |weeks| > 0 ==> 1 <= |weeks[|weeks| - 1]| <= 7
    ensures |weeks| == (startDayOfWeek + |allDays| + 6) / 7
  {
    ghost var padding, dayCells := PaddingCells(startDayOfWeek), DayCells(pnlMap, allDays);
    weeks := [];
    var currentWeek: seq<GridCell> := [];
    for i := 0 to startDayOfWeek
      invariant currentWeek == padding[..i]
    {
      currentWeek := currentWeek + [Padding];
      assert padding[..i + 1] == padding[..i] + [Padding];
    }
    assert padding[..startDayOfWeek] == padding;
    for i := 0 to |allDays|
      invariant AllFull(weeks) && |currentWeek| < 7
      invariant Flatten(weeks) + currentWeek == padding + dayCells[..i]
    {
      var cell := CellOf(pnlMap, allDays[i]);
      AppendCell(Flatten(weeks), currentWeek, padding, dayCells, i);
      currentWeek := currentWeek + [cell];
      if |currentWeek| == 7 {
        CloseWeek(weeks, currentWeek);
        weeks := weeks + [currentWeek];
        currentWeek := [];
      }
    }
    assert dayCells[..|allDays|] == dayCells;
    FlattenFull(weeks);
    WeekCount(|weeks|, |currentWeek|, startDayOfWeek + |allDays|);
    if |currentWeek| > 0 {
      CloseWeek(weeks, currentWeek);
      weeks := weeks + [currentWeek];
    }
  }

  /** Adding day `i`'s cell to the open week extends the laid-out cells by it. */
  lemma AppendCell(done: seq<GridCell>, currentWeek: seq<GridCell>, padding: seq<GridCell>, dayCells: seq<GridCell>, i: nat)
    requires i < |dayCells|
    requires done + currentWeek == padding + dayCells[..i]
    ensures done + (currentWeek + [dayCells[i]]) == padding + dayCells[..i + 1]
  {
    var cell := dayCells[i];
    assert dayCells[..i + 1] == dayCells[..i] + [cell];
    assert done + (currentWeek + [cell]) == (done + currentWeek) + [cell];
    assert padding + (dayCells[..i] + [cell]) == (padding + dayCells[..i]) + [cell];
  }

  /** Closing a week appends its cells to the flattened weeks. */
  lemma CloseWeek<T>(weeks: seq<seq<T>>, week: seq<T>)
    ensures Flatten(weeks + [week]) == Flatten(weeks) + week
    ensures AllFull(weeks) && |week| == 7 ==> AllFull(weeks + [week])
  {
    assert (weeks + [week])[..|weeks|] == weeks;
  }

  /** `k` full weeks and `c` more cells make `ceil(total / 7)` weeks. */
  lemma WeekCount(k: nat, c: nat, total: nat)
    requires 7 * k + c == total && c < 7
    ensures (if c > 0 then k + 1 else k) == (total + 6) / 7
  {
    var q, r := (total + 6) / 7, (total + 6) % 7;
    assert total + 6 == 7 * q + r && 0 <= r < 7;
  }

  /** Every cell of the grid is a padding cell or the cell of one day, the
      days in their order, each showing the figures of its calendar entry. */
  lemma WeekCells(calendarData: seq<CalendarDay>, allDays: seq<string>, startDayOfWeek: nat, i: nat)
    requires i < |allDays|
    ensures |Cells(PnlMapOf(calendarData), allDays, startDayOfWeek)| == startDayOfWeek + |allDays|
    ensures var cell := Cells(PnlMapOf(calendarData), allDays, startDayOfWeek)[startDayOfWeek + i];
      var j := LastWithDate(calendarData, allDays[i]);
      && cell.date == Some(allDays[i])
      && (j < 0 ==> cell.pnl == 0.0 && cell.trades == 0)
      && (j >= 0 ==> cell.pnl == calendarData[j].pnl && cell.trades == calendarData[j].trades)
  {
    PnlMapLookup(calendarData, allDays[i]);
  }

  predicate IsProfitDay(d: CalendarDay) { d.pnl > 0.0 }

  predicate IsLossDay(d: CalendarDay) { d.pnl < 0.0 }

  predicate IsFlatDay(d: CalendarDay) { d.pnl == 0.0 }

  function DayPnl(d: CalendarDay): real { d.pnl }

  /** The figures under the grid. */
  datatype GridStats = GridStats(profitDays: nat, lossDays: nat, totalPnl: real)

  /** `profitDays`, `lossDays` and `totalPnl`: two filters and a sum. */
  function StatsOf(calendarData: seq<CalendarDay>): (stats: GridStats)
    ensures stats.profitDays + stats.lossDays <= |calendarData|
  {
    DaySplit(calendarData);
    GridStats(|Filter(calendarData, IsProfitDay)|, |Filter(calendarData, IsLossDay)|, Sum(calendarData, DayPnl))
  }

  /** Every day is a profit, a loss or a flat day; the flat days add nothing
      to the total. */
  lemma {:induction false} DaySplit(days: seq<CalendarDay>)
    ensures |Filter(days, IsProfitDay)| + |Filter(days, IsLossDay)| + |Filter(days, IsFlatDay)| == |days|
    ensures Sum(Filter(days, IsProfitDay), DayPnl) + Sum(Filter(days, IsLossDay), DayPnl) == Sum(days, DayPnl)
    decreases |days|
  {
    if days != [] {
      var init, d := days[..|days| - 1], days[|days| - 1];
      DaySplit(init);
      var profits, losses := Filter(init, IsProfitDay), Filter(init, IsLossDay);
      assert Sum(days, DayPnl) == Sum(init, DayPnl) + d.pnl;
      if IsProfitDay(d) {
        assert Filter(days, IsProfitDay) == profits + [d];
        assert Filter(days, IsLossDay) == losses;
        assert Sum(profits + [d], DayPnl) == Sum(profits, DayPnl) + d.pnl by {
          assert (profits + [d])[..|profits|] == profits;
        }
      } else if IsLossDay(d) {
        assert Filter(days, IsProfitDay) == profits;
        assert Filter(days, IsLossDay) == losses + [d];
        assert Sum(losses + [d], DayPnl) == Sum(losses, DayPnl) + d.pnl by {
          assert (losses + [d])[..|losses|] == losses;
        }
      } else {
        assert Filter(days, IsProfitDay) == profits;
        assert Filter(days, IsLossDay) == losses;
      }
    }
  }

  /** The profit and loss days are disjoint and never more than the days;
      the total is the profit days' sum (not negative) plus the loss days'
      sum (not positive). */
  lemma StatsMeaning(calendarData: seq<CalendarDay>)
    ensures var s := StatsOf(calendarData);
      && s.profitDays + s.lossDays <= |calendarData|
      && s.profitDays + s.lossDays == |calendarData| - |Filter(calendarData, IsFlatDay)|
      && s.totalPnl == Sum(Filter(calendarData, IsProfitDay), DayPnl) + Sum(Filter(calendarData, IsLossDay), DayPnl)
      && Sum(Filter(calendarData, IsProfitDay), DayPnl) >= 0.0
      && Sum(Filter(calendarData, IsLossDay), DayPnl) <= 0.0
  {
    DaySplit(calendarData);
    FilterMembers(calendarData, IsProfitDay);
    FilterMembers(calendarData, IsLossDay);
    SumNonNegative(Filter(calendarData, IsProfitDay), DayPnl);
    SumNonPositive(Filter(calendarData, IsLossDay), DayPnl);
  }
}
