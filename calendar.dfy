/** `generateCalendarData` of src/lib/mockDataGenerator.ts: one heat-map cell
    per day on which trades were entered, in the order the days were first
    seen, with a 0-4 intensity scaled against the day of largest absolute pnl. */
module Calendar {

  import opened Types
  import opened Seqs
  import opened OrderedMaps
  import Daily
  import Metrics

  /** `Math.max(...)` of the days' absolute pnl. */
  function MaxAbsPnl(groups: seq<Daily.DayEntry>): (r: real)
    requires |groups| > 0
    ensures forall i :: 0 <= i < |groups| ==> Abs(groups[i].value.pnl) <= r
    ensures exists i :: 0 <= i < |groups| && Abs(groups[i].value.pnl) == r
    decreases |groups|
  {
    if |groups| == 1 then Abs(groups[0].value.pnl)
    else Max(MaxAbsPnl(groups[..|groups| - 1]), Abs(groups[|groups| - 1].value.pnl))
  }

  /** `Math.min(4, Math.floor(|pnl| / maxPnl * 5))`; with `maxPnl` 0 the
      division is 0/0 and the intensity is NaN, here None. */
  function Intensity(pnl: real, maxPnl: real): (r: Option<int>)
    requires Abs(pnl) <= maxPnl
    ensures r == None <==> maxPnl == 0.0
    ensures r.Some? ==> 0 <= r.value <= 4
    ensures r.Some? ==> r.value as real <= Abs(pnl) / maxPnl * 5.0
    ensures r.Some? && r.value < 4 ==> Abs(pnl) / maxPnl * 5.0 < r.value as real + 1.0
    ensures r.Some? ==> (r.value == 4 <==> Abs(pnl) / maxPnl * 5.0 >= 4.0)
  {
    if maxPnl == 0.0 then None
    else
      var level := (Abs(pnl) / maxPnl * 5.0).Floor;
      ScaleBounds(Abs(pnl), maxPnl, level);
      Some(if level < 4 then level else 4)
  }

  /** The scaled ratio lies in [0, 5], so its floor does too. */
  lemma ScaleBounds(a: real, m: real, level: int)
    requires 0.0 <= a <= m && m > 0.0
    requires level == (a / m * 5.0).Floor
    ensures 0 <= level <= 5
  {
    DivMonotone(0.0, a, m);
    DivMonotone(a, m, m);
    DivSelf(m);
  }

  lemma DivSelf(m: real)
    requires m > 0.0
    ensures m / m == 1.0
  {
  }

  lemma DivMonotone(a: real, b: real, m: real)
    requires a <= b && m > 0.0
    ensures a / m <= b / m
  {
    var x, y := a / m, b / m;
    assert x * m == a && y * m == b;
  }

  /** A larger absolute pnl never gets a lower intensity. */
  lemma IntensityMonotone(p: real, q: real, maxPnl: real)
    requires Abs(p) <= Abs(q) <= maxPnl && maxPnl > 0.0
    ensures Intensity(p, maxPnl).value <= Intensity(q, maxPnl).value
  {
    DivMonotone(Abs(p), Abs(q), maxPnl);
  }

  function CalendarDayOf(e: Daily.DayEntry, maxPnl: real): CalendarDay
    requires Abs(e.value.pnl) <= maxPnl
  {
    CalendarDay(e.key, e.value.pnl, e.value.trades, e.value.pnl >= 0.0, Intensity(e.value.pnl, maxPnl))
  }

  /** What `generateCalendarData` returns, with key function `dayOf`. */
  function CalendarDataOf(trades: seq<Trade>, dayOf: Trade -> string): (days: seq<CalendarDay>)
    ensures |days| == |Daily.GroupBy(trades, dayOf)|
  {
    var groups := Daily.GroupBy(trades, dayOf);
    if groups == [] then []
    else
      var maxPnl := MaxAbsPnl(groups);
      seq(|groups|, i requires 0 <= i < |groups| => CalendarDayOf(groups[i], maxPnl))
  }

  /** `generateCalendarData`: the grouping loop, then one cell per map entry. */
  method GenerateCalendarData(trades: seq<Trade>) returns (days: seq<CalendarDay>)
    ensures days == CalendarDataOf(trades, Daily.DayOf)
  {
    var groups := Daily.GroupTrades(trades, Daily.DayOf);
    if groups == [] {
      days := [];
    } else {
      var maxPnl := MaxAbsPnl(groups);
      days := seq(|groups|, i requires 0 <= i < |groups| => CalendarDayOf(groups[i], maxPnl));
    }
  }

  /** One cell per key of the trades, no key twice. */
  lemma CalendarDates(trades: seq<Trade>, dayOf: Trade -> string)
    ensures var days := CalendarDataOf(trades, dayOf);
      && (forall i, j :: 0 <= i < j < |days| ==> days[i].date != days[j].date)
      && (forall k :: (exists i :: 0 <= i < |days| && days[i].date == k) <==> k in Daily.DaysOf(trades, dayOf))
  {
    var groups := Daily.GroupBy(trades, dayOf);
    var days := CalendarDataOf(trades, dayOf);
    Daily.GroupValid(trades, dayOf);
    Daily.GroupKeys(trades, dayOf);
    assert forall i :: 0 <= i < |days| ==> days[i].date == Keys(groups)[i];
  }

  /** Each cell holds the pnl and count of exactly the trades with its key,
      and is a profit day exactly when that pnl is not negative. */
  lemma CalendarTotals(trades: seq<Trade>, dayOf: Trade -> string, i: nat)
    requires i < |CalendarDataOf(trades, dayOf)|
    ensures var d := CalendarDataOf(trades, dayOf)[i];
      var ts := Filter(trades, Daily.OnDay(d.date, dayOf));
      d.pnl == Sum(ts, Metrics.Pnl) && d.trades == |ts| && (d.isProfit <==> d.pnl >= 0.0)
  {
    var groups := Daily.GroupBy(trades, dayOf);
    Daily.GroupValid(trades, dayOf);
    GetEntry(groups, i, Daily.NoTrades);
    Daily.GroupTotals(trades, dayOf, groups[i].key);
  }

  /** The heat map and the daily series agree on every date they share. */
  lemma CalendarMatchesDaily(trades: seq<Trade>, dayOf: Trade -> string, i: nat, j: nat)
    requires i < |CalendarDataOf(trades, dayOf)| && j < |Daily.DailyPerformanceOf(trades, dayOf)|
    requires CalendarDataOf(trades, dayOf)[i].date == Daily.DailyPerformanceOf(trades, dayOf)[j].date
    ensures CalendarDataOf(trades, dayOf)[i].pnl == Daily.DailyPerformanceOf(trades, dayOf)[j].pnl
    ensures CalendarDataOf(trades, dayOf)[i].trades == Daily.DailyPerformanceOf(trades, dayOf)[j].trades
  {
    CalendarTotals(trades, dayOf, i);
    Daily.DailyTotals(trades, dayOf, j);
  }

  /** The scale: no intensity at all when every day's pnl is 0; otherwise the
      day of largest absolute pnl gets 4 and intensity grows with |pnl|. */
  lemma CalendarScale(trades: seq<Trade>, dayOf: Trade -> string)
    ensures var days := CalendarDataOf(trades, dayOf);
      && (forall i :: 0 <= i < |days| ==>
            (days[i].intensity == None <==> forall j :: 0 <= j < |days| ==> days[j].pnl == 0.0))
      && ((exists i :: 0 <= i < |days| && days[i].pnl != 0.0) ==> exists i :: 0 <= i < |days| && days[i].intensity == Some(4))
      && (forall i, j :: 0 <= i < |days| && 0 <= j < |days| && Abs(days[i].pnl) <= Abs(days[j].pnl) && days[i].intensity.Some?
            ==> days[j].intensity.Some? && days[i].intensity.value <= days[j].intensity.value)
  {
    ScaleNone(trades, dayOf);
    ScaleTop(trades, dayOf);
    ScaleMonotone(trades, dayOf);
  }

  /** The cells are those of the groups against the largest absolute pnl. */
  lemma CellsOfGroups(trades: seq<Trade>, dayOf: Trade -> string)
    requires Daily.GroupBy(trades, dayOf) != []
    ensures var groups, days := Daily.GroupBy(trades, dayOf), CalendarDataOf(trades, dayOf);
      forall i :: 0 <= i < |days| ==> days[i] == CalendarDayOf(groups[i], MaxAbsPnl(groups))
  {
  }

  lemma ScaleNone(trades: seq<Trade>, dayOf: Trade -> string)
    ensures var days := CalendarDataOf(trades, dayOf);
      forall i :: 0 <= i < |days| ==>
        (days[i].intensity == None <==> forall j :: 0 <= j < |days| ==> days[j].pnl == 0.0)
  {
    var groups := Daily.GroupBy(trades, dayOf);
    if groups != [] {
      CellsOfGroups(trades, dayOf);
      var maxPnl := MaxAbsPnl(groups);
      if maxPnl != 0.0 {
        var top :| 0 <= top < |groups| && Abs(groups[top].value.pnl) == maxPnl;
        assert CalendarDataOf(trades, dayOf)[top].pnl != 0.0;
      }
    }
  }

  lemma ScaleTop(trades: seq<Trade>, dayOf: Trade -> string)
    ensures var days := CalendarDataOf(trades, dayOf);
      (exists i :: 0 <= i < |days| && days[i].pnl != 0.0) ==> exists i :: 0 <= i < |days| && days[i].intensity == Some(4)
  {
    var groups := Daily.GroupBy(trades, dayOf);
    var days := CalendarDataOf(trades, dayOf);
    if groups != [] {
      CellsOfGroups(trades, dayOf);
      var maxPnl := MaxAbsPnl(groups);
      if maxPnl != 0.0 {
        var top :| 0 <= top < |groups| && Abs(groups[top].value.pnl) == maxPnl;
        DivSelf(maxPnl);
        assert days[top].intensity == Some(4);
      }
    }
  }

  lemma ScaleMonotone(trades: seq<Trade>, dayOf: Trade -> string)
    ensures var days := CalendarDataOf(trades, dayOf);
      forall i, j :: 0 <= i < |days| && 0 <= j < |days| && Abs(days[i].pnl) <= Abs(days[j].pnl) && days[i].intensity.Some?
        ==> days[j].intensity.Some? && days[i].intensity.value <= days[j].intensity.value
  {
    var groups := Daily.GroupBy(trades, dayOf);
    var days := CalendarDataOf(trades, dayOf);
    if groups != [] {
      CellsOfGroups(trades, dayOf);
      var maxPnl := MaxAbsPnl(groups);
      forall i, j | 0 <= i < |days| && 0 <= j < |days| && Abs(days[i].pnl) <= Abs(days[j].pnl) && days[i].intensity.Some?
        ensures days[j].intensity.Some? && days[i].intensity.value <= days[j].intensity.value
      {
        IntensityMonotone(days[i].pnl, days[j].pnl, maxPnl);
      }
    }
  }
}
