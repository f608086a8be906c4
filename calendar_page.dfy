/** The two summaries of src/app/calendar/page.tsx, both computed from the
    store's calendar days: the latest six months with their totals, and the
    winning and losing day streaks. */
module CalendarPage {

  import opened Types
  import opened Seqs
  import opened OrderedMaps
  import Sorting
  import Strings
  import Runs
  import PerformanceCalendar

  /** What the month map holds for one month. */
  datatype MonthTotals = MonthTotals(pnl: real, trades: nat, profitDays: nat, lossDays: nat)

  /** The record `monthlyMap.get(monthKey) || {...}` falls back to. */
  const NoDays := MonthTotals(0.0, 0, 0, 0)

  /** `date.substring(0, 7)`: the `YYYY-MM` part of a day key (the whole
      string when it is shorter). */
  function MonthKey(date: string): (k: string)
    ensures |k| == if |date| < 7 then |date| else 7
    ensures k <= date
  {
    if |date| <= 7 then date else date[..7]
  }

  function AddDay(m: MonthTotals, d: CalendarDay): MonthTotals
  {
    MonthTotals(m.pnl + d.pnl, m.trades + d.trades,
      m.profitDays + (if d.pnl > 0.0 then 1 else 0), m.lossDays + (if d.pnl < 0.0 then 1 else 0))
  }

  /** The map the `forEach` over the calendar days builds, months in
      first-seen order. */
  function GroupMonths(days: seq<CalendarDay>): seq<Entry<MonthTotals>>
    decreases |days|
  {
    if days == [] then []
    else
      var months, d := GroupMonths(days[..|days| - 1]), days[|days| - 1];
      Put(months, MonthKey(d.date), AddDay(Get(months, MonthKey(d.date), NoDays), d))
  }

  /** The first `n` elements, or all of them when there are fewer (`slice(0, n)`). */
  function Take<T>(s: seq<T>, n: nat): (r: seq<T>)
    ensures |r| == if |s| < n then |s| else n
    ensures r <= s
  {
    if |s| < n then s else s[..n]
  }

  /** What the `monthlyStats` memo returns, each month with its key rather
      than its displayed label: the months newest first, at most six. */
  function MonthlyStatsOf(days: seq<CalendarDay>): (stats: seq<Entry<MonthTotals>>)
    ensures |stats| <= 6
    ensures Sorting.StrictlySortedBy(stats, KeyOf, true)
  {
    GroupMonthKeys(days);
    Sorting.SortByKeyStrict(GroupMonths(days), KeyOf, true);
    TakeStrict(Sorting.SortByKey(GroupMonths(days), KeyOf, true), 6, KeyOf, true);
    Take(Sorting.SortByKey(GroupMonths(days), KeyOf, true), 6)
  }

  /** A prefix of a strictly ordered list is strictly ordered. */
  lemma TakeStrict<T>(s: seq<T>, n: nat, key: T -> string, descending: bool)
    requires Sorting.StrictlySortedBy(s, key, descending)
    ensures Sorting.StrictlySortedBy(Take(s, n), key, descending)
  {
    var r := Take(s, n);
    forall i, j | 0 <= i < j < |r|
      ensures Sorting.Before(key(r[i]), key(r[j]), descending)
    {
      assert r[i] == s[i] && r[j] == s[j];
    }
  }

  /** The `monthlyStats` memo: the grouping loop, the sort by month key,
      newest first, and the first six. */
  method MonthlyStats(calendarData: seq<CalendarDay>) returns (stats: seq<Entry<MonthTotals>>)
    ensures stats == MonthlyStatsOf(calendarData)
  {
    var monthlyMap: seq<Entry<MonthTotals>> := [];
    for i := 0 to |calendarData|
      invariant monthlyMap == GroupMonths(calendarData[..i])
    {
      var day := calendarData[i];
      var monthKey := MonthKey(day.date);
      var existing := Get(monthlyMap, monthKey, NoDays);
      monthlyMap := Put(monthlyMap, monthKey, AddDay(existing, day));
      assert calendarData[..i + 1][..i] == calendarData[..i];
    }
    assert calendarData[..|calendarData|] == calendarData;
    var sorted := Sorting.SortByKey(monthlyMap, KeyOf, true);
    stats := Take(sorted, 6);
  }

  /** The days of month `k`. */
  function InMonth(k: string): CalendarDay -> bool
  {
    (d: CalendarDay) => MonthKey(d.date) == k
  }

  function DayTrades(d: CalendarDay): real { d.trades as real }

  /** Each month's entry sums the pnl and trades of exactly the days of that
      month, and counts those of them with pnl above 0 and below 0. */
  lemma {:induction false} GroupMonthTotals(days: seq<CalendarDay>, k: string)
    ensures var m, ds := Get(GroupMonths(days), k, NoDays), Filter(days, InMonth(k));
      && m.pnl == Sum(ds, PerformanceCalendar.DayPnl)
      && m.trades as real == Sum(ds, DayTrades)
      && m.profitDays == |Filter(ds, PerformanceCalendar.IsProfitDay)|
      && m.lossDays == |Filter(ds, PerformanceCalendar.IsLossDay)|
    decreases |days|
  {
    if days != [] {
      var init, d := days[..|days| - 1], days[|days| - 1];
      var months := GroupMonths(init);
      GroupMonthTotals(init, k);
      PutGet(months, MonthKey(d.date), AddDay(Get(months, MonthKey(d.date), NoDays), d), k, NoDays);
      var before := Filter(init, InMonth(k));
      if MonthKey(d.date) == k {
        var after := before + [d];
        assert Filter(days, InMonth(k)) == after;
        assert after[..|before|] == before;
      } else {
        assert Filter(days, InMonth(k)) == before;
      }
    }
  }

  /** A month's profit and loss days never outnumber its days. */
  lemma MonthDayCounts(days: seq<CalendarDay>, k: string)
    ensures var m := Get(GroupMonths(days), k, NoDays);
      m.profitDays + m.lossDays <= |Filter(days, InMonth(k))|
  {
    GroupMonthTotals(days, k);
    PerformanceCalendar.DaySplit(Filter(days, InMonth(k)));
  }

  /** The months of the days. */
  function MonthsOf(days: seq<CalendarDay>): set<string>
  {
    set d | d in days :: MonthKey(d.date)
  }

  /** The month map has an entry for exactly the months of the days, each
      month once. */
  lemma {:induction false} GroupMonthKeys(days: seq<CalendarDay>)
    ensures ValidMap(GroupMonths(days))
    ensures forall k :: k in Keys(GroupMonths(days)) <==> k in MonthsOf(days)
    decreases |days|
  {
    if days != [] {
      var init, d := days[..|days| - 1], days[|days| - 1];
      var months := GroupMonths(init);
      GroupMonthKeys(init);
      var v := AddDay(Get(months, MonthKey(d.date), NoDays), d);
      PutKeys(months, MonthKey(d.date), v);
      PutValid(months, MonthKey(d.date), v);
      assert days == init + [d];
      assert MonthsOf(days) == MonthsOf(init) + {MonthKey(d.date)};
    }
  }

  /** The shown months are newest first, none twice, at most six, each with
      its entry of the month map. */
  lemma MonthlyStatsOrder(days: seq<CalendarDay>)
    ensures var stats := MonthlyStatsOf(days);
      && |stats| <= 6
      && (forall i, j :: 0 <= i < j < |stats| ==> Strings.Less(stats[j].key, stats[i].key))
      && (forall i :: 0 <= i < |stats| ==> stats[i] in GroupMonths(days))
  {
    var months := GroupMonths(days);
    GroupMonthKeys(days);
    Sorting.SortByKeyStrict(months, KeyOf, true);
    var sorted := Sorting.SortByKey(months, KeyOf, true);
    var stats := MonthlyStatsOf(days);
    forall i, j | 0 <= i < j < |stats|
      ensures Strings.Less(stats[j].key, stats[i].key)
    {
      assert Sorting.Before(KeyOf(sorted[i]), KeyOf(sorted[j]), true);
    }
    forall i | 0 <= i < |stats|
      ensures stats[i] in months
    {
      assert stats[i] == sorted[i];
      assert sorted[i] in multiset(sorted);
    }
  }

  /** No month is left out unless six newer ones are shown. */
  lemma MonthlyStatsNewest(days: seq<CalendarDay>, k: string)
    requires k in Keys(GroupMonths(days))
    ensures var stats := MonthlyStatsOf(days);
      (exists i :: 0 <= i < |stats| && stats[i].key == k)
      || (|stats| == 6 && forall i :: 0 <= i < 6 ==> Strings.Less(k, stats[i].key))
  {
    var months := GroupMonths(days);
    GroupMonthKeys(days);
    Sorting.SortByKeyStrict(months, KeyOf, true);
    var sorted := Sorting.SortByKey(months, KeyOf, true);
    var stats := MonthlyStatsOf(days);
    var e :| e in months && e.key == k;
    assert e in multiset(months);
    assert e in sorted;
    var j :| 0 <= j < |sorted| && sorted[j] == e;
    if j >= 6 {
      forall i | 0 <= i < 6
        ensures Strings.Less(k, stats[i].key)
      {
        assert Sorting.Before(KeyOf(sorted[i]), KeyOf(sorted[j]), true);
      }
    } else {
      assert stats[j].key == k;
    }
  }

  /** The four counters the `streakStats` memo returns. */
  datatype Streaks = Streaks(currentWinStreak: nat, currentLossStreak: nat, maxWinStreak: nat, maxLossStreak: nat)

  function DateOf(d: CalendarDay): string { d.date }

  /** A day with a gain or a loss; a day at exactly 0 changes no counter. */
  predicate IsActiveDay(d: CalendarDay) { d.pnl != 0.0 }

  /** What the `streakStats` memo returns: the counters of the winning and
      losing days among the days with nonzero pnl, taken in date order. */
  function StreaksOf(days: seq<CalendarDay>): (s: Streaks)
    ensures s.currentWinStreak <= s.maxWinStreak && s.currentLossStreak <= s.maxLossStreak
    ensures s.currentWinStreak == 0 || s.currentLossStreak == 0
  {
    var active := Filter(Sorting.SortByKey(days, DateOf, false), IsActiveDay);
    Runs.LongestRunIsLongest(active, PerformanceCalendar.IsProfitDay);
    Runs.LongestRunIsLongest(active, PerformanceCalendar.IsLossDay);
    Streaks(
      Runs.TrailingRun(active, PerformanceCalendar.IsProfitDay),
      Runs.TrailingRun(active, PerformanceCalendar.IsLossDay),
      Runs.LongestRun(active, PerformanceCalendar.IsProfitDay),
      Runs.LongestRun(active, PerformanceCalendar.IsLossDay))
  }

  /** The `streakStats` memo: sort the days by date, then walk them. */
  method StreakStats(calendarData: seq<CalendarDay>) returns (s: Streaks)
    ensures s == StreaksOf(calendarData)
  {
    var sortedDays := Sorting.SortByKey(calendarData, DateOf, false);
    s := StreakWalk(sortedDays);
  }

  /** The `forEach` over the sorted days: a gain extends the winning streak
      and ends the losing one, a loss the reverse, a flat day neither. */
  method StreakWalk(sortedDays: seq<CalendarDay>) returns (s: Streaks)
    ensures var active := Filter(sortedDays, IsActiveDay);
      s == Streaks(
        Runs.TrailingRun(active, PerformanceCalendar.IsProfitDay),
        Runs.TrailingRun(active, PerformanceCalendar.IsLossDay),
        Runs.LongestRun(active, PerformanceCalendar.IsProfitDay),
        Runs.LongestRun(active, PerformanceCalendar.IsLossDay))
  {
    var currentWinStreak, currentLossStreak, maxWinStreak, maxLossStreak := 0, 0, 0, 0;
    ghost var active: seq<CalendarDay> := [];
    for i := 0 to |sortedDays|
      invariant active == Filter(sortedDays[..i], IsActiveDay)
      invariant currentWinStreak == Runs.TrailingRun(active, PerformanceCalendar.IsProfitDay)
      invariant currentLossStreak == Runs.TrailingRun(active, PerformanceCalendar.IsLossDay)
      invariant maxWinStreak == Runs.LongestRun(active, PerformanceCalendar.IsProfitDay)
      invariant maxLossStreak == Runs.LongestRun(active, PerformanceCalendar.IsLossDay)
    {
      var day := sortedDays[i];
      assert sortedDays[..i + 1][..i] == sortedDays[..i];
      if day.pnl > 0.0 {
        StreakStep(active, day);
        active := active + [day];
        currentWinStreak := currentWinStreak + 1;
        currentLossStreak := 0;
        maxWinStreak := MaxNat(maxWinStreak, currentWinStreak);
      } else if day.pnl < 0.0 {
        StreakStep(active, day);
        active := active + [day];
        currentLossStreak := currentLossStreak + 1;
        currentWinStreak := 0;
        maxLossStreak := MaxNat(maxLossStreak, currentLossStreak);
      }
    }
    assert sortedDays[..|sortedDays|] == sortedDays;
    s := Streaks(currentWinStreak, currentLossStreak, maxWinStreak, maxLossStreak);
  }

  /** One more active day: it extends the streak of its own kind and ends the
      other one. */
  lemma StreakStep(active: seq<CalendarDay>, d: CalendarDay)
    requires d.pnl != 0.0
    ensures var p, l, next := PerformanceCalendar.IsProfitDay, PerformanceCalendar.IsLossDay, active + [d];
      && (d.pnl > 0.0 ==>
           && Runs.TrailingRun(next, p) == Runs.TrailingRun(active, p) + 1
           && Runs.TrailingRun(next, l) == 0
           && Runs.LongestRun(next, p) == MaxNat(Runs.LongestRun(active, p), Runs.TrailingRun(active, p) + 1)
           && Runs.LongestRun(next, l) == Runs.LongestRun(active, l))
      && (d.pnl < 0.0 ==>
           && Runs.TrailingRun(next, l) == Runs.TrailingRun(active, l) + 1
           && Runs.TrailingRun(next, p) == 0
           && Runs.LongestRun(next, l) == MaxNat(Runs.LongestRun(active, l), Runs.TrailingRun(active, l) + 1)
           && Runs.LongestRun(next, p) == Runs.LongestRun(active, p))
  {
    assert (active + [d])[..|active|] == active;
  }

  /** Each maximum is at least its current streak, at most one current streak
      is running, and each maximum is the length of the longest stretch of
      consecutive winning (losing) days among the active days in date order. */
  lemma StreaksMeaning(days: seq<CalendarDay>)
    ensures var s, active := StreaksOf(days), Filter(Sorting.SortByKey(days, DateOf, false), IsActiveDay);
      && s.maxWinStreak >= s.currentWinStreak
      && s.maxLossStreak >= s.currentLossStreak
      && (s.currentWinStreak == 0 || s.currentLossStreak == 0)
      && (forall i, j :: 0 <= i <= j <= |active| && Runs.RunAt(active, PerformanceCalendar.IsProfitDay, i, j) ==> j - i <= s.maxWinStreak)
      && (forall i, j :: 0 <= i <= j <= |active| && Runs.RunAt(active, PerformanceCalendar.IsLossDay, i, j) ==> j - i <= s.maxLossStreak)
  {
    var active := Filter(Sorting.SortByKey(days, DateOf, false), IsActiveDay);
    Runs.LongestRunIsLongest(active, PerformanceCalendar.IsProfitDay);
    Runs.LongestRunIsLongest(active, PerformanceCalendar.IsLossDay);
  }
}
