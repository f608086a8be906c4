/** `calculateDailyPerformance` of src/lib/mockDataGenerator.ts: the trades
    grouped by the UTC day they were entered, the days in ascending key
    order, and a running equity curve with its high-water mark and drawdown.
    Every trade counts here, open or closed. */
module Daily {

  import opened Types
  import opened Seqs
  import opened OrderedMaps
  import Sorting
  import Strings
  import Dates
  import Metrics

  /** What the per-day map holds for one day. */
  datatype DayTotals = DayTotals(pnl: real, trades: nat, volume: real, fees: real)

  type DayEntry = Entry<DayTotals>

  /** The record `dailyMap.get(key) || {...}` falls back to. */
  const NoTrades := DayTotals(0.0, 0, 0.0, 0.0)

  /** The day key of a trade: the UTC date of its entry. */
  function DayOf(t: Trade): string { Dates.DateKey(t.entryTime) }

  function AddTrade(d: DayTotals, t: Trade): DayTotals
  {
    DayTotals(d.pnl + t.pnl, d.trades + 1, d.volume + Metrics.Volume(t), d.fees + t.fees)
  }

  /** The map the `forEach` over the trades builds with key function `dayOf`,
      keys in first-seen order. The lemmas below hold for any key function. */
  function GroupBy(trades: seq<Trade>, dayOf: Trade -> string): seq<Entry<DayTotals>>
    decreases |trades|
  {
    if trades == [] then []
    else
      var groups, t := GroupBy(trades[..|trades| - 1], dayOf), trades[|trades| - 1];
      Put(groups, dayOf(t), AddTrade(Get(groups, dayOf(t), NoTrades), t))
  }

  /** Each trade adds at most one day to the map, and the first one adds one. */
  lemma {:induction false} GroupSize(trades: seq<Trade>, dayOf: Trade -> string)
    ensures |GroupBy(trades, dayOf)| <= |trades|
    ensures GroupBy(trades, dayOf) == [] <==> trades == []
    decreases |trades|
  {
    if trades != [] {
      GroupSize(trades[..|trades| - 1], dayOf);
    }
  }

  /** The grouping loop shared by `calculateDailyPerformance` and
      `generateCalendarData`; both pass `DayOf` as the key function. */
  method GroupTrades(trades: seq<Trade>, dayOf: Trade -> string) returns (groups: seq<Entry<DayTotals>>)
    ensures groups == GroupBy(trades, dayOf)
  {
    groups := [];
    for i := 0 to |trades|
      invariant groups == GroupBy(trades[..i], dayOf)
    {
      var t := trades[i];
      var key := dayOf(t);
      var existing := Get(groups, key, NoTrades);
      groups := Put(groups, key, AddTrade(existing, t));
      assert trades[..i + 1][..i] == trades[..i];
    }
    assert trades[..|trades|] == trades;
  }

  /** The trades whose key is `k`. */
  function OnDay(k: string, dayOf: Trade -> string): Trade -> bool
  {
    t => dayOf(t) == k
  }

  /** The day figures of a list of trades, summed directly. */
  function TotalsOf(ts: seq<Trade>): DayTotals
  {
    DayTotals(Sum(ts, Metrics.Pnl), |ts|, Sum(ts, Metrics.Volume), Sum(ts, Metrics.Fees))
  }

  /** The keys of the trades. */
  function DaysOf(trades: seq<Trade>, dayOf: Trade -> string): set<string>
  {
    set t | t in trades :: dayOf(t)
  }

  lemma {:induction false} GroupValid(trades: seq<Trade>, dayOf: Trade -> string)
    ensures ValidMap(GroupBy(trades, dayOf))
    decreases |trades|
  {
    if trades != [] {
      var groups, t := GroupBy(trades[..|trades| - 1], dayOf), trades[|trades| - 1];
      GroupValid(trades[..|trades| - 1], dayOf);
      PutValid(groups, dayOf(t), AddTrade(Get(groups, dayOf(t), NoTrades), t));
    }
  }

  /** The map has a key for exactly the keys of the trades. */
  lemma {:induction false} GroupKeys(trades: seq<Trade>, dayOf: Trade -> string)
    ensures forall k :: k in Keys(GroupBy(trades, dayOf)) <==> k in DaysOf(trades, dayOf)
    decreases |trades|
  {
    if trades != [] {
      var init, t := trades[..|trades| - 1], trades[|trades| - 1];
      var groups := GroupBy(init, dayOf);
      GroupKeys(init, dayOf);
      PutKeys(groups, dayOf(t), AddTrade(Get(groups, dayOf(t), NoTrades), t));
      assert trades == init + [t];
      assert DaysOf(trades, dayOf) == DaysOf(init, dayOf) + {dayOf(t)};
    }
  }

  /** Each key's entry holds the totals of exactly the trades with that key. */
  lemma {:induction false} GroupTotals(trades: seq<Trade>, dayOf: Trade -> string, k: string)
    ensures Get(GroupBy(trades, dayOf), k, NoTrades) == TotalsOf(Filter(trades, OnDay(k, dayOf)))
    decreases |trades|
  {
    if trades != [] {
      var init, t := trades[..|trades| - 1], trades[|trades| - 1];
      var groups := GroupBy(init, dayOf);
      GroupTotals(init, dayOf, k);
      PutGet(groups, dayOf(t), AddTrade(Get(groups, dayOf(t), NoTrades), t), k, NoTrades);
      var before := Filter(init, OnDay(k, dayOf));
      if dayOf(t) == k {
        assert Filter(trades, OnDay(k, dayOf)) == before + [t];
        assert (before + [t])[..|before|] == before;
      } else {
        assert Filter(trades, OnDay(k, dayOf)) == before;
      }
    }
  }

  /** Summing a day figure over the map's entries gives the sum of the matching
      trade figure over all trades, for any figure that starts at 0 and that
      `AddTrade` increases by the trade's share. */
  lemma {:induction false} GroupSum(trades: seq<Trade>, dayOf: Trade -> string, f: Trade -> real, h: Entry<DayTotals> -> real)
    requires forall k :: h(Entry(k, NoTrades)) == 0.0
    requires forall k, d, t :: h(Entry(k, AddTrade(d, t))) == h(Entry(k, d)) + f(t)
    ensures Sum(GroupBy(trades, dayOf), h) == Sum(trades, f)
    decreases |trades|
  {
    if trades != [] {
      var init, t := trades[..|trades| - 1], trades[|trades| - 1];
      var groups := GroupBy(init, dayOf);
      GroupSum(init, dayOf, f, h);
      var k := dayOf(t);
      var previous := Get(groups, k, NoTrades);
      var e := Entry(k, AddTrade(previous, t));
      var i := IndexOf(groups, k);
      if i >= 0 {
        assert groups[i] == Entry(k, previous);
        SumUpdate(groups, i, e, h);
      } else {
        assert (groups + [e])[..|groups|] == groups;
      }
    }
  }

  function DayPnl(e: Entry<DayTotals>): real { e.value.pnl }
  function DayCount(e: Entry<DayTotals>): real { e.value.trades as real }
  function DayVolume(e: Entry<DayTotals>): real { e.value.volume }
  function DayFees(e: Entry<DayTotals>): real { e.value.fees }
  function One(t: Trade): real { 1.0 }

  /** No trade is lost or counted twice: the day figures add up to the trade
      figures, and the day counts to the number of trades. */
  lemma GroupConservation(trades: seq<Trade>, dayOf: Trade -> string)
    ensures Sum(GroupBy(trades, dayOf), DayPnl) == Sum(trades, Metrics.Pnl)
    ensures Sum(GroupBy(trades, dayOf), DayCount) == |trades| as real
    ensures Sum(GroupBy(trades, dayOf), DayVolume) == Sum(trades, Metrics.Volume)
    ensures Sum(GroupBy(trades, dayOf), DayFees) == Sum(trades, Metrics.Fees)
  {
    GroupSum(trades, dayOf, Metrics.Pnl, DayPnl);
    GroupSum(trades, dayOf, One, DayCount);
    SumOnes(trades);
    GroupSum(trades, dayOf, Metrics.Volume, DayVolume);
    GroupSum(trades, dayOf, Metrics.Fees, DayFees);
  }

  lemma {:induction false} SumOnes(trades: seq<Trade>)
    ensures Sum(trades, One) == |trades| as real
    decreases |trades|
  {
    if trades != [] {
      SumOnes(trades[..|trades| - 1]);
    }
  }

  /** The map's entries in ascending key order. The source compares keys with
      `localeCompare`, which agrees with code-unit order on `YYYY-MM-DD` keys
      of years 0 to 9999. */
  function SortedDays(trades: seq<Trade>, dayOf: Trade -> string): seq<Entry<DayTotals>>
  {
    Sorting.SortByKey(GroupBy(trades, dayOf), KeyOf, false)
  }

  /** The running `cumulativePnl` after the first `n` days. */
  function Equity(days: seq<Entry<DayTotals>>, n: nat): real
    requires n <= |days|
  {
    Sum(days[..n], DayPnl)
  }

  /** The running `highWaterMark` after the first `n` days: it starts at 0. */
  function Peak(days: seq<Entry<DayTotals>>, n: nat): real
    requires n <= |days|
  {
    if n == 0 then 0.0 else Max(Peak(days, n - 1), Equity(days, n))
  }

  /** The row the `map` callback returns for day `i`. */
  function Row(days: seq<Entry<DayTotals>>, i: nat): DailyPerformance
    requires i < |days|
  {
    var cumulative, peak := Equity(days, i + 1), Peak(days, i + 1);
    DailyPerformance(days[i].key, days[i].value.pnl, days[i].value.trades, days[i].value.volume,
      days[i].value.fees, cumulative, peak - cumulative, peak)
  }

  function Ledger(days: seq<Entry<DayTotals>>): (rows: seq<DailyPerformance>)
    ensures |rows| == |days|
  {
    seq(|days|, i requires 0 <= i < |days| => Row(days, i))
  }

  /** What `calculateDailyPerformance` returns, with key function `dayOf`:
      one row per day with trades, so never more rows than trades, and some
      row exactly when there is a trade. */
  function DailyPerformanceOf(trades: seq<Trade>, dayOf: Trade -> string): (rows: seq<DailyPerformance>)
    ensures |rows| <= |trades|
    ensures rows == [] <==> trades == []
  {
    GroupSize(trades, dayOf);
    Ledger(SortedDays(trades, dayOf))
  }

  /** `calculateDailyPerformance`: group by day, sort by date, then walk the days. */
  method CalculateDailyPerformance(trades: seq<Trade>) returns (rows: seq<DailyPerformance>)
    ensures rows == DailyPerformanceOf(trades, DayOf)
  {
    var groups := GroupTrades(trades, DayOf);
    var days := Sorting.SortByKey(groups, KeyOf, false);
    rows := LedgerWalk(days);
  }

  /** The `map` over the sorted days, keeping the running total and its
      high-water mark in two variables. */
  method LedgerWalk(days: seq<Entry<DayTotals>>) returns (rows: seq<DailyPerformance>)
    ensures rows == Ledger(days)
  {
    var cumulative, highWaterMark := 0.0, 0.0;
    rows := [];
    for i := 0 to |days|
      invariant |rows| == i
      invariant forall j :: 0 <= j < i ==> rows[j] == Row(days, j)
      invariant cumulative == Equity(days, i) && highWaterMark == Peak(days, i)
    {
      var e := days[i];
      EquityStep(days, i);
      cumulative := cumulative + e.value.pnl;
      highWaterMark := Max(highWaterMark, cumulative);
      var drawdown := highWaterMark - cumulative;
      rows := rows + [DailyPerformance(e.key, e.value.pnl, e.value.trades, e.value.volume, e.value.fees,
        cumulative, drawdown, highWaterMark)];
    }
  }

  lemma EquityStep(days: seq<Entry<DayTotals>>, n: nat)
    requires n < |days|
    ensures Equity(days, n + 1) == Equity(days, n) + days[n].value.pnl
  {
    assert days[..n + 1][..n] == days[..n];
  }

  function RowDate(r: DailyPerformance): string { r.date }
  function RowPnl(r: DailyPerformance): real { r.pnl }
  function RowCount(r: DailyPerformance): real { r.trades as real }
  function RowVolume(r: DailyPerformance): real { r.volume }
  function RowFees(r: DailyPerformance): real { r.fees }

  function DatesOf(rows: seq<DailyPerformance>): set<string>
  {
    set r | r in rows :: r.date
  }

  /** One row per key, in strictly ascending order of the keys. */
  lemma DailyDatesAscending(trades: seq<Trade>, dayOf: Trade -> string)
    ensures var rows := DailyPerformanceOf(trades, dayOf);
      forall i, j :: 0 <= i < j < |rows| ==> Strings.Less(rows[i].date, rows[j].date)
  {
    GroupValid(trades, dayOf);
    Sorting.SortByKeyStrict(GroupBy(trades, dayOf), KeyOf, false);
  }

  /** The rows' dates are exactly the keys of the trades. */
  lemma DailyDates(trades: seq<Trade>, dayOf: Trade -> string)
    ensures forall k :: k in DatesOf(DailyPerformanceOf(trades, dayOf)) <==> k in DaysOf(trades, dayOf)
  {
    GroupKeys(trades, dayOf);
    forall k
      ensures k in DatesOf(DailyPerformanceOf(trades, dayOf)) <==> k in Keys(GroupBy(trades, dayOf))
    {
      if k in DatesOf(DailyPerformanceOf(trades, dayOf)) {
        RowDateIsKey(trades, dayOf, k);
      }
      if k in Keys(GroupBy(trades, dayOf)) {
        KeyIsRowDate(trades, dayOf, k);
      }
    }
  }

  lemma RowDateIsKey(trades: seq<Trade>, dayOf: Trade -> string, k: string)
    requires k in DatesOf(DailyPerformanceOf(trades, dayOf))
    ensures k in Keys(GroupBy(trades, dayOf))
  {
    var groups, days := GroupBy(trades, dayOf), SortedDays(trades, dayOf);
    var rows := Ledger(days);
    var r :| r in rows && r.date == k;
    var i :| 0 <= i < |rows| && rows[i] == r;
    assert days[i] in multiset(groups);
    var j :| 0 <= j < |groups| && groups[j] == days[i];
    assert Keys(groups)[j] == k;
  }

  lemma KeyIsRowDate(trades: seq<Trade>, dayOf: Trade -> string, k: string)
    requires k in Keys(GroupBy(trades, dayOf))
    ensures k in DatesOf(DailyPerformanceOf(trades, dayOf))
  {
    var groups, days := GroupBy(trades, dayOf), SortedDays(trades, dayOf);
    var rows := Ledger(days);
    var j :| 0 <= j < |groups| && Keys(groups)[j] == k;
    assert groups[j] in multiset(days);
    var i :| 0 <= i < |days| && days[i] == groups[j];
    assert rows[i].date == k;
    assert rows[i] in rows;
  }

  /** Each row holds the totals of exactly the trades with its key. */
  lemma DailyTotals(trades: seq<Trade>, dayOf: Trade -> string, i: nat)
    requires i < |DailyPerformanceOf(trades, dayOf)|
    ensures var r := DailyPerformanceOf(trades, dayOf)[i];
      var ts := Filter(trades, OnDay(r.date, dayOf));
      r.pnl == Sum(ts, Metrics.Pnl) && r.trades == |ts|
      && r.volume == Sum(ts, Metrics.Volume) && r.fees == Sum(ts, Metrics.Fees)
  {
    var groups, days := GroupBy(trades, dayOf), SortedDays(trades, dayOf);
    var e := days[i];
    assert e in multiset(groups);
    var j :| 0 <= j < |groups| && groups[j] == e;
    GroupValid(trades, dayOf);
    GetEntry(groups, j, NoTrades);
    GroupTotals(trades, dayOf, e.key);
  }

  /** The rows' pnl adds up to the pnl of all trades, and their trade counts
      to the number of trades. */
  lemma DailyPnlConservation(trades: seq<Trade>, dayOf: Trade -> string)
    ensures Sum(DailyPerformanceOf(trades, dayOf), RowPnl) == Sum(trades, Metrics.Pnl)
    ensures Sum(DailyPerformanceOf(trades, dayOf), RowCount) == |trades| as real
  {
    var groups, days := GroupBy(trades, dayOf), SortedDays(trades, dayOf);
    GroupConservation(trades, dayOf);
    SumPermutation(days, groups, DayPnl);
    SumPermutation(days, groups, DayCount);
    SumCongruent(Ledger(days), days, RowPnl, DayPnl);
    SumCongruent(Ledger(days), days, RowCount, DayCount);
  }

  /** The rows' volume and fees add up to those of all trades. */
  lemma DailyVolumeConservation(trades: seq<Trade>, dayOf: Trade -> string)
    ensures Sum(DailyPerformanceOf(trades, dayOf), RowVolume) == Sum(trades, Metrics.Volume)
    ensures Sum(DailyPerformanceOf(trades, dayOf), RowFees) == Sum(trades, Metrics.Fees)
  {
    var groups, days := GroupBy(trades, dayOf), SortedDays(trades, dayOf);
    GroupConservation(trades, dayOf);
    SumPermutation(days, groups, DayVolume);
    SumPermutation(days, groups, DayFees);
    SumCongruent(Ledger(days), days, RowVolume, DayVolume);
    SumCongruent(Ledger(days), days, RowFees, DayFees);
  }

  /** The high-water mark after `n` days is at least 0 and every running total
      so far, and it is 0 or one of those totals. */
  lemma {:induction false} PeakBounds(days: seq<Entry<DayTotals>>, n: nat)
    requires n <= |days|
    ensures Peak(days, n) >= 0.0
    ensures forall j :: 1 <= j <= n ==> Peak(days, n) >= Equity(days, j)
    ensures Peak(days, n) == 0.0 || exists j :: 1 <= j <= n && Peak(days, n) == Equity(days, j)
    decreases n
  {
    if n > 0 {
      PeakBounds(days, n - 1);
    }
  }

  lemma {:induction false} PeakMonotone(days: seq<Entry<DayTotals>>, m: nat, n: nat)
    requires m <= n <= |days|
    ensures Peak(days, m) <= Peak(days, n)
    decreases n
  {
    if m < n {
      PeakMonotone(days, m, n - 1);
    }
  }

  /** The running columns: `cumulativePnl` is the sum of the rows so far,
      `highWaterMark` never falls, is at least 0 and every earlier
      `cumulativePnl`, and `drawdown` is the gap below it. */
  lemma DailyRunning(trades: seq<Trade>, dayOf: Trade -> string, i: nat)
    requires i < |DailyPerformanceOf(trades, dayOf)|
    ensures var rows := DailyPerformanceOf(trades, dayOf);
      && rows[i].cumulativePnl == Sum(rows[..i + 1], RowPnl)
      && rows[i].drawdown == rows[i].highWaterMark - rows[i].cumulativePnl >= 0.0
      && rows[i].highWaterMark >= 0.0
      && (forall j :: 0 <= j <= i ==> rows[i].highWaterMark >= rows[j].cumulativePnl)
      && (rows[i].highWaterMark == 0.0 || exists j :: 0 <= j <= i && rows[i].highWaterMark == rows[j].cumulativePnl)
      && (i > 0 ==> rows[i - 1].highWaterMark <= rows[i].highWaterMark)
  {
    var days := SortedDays(trades, dayOf);
    var rows := Ledger(days);
    SumCongruent(rows[..i + 1], days[..i + 1], RowPnl, DayPnl);
    PeakBounds(days, i + 1);
    forall j | 0 <= j <= i
      ensures rows[i].highWaterMark >= rows[j].cumulativePnl
    {
      assert rows[j].cumulativePnl == Equity(days, j + 1);
    }
    if rows[i].highWaterMark != 0.0 {
      var j :| 1 <= j <= i + 1 && Peak(days, i + 1) == Equity(days, j);
      assert rows[j - 1].cumulativePnl == Equity(days, j);
    }
    if i > 0 {
      PeakMonotone(days, i, i + 1);
    }
  }
}
