/** The trade store of src/store/tradeStore.ts: the raw trade list, the two
    filters, and the figures derived from the filtered list, kept in step by
    the store's actions. The clock (`new Date()`) is the parameter `now`. */
module Store {

  import opened Types
  import opened Seqs
  import Sorting
  import Strings
  import Metrics
  import Daily
  import Risk
  import Calendar

  datatype DateRange = Last7Days | Last30Days | Last90Days | AllTime

  /** The `string | 'all'` filter. The string "all" is `AllSymbols` itself,
      so `OnlySymbol("all")` stands for no value of the source's type. */
  datatype SymbolFilter = AllSymbols | OnlySymbol(name: string)

  datatype DataSource = Mock | Wallet

  /** The `daysMap` lookup. */
  function RangeDays(r: DateRange): nat
  {
    match r
    case Last7Days => 7
    case Last30Days => 30
    case Last90Days => 90
    case AllTime => 0
  }

  /** `new Date(now - days * 24 * 60 * 60 * 1000)`: None when that instant is
      outside the range of a `Date` (an Invalid Date, against which every
      comparison is false). */
  function Cutoff(now: TimeValue, days: nat): Option<TimeValue>
  {
    var c := now - days * MsPerDay;
    if -MaxTimeValue <= c <= MaxTimeValue then Some(c) else None
  }

  function EnteredSince(cutoff: Option<TimeValue>): Trade -> bool
  {
    (t: Trade) => cutoff.Some? && t.entryTime >= cutoff.value
  }

  /** `filterTradesByDate`: a selection of the trades in their own order. */
  function FilterByDate(trades: seq<Trade>, range: DateRange, now: TimeValue): (r: seq<Trade>)
    ensures IsSubsequence(r, trades)
  {
    if range == AllTime then
      SubsequenceOfItself(trades);
      trades
    else
      var keep := EnteredSince(Cutoff(now, RangeDays(range)));
      FilterIsSubsequence(trades, keep);
      Filter(trades, keep)
  }

  function HasSymbol(name: string): Trade -> bool
  {
    (t: Trade) => t.symbol.Name() == name
  }

  /** `filterTradesBySymbol`: a selection of the trades in their own order. */
  function FilterBySymbol(trades: seq<Trade>, symbol: SymbolFilter): (r: seq<Trade>)
    ensures IsSubsequence(r, trades)
  {
    match symbol
    case AllSymbols => SubsequenceOfItself(trades); trades
    case OnlySymbol(name) => FilterIsSubsequence(trades, HasSymbol(name)); Filter(trades, HasSymbol(name))
  }

  /** The list `applyFilters` derives everything from. */
  function Filtered(allTrades: seq<Trade>, range: DateRange, symbol: SymbolFilter, now: TimeValue): seq<Trade>
  {
    FilterBySymbol(FilterByDate(allTrades, range, now), symbol)
  }

  /** The trade passes the date filter. */
  predicate InRange(t: Trade, range: DateRange, now: TimeValue)
  {
    range == AllTime || (Cutoff(now, RangeDays(range)).Some? && t.entryTime >= now - RangeDays(range) * MsPerDay)
  }

  /** The trade passes the symbol filter. */
  predicate OfSymbol(t: Trade, symbol: SymbolFilter)
  {
    symbol == AllSymbols || t.symbol.Name() == symbol.name
  }

  /** The date filter keeps the list as it is for 'all', and otherwise keeps,
      in order, exactly the trades entered at or after the cutoff. */
  lemma FilterByDateMeaning(trades: seq<Trade>, range: DateRange, now: TimeValue)
    ensures range == AllTime ==> FilterByDate(trades, range, now) == trades
    ensures IsSubsequence(FilterByDate(trades, range, now), trades)
    ensures forall t :: t in FilterByDate(trades, range, now) <==> t in trades && InRange(t, range, now)
  {
    if range == AllTime {
      FilterAll(trades, (t: Trade) => true);
      assert Filter(trades, (t: Trade) => true) == trades;
      FilterIsSubsequence(trades, (t: Trade) => true);
    } else {
      FilterIsSubsequence(trades, EnteredSince(Cutoff(now, RangeDays(range))));
      FilterMembers(trades, EnteredSince(Cutoff(now, RangeDays(range))));
    }
  }

  /** The symbol filter keeps the list as it is for 'all', and otherwise
      keeps, in order, exactly the trades of that symbol. */
  lemma FilterBySymbolMeaning(trades: seq<Trade>, symbol: SymbolFilter)
    ensures symbol == AllSymbols ==> FilterBySymbol(trades, symbol) == trades
    ensures IsSubsequence(FilterBySymbol(trades, symbol), trades)
    ensures forall t :: t in FilterBySymbol(trades, symbol) <==> t in trades && OfSymbol(t, symbol)
  {
    match symbol
    case AllSymbols =>
      FilterAll(trades, (t: Trade) => true);
      FilterIsSubsequence(trades, (t: Trade) => true);
    case OnlySymbol(name) =>
      FilterIsSubsequence(trades, HasSymbol(name));
      FilterMembers(trades, HasSymbol(name));
  }

  /** The filtered list is a subsequence of all trades, holds exactly the
      trades passing both filters, and does not depend on the filters' order. */
  lemma FilteredMeaning(allTrades: seq<Trade>, range: DateRange, symbol: SymbolFilter, now: TimeValue)
    ensures IsSubsequence(Filtered(allTrades, range, symbol, now), allTrades)
    ensures forall t :: t in Filtered(allTrades, range, symbol, now) <==>
      t in allTrades && InRange(t, range, now) && OfSymbol(t, symbol)
    ensures Filtered(allTrades, range, symbol, now) == FilterByDate(FilterBySymbol(allTrades, symbol), range, now)
  {
    var byDate := FilterByDate(allTrades, range, now);
    FilterByDateMeaning(allTrades, range, now);
    FilterBySymbolMeaning(byDate, symbol);
    SubsequenceTransitive(Filtered(allTrades, range, symbol, now), byDate, allTrades);
    if range != AllTime && symbol.OnlySymbol? {
      FilterCommute(allTrades, EnteredSince(Cutoff(now, RangeDays(range))), HasSymbol(symbol.name));
    }
  }

  /** `Array.from(new Set(names))`: the names in order of first occurrence. */
  function Distinct(names: seq<string>): seq<string>
    decreases |names|
  {
    if names == [] then []
    else
      var init := Distinct(names[..|names| - 1]);
      if names[|names| - 1] in init then init else init + [names[|names| - 1]]
  }

  function Identity(s: string): string { s }

  function SymbolNames(trades: seq<Trade>): (names: seq<string>)
    ensures |names| == |trades| && forall i :: 0 <= i < |trades| ==> names[i] == trades[i].symbol.Name()
  {
    seq(|trades|, i requires 0 <= i < |trades| => trades[i].symbol.Name())
  }

  /** `getAvailableSymbols`: the distinct symbol names, sorted, so strictly
      ascending. */
  function AvailableSymbols(trades: seq<Trade>): (names: seq<string>)
    ensures Sorting.StrictlySortedBy(names, Identity, false)
  {
    DistinctMeaning(SymbolNames(trades));
    Sorting.SortByKeyStrict(Distinct(SymbolNames(trades)), Identity, false);
    Sorting.SortByKey(Distinct(SymbolNames(trades)), Identity, false)
  }

  lemma {:induction false} DistinctMeaning(names: seq<string>)
    ensures forall s :: s in Distinct(names) <==> s in names
    ensures Sorting.DistinctKeys(Distinct(names), Identity)
    decreases |names|
  {
    if names != [] {
      var init := names[..|names| - 1];
      DistinctMeaning(init);
      assert names == init + [names[|names| - 1]];
    }
  }

  /** The available symbols are strictly ascending, so without duplicates. */
  lemma AvailableSymbolsAscending(trades: seq<Trade>)
    ensures var names := AvailableSymbols(trades);
      forall i, j :: 0 <= i < j < |names| ==> Strings.Less(names[i], names[j])
  {
    var distinct := Distinct(SymbolNames(trades));
    DistinctMeaning(SymbolNames(trades));
    Sorting.SortByKeyStrict(distinct, Identity, false);
    var names := AvailableSymbols(trades);
    forall i, j | 0 <= i < j < |names|
      ensures Strings.Less(names[i], names[j])
    {
      assert Sorting.Before(Identity(names[i]), Identity(names[j]), false);
    }
  }

  /** The available symbols are exactly the symbols the trades carry. */
  lemma AvailableSymbolsMembers(trades: seq<Trade>)
    ensures forall s :: s in AvailableSymbols(trades) <==> exists t :: t in trades && t.symbol.Name() == s
  {
    var names := SymbolNames(trades);
    DistinctMeaning(names);
    var sorted := AvailableSymbols(trades);
    assert multiset(sorted) == multiset(Distinct(names));
    forall s
      ensures s in sorted <==> s in names
    {
      assert s in sorted <==> s in multiset(sorted);
      assert s in Distinct(names) <==> s in multiset(Distinct(names));
    }
    forall s
      ensures s in names <==> exists t :: t in trades && t.symbol.Name() == s
    {
      if s in names {
        var i :| 0 <= i < |trades| && names[i] == s;
        assert trades[i] in trades;
      }
    }
  }

  /** What `applyFilters` returns. */
  datatype Derived = Derived(
    trades: seq<Trade>,
    metrics: SummaryMetrics,
    dailyPerformance: seq<DailyPerformance>,
    riskMetrics: RiskMetrics,
    calendarData: seq<CalendarDay>)

  function DerivedOf(allTrades: seq<Trade>, range: DateRange, symbol: SymbolFilter, now: TimeValue): Derived
  {
    var filtered := Filtered(allTrades, range, symbol, now);
    var metrics := Metrics.CalculateMetrics(filtered);
    Derived(filtered, metrics, Daily.DailyPerformanceOf(filtered, Daily.DayOf),
      Risk.RiskMetricsOf(filtered, metrics), Calendar.CalendarDataOf(filtered, Daily.DayOf))
  }

  /** `applyFilters`: filter by date, then by symbol, then derive all four
      figures from that one list. */
  method ApplyFilters(allTrades: seq<Trade>, range: DateRange, symbol: SymbolFilter, now: TimeValue) returns (d: Derived)
    ensures d == DerivedOf(allTrades, range, symbol, now)
  {
    var filtered := FilterByDate(allTrades, range, now);
    filtered := FilterBySymbol(filtered, symbol);
    var metrics := Metrics.CalculateMetrics(filtered);
    var dailyPerformance := Daily.CalculateDailyPerformance(filtered);
    var riskMetrics := Risk.CalculateRiskMetrics(filtered, metrics);
    var calendarData := Calendar.GenerateCalendarData(filtered);
    d := Derived(filtered, metrics, dailyPerformance, riskMetrics, calendarData);
  }

  /** The daily series and the heat map have one entry per day of the same
      filtered list, so they are equally long, and the daily pnl adds up to
      the pnl of every filtered trade. */
  lemma DerivedAgree(allTrades: seq<Trade>, range: DateRange, symbol: SymbolFilter, now: TimeValue)
    ensures var d := DerivedOf(allTrades, range, symbol, now);
      && |d.dailyPerformance| == |d.calendarData|
      && Sum(d.dailyPerformance, Daily.RowPnl) == Sum(d.trades, Metrics.Pnl)
      && Sum(d.dailyPerformance, Daily.RowCount) == |d.trades| as real
  {
    var filtered := Filtered(allTrades, range, symbol, now);
    Daily.DailyPnlConservation(filtered, Daily.DayOf);
  }

  /** `createEmptyMetrics`. */
  const EmptyMetrics := SummaryMetrics(0.0, Finite(0.0), 0, 0, 0, 0.0, Finite(0.0), 0.0, 0.0, 0.0, 0.0, 0.0, 0.0, 0.0, 0.0, 0.0, 0, 0, 0.0)

  /** `createEmptyRiskMetrics`. */
  const EmptyRiskMetrics := RiskMetrics(Finite(0.0), 0.0, 0.0, 0.0, 0.0, 0.0, 0.0, 0, 0)

  /** The figures of a store that has not loaded any trades. */
  const EmptyDerived := Derived([], EmptyMetrics, [], EmptyRiskMetrics, [])

  /** The fields `partialize` writes to storage. */
  datatype PersistedState = PersistedState(annotations: map<string, string>, dataSource: DataSource)

  /** The store. The five figures `applyFilters` returns are spread into
      the store together (`...computed`); they are the one field `computed`
      here. Each action's `modifies` clause names the fields its `set` call
      writes, so every other field keeps its value. */
  class TradeStore {
    var allTrades: seq<Trade>
    var computed: Derived
    var annotations: map<string, string>
    var isLoading: bool
    var isInitialized: bool
    var dataSource: DataSource
    var walletAddress: Option<string>
    var dateRange: DateRange
    var symbolFilter: SymbolFilter
    var availableSymbols: seq<string>
    /** The symbol list is that of all trades, not of the filtered ones.
        No action needs it to do its work, so none requires it: the
        constructor establishes it, the actions that replace the trades
        re-establish it, and every other action leaves both fields out of
        its `modifies` clause. */
    ghost predicate Valid()
      reads this`allTrades, this`availableSymbols
    {
      availableSymbols == AvailableSymbols(allTrades)
    }

    constructor ()
      ensures Valid()
      ensures allTrades == [] && computed == EmptyDerived && availableSymbols == []
      ensures annotations == map[] && !isLoading && !isInitialized
      ensures dataSource == Mock && walletAddress == None
      ensures dateRange == AllTime && symbolFilter == AllSymbols
    {
      allTrades, computed, availableSymbols := [], EmptyDerived, [];
      annotations, isLoading, isInitialized := map[], false, false;
      dataSource, walletAddress := Mock, None;
      dateRange, symbolFilter := AllTime, AllSymbols;
    }

    /** `applyFilters` on the current trades and filters, spread into the
        store. */
    method Recompute(now: TimeValue)
      modifies this`computed
      ensures computed == DerivedOf(old(allTrades), old(dateRange), old(symbolFilter), now)
    {
      computed := ApplyFilters(allTrades, dateRange, symbolFilter, now);
    }

    /** `setTrades`: replace all trades, recompute the symbols and figures. */
    method SetTrades(newTrades: seq<Trade>, now: TimeValue)
      modifies this`allTrades, this`availableSymbols, this`computed
      ensures Valid() && allTrades == newTrades
      ensures computed == DerivedOf(newTrades, old(dateRange), old(symbolFilter), now)
    {
      var d := ApplyFilters(newTrades, dateRange, symbolFilter, now);
      allTrades, availableSymbols, computed := newTrades, AvailableSymbols(newTrades), d;
    }

    /** The symbol list of the current trades. */
    method RefreshSymbols()
      modifies this`availableSymbols
      ensures Valid() && allTrades == old(allTrades)
    {
      availableSymbols := AvailableSymbols(allTrades);
    }

    /** `updateAnnotation`: one key set to the new text, every other key
        kept. */
    method UpdateAnnotation(tradeId: string, annotation: string)
      modifies this`annotations
      ensures annotations == old(annotations)[tradeId := annotation]
    {
      annotations := annotations[tradeId := annotation];
    }

    /** `setDateRange`: the new range, and the figures recomputed from the
        unchanged trades. */
    method SetDateRange(range: DateRange, now: TimeValue)
      modifies this`dateRange, this`computed
      ensures dateRange == range
      ensures computed == DerivedOf(allTrades, dateRange, symbolFilter, now)
    {
      dateRange := range;
      Recompute(now);
    }

    /** `setSymbolFilter`: the new filter, and the figures recomputed from
        the unchanged trades. The string "all" arrives as `AllSymbols`, so a
        named filter never names "all". */
    method SetSymbolFilter(symbol: SymbolFilter, now: TimeValue)
      requires symbol != OnlySymbol("all")
      modifies this`symbolFilter, this`computed
      ensures symbolFilter == symbol
      ensures computed == DerivedOf(allTrades, dateRange, symbolFilter, now)
    {
      symbolFilter := symbol;
      Recompute(now);
    }

    /** `refreshData`, up to its timer: the store is marked loading. */
    method RefreshData()
      modifies this`isLoading
      ensures isLoading
    {
      isLoading := true;
    }

    /** `setDataSource`: switching to 'mock' starts a refresh. */
    method SetDataSource(source: DataSource)
      modifies this`dataSource, this`isLoading
      ensures dataSource == source
      ensures isLoading == (source == Mock || old(isLoading))
    {
      dataSource := source;
      if source == Mock {
        RefreshData();
      }
    }

    /** The flags `setWalletTrades` sets besides the trades. */
    method MarkWallet(address: string)
      modifies this`dataSource, this`walletAddress, this`isLoading, this`isInitialized
      ensures dataSource == Wallet && walletAddress == Some(address) && !isLoading && isInitialized
      ensures allTrades == old(allTrades) && availableSymbols == old(availableSymbols) && computed == old(computed)
    {
      dataSource, walletAddress, isLoading, isInitialized := Wallet, Some(address), false, true;
    }

    /** `setWalletTrades`: the wallet's trades replace all trades, and the
        store is loaded, initialised and sourced from that wallet. */
    method SetWalletTrades(newTrades: seq<Trade>, address: string, now: TimeValue)
      modifies this`allTrades, this`availableSymbols, this`computed
      modifies this`dataSource, this`walletAddress, this`isLoading, this`isInitialized
      ensures Valid() && allTrades == newTrades
      ensures computed == DerivedOf(newTrades, old(dateRange), old(symbolFilter), now)
      ensures dataSource == Wallet && walletAddress == Some(address) && !isLoading && isInitialized
    {
      SetTrades(newTrades, now);
      MarkWallet(address);
    }

    /** `disconnectWallet`: back to mock data with no address, and a refresh
        started. */
    method DisconnectWallet()
      modifies this`dataSource, this`walletAddress, this`isLoading
      ensures dataSource == Mock && walletAddress == None && isLoading
    {
      dataSource, walletAddress := Mock, None;
      RefreshData();
    }

    /** `initializeData`: a refresh is started only when the store has not
        been initialised. */
    method InitializeData()
      modifies this`isLoading
      ensures isLoading == (old(isLoading) || !isInitialized)
    {
      if !isInitialized {
        RefreshData();
      }
    }

    /** `partialize`: only the annotations and the data source are stored. */
    function Persisted(): (p: PersistedState)
      reads this
      ensures p.annotations == annotations && p.dataSource == dataSource
    {
      PersistedState(annotations, dataSource)
    }
  }
}
