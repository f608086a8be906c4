# Trading dashboard analytics, modelled in Dafny

The dashboard turns a list of trades into every figure it displays. This
project models that pipeline and the store that holds it:

- the summary statistics (`calculateMetrics`);
- the daily equity series with its running cumulative PnL, high-water mark
  and drawdown (`calculateDailyPerformance`);
- the risk figures: drawdown extremes, loss streaks, Calmar ratio and a
  simple risk of ruin (`calculateRiskMetrics`, `calculateSimpleRoR`);
- the heat-map days (`generateCalendarData`);
- the trade store's filters, its symbol list and its actions
  (`src/store/tradeStore.ts`);
- the calendar page's monthly totals and win/loss day streaks;
- the performance calendar's shading, its `maxPnl` floor, its week grid and
  its day counts;
- `formatDuration`, `getDateKey` and the unit that `formatCurrency` picks.

Modules, one per file:

| file | module | what it holds |
|---|---|---|
| `types.dfy` | `Types` | the records and enumerations of `src/types/index.ts`; `ExtReal`, the value of an unguarded JavaScript division |
| `seqs.dfy` | `Seqs` | order-preserving `Filter` and left-to-right `Sum`, the `filter`/`reduce` idioms |
| `ordered_map.dfy` | `OrderedMaps` | a JavaScript `Map` as an insertion-ordered list of entries |
| `strings.dfy` | `Strings` | code-unit string order; decimal text of numbers and its parser |
| `sorting.dfy` | `Sorting` | a stable sort on a string key, ascending or descending |
| `runs.dfy` | `Runs` | the trailing run and the longest run of elements that pass a test |
| `dates.dfy` | `Dates` | the proleptic Gregorian calendar; the `YYYY-MM-DD` key of a UTC instant |
| `format.dfy` | `Format` | `formatDuration`; the `formatCurrency` unit choice |
| `metrics.dfy` | `Metrics` | `calculateMetrics`, split into a tally of counts and sums and the arithmetic on it |
| `daily.dfy` | `Daily` | grouping by day key and the running equity walk |
| `risk.dfy` | `Risk` | the drawdown walk, the loss streaks and the risk of ruin |
| `calendar.dfy` | `Calendar` | `generateCalendarData` and its 0–4 intensity |
| `performance_calendar.dfy` | `PerformanceCalendar` | shade classes, the `maxPnl` floor, the week grid and the profit/loss-day stats |
| `calendar_page.dfy` | `CalendarPage` | monthly totals (newest six months) and the day-streak scan |
| `store.dfy` | `Store` | the filters, `applyFilters`, `getAvailableSymbols` and the `TradeStore` class |

Representation:

- Money is an exact `real`, an idealisation of the doubles the code uses.
  Instants are whole milliseconds since the epoch, bounded as a JavaScript
  `Date` bounds them (`Types.TimeValue`).
- A division the code does not guard yields an `ExtReal`: finite,
  +Infinity, -Infinity or NaN. This covers `totalPnlPercentage`, the
  profit factor and the edge ratio of the risk of ruin. A heat-map intensity
  that the code computes as NaN is `None`.
- Where the code loops and updates variables, the model has a `method` with
  a `for` loop. That method is proved equal to a specification function,
  and the properties are lemmas about the function. This applies to:
  - the day grouping, the equity walk, the drawdown walk and the loss streaks;
  - the monthly grouping and the day streaks;
  - the `pnlMap` and the week grid.
- The store is a class. Each action's `modifies` clause names the fields that
  its `set` call writes, so every other field provably keeps its value.
- The clock is the parameter `now` of the date filter. The start weekday and
  the list of days in the calendar grid are also parameters.

Behaviour of the code that the model keeps, including where it departs from
what the dashboard's labels suggest:

- The date filter has a lower bound only (`entryTime >= now - days`), so a
  trade entered after `now` passes it.
- `totalPnlPercentage` divides by the total volume without a guard. With no
  closed trades it is NaN, and with zero volume and a non-zero PnL it is
  infinite (`Metrics.PnlPercentageCases`, `Metrics.EmptyMetrics`).
- `generateCalendarData` has no floor of 1 on `maxPnl`. When every day's PnL
  is 0, every intensity is NaN (`Calendar.ScaleNone`). The floor of 1 exists
  only in the performance calendar (`PerformanceCalendar.GridMaxPnl`).
- Intensity 0 is not reserved for zero-PnL days: every day whose absolute
  PnL is below a fifth of the largest gets 0 (`Calendar.Intensity`).
- When the last trade is not a loss, `consecutiveLosses` is 0 while
  `maxConsecutiveLosses` keeps the longest earlier run (`Risk.LossStreaks`).
- `calculateMetrics` counts a trade with `pnl <= 0` as a loser, while the
  loss streak counts only `pnl < 0`; the model keeps both tests.

## Model

| member | source | states |
|---|---|---|
| Types.Div | src/lib/mockDataGenerator.ts:120 | IEEE division: finite exactly when the divisor is non-zero, and then quotient × divisor = dividend; 0/0 is NaN; a positive number over 0 is +Infinity |
| Types.DivByZero | src/lib/mockDataGenerator.ts:238 | division by a signed zero is never finite; it is NaN exactly for a zero dividend and +Infinity exactly when the signs agree |
| Metrics.LargestPnl | src/lib/mockDataGenerator.ts:130 | `Math.max` over the PnLs is at least every trade's PnL and is the PnL of some trade |
| Metrics.SmallestPnl | src/lib/mockDataGenerator.ts:131 | `Math.min` over the PnLs is at most every trade's PnL and is the PnL of some trade |
| Metrics.TallySplits | src/lib/mockDataGenerator.ts:87-110 | winners and losers partition the closed trades, and so do longs and shorts |
| Metrics.GrossProfitZero | src/lib/mockDataGenerator.ts:88-91 | gross profit ≥ 0; it is 0 exactly when no closed trade has positive PnL, exactly when there are no winners |
| Metrics.LossSumZero | src/lib/mockDataGenerator.ts:89-92 | the losers' PnL sum is ≤ 0, 0 exactly when no closed trade lost money, and 0 with no losers |
| Metrics.TallyIsValid | src/lib/mockDataGenerator.ts:87-110 | the tally of any trade list satisfies the partition and sign facts that the arithmetic lemmas assume |
| Metrics.TallyNet | src/lib/mockDataGenerator.ts:91-93 | gross profit plus the losers' sum is the total PnL of the closed trades |
| Metrics.LargestWinLoss | src/lib/mockDataGenerator.ts:130-131 | largestWin is 0 with no winners, else a positive maximum attained by a closed trade; largestLoss is 0 with no losers, else a non-positive minimum attained by a closed trade |
| Metrics.EmptyTally | src/lib/mockDataGenerator.ts:87-114 | an empty trade list tallies to all counts and sums 0 |
| Metrics.SummaryPnl | src/lib/mockDataGenerator.ts:92-93 | grossLoss is the magnitude of the losers' sum (≥ 0) and totalPnl = grossProfit − grossLoss |
| Metrics.WinRateRange | src/lib/mockDataGenerator.ts:97-99 | the win rate lies in [0, 100] and is 0 with no closed trades |
| Metrics.WinRateShare | src/lib/mockDataGenerator.ts:97-99 | winRate × closed = 100 × winners |
| Metrics.ProfitFactorCases | src/lib/mockDataGenerator.ts:100 | the profit factor is +Infinity exactly for a profit without losses, 0 exactly when there is no gross profit, never NaN or −Infinity, and non-negative when finite |
| Metrics.ProfitFactorRatio | src/lib/mockDataGenerator.ts:100 | with a loss, the profit factor is finite and profitFactor × grossLoss = grossProfit |
| Metrics.AverageSigns | src/lib/mockDataGenerator.ts:102-107 | the average win is 0 without winners and positive with them; the average loss is ≥ 0 and 0 without losers |
| Metrics.AverageShares | src/lib/mockDataGenerator.ts:102-107 | averageWin × winners = grossProfit and averageLoss × losers = grossLoss |
| Metrics.PercentShares | src/lib/mockDataGenerator.ts:97-99 | winRate/100 is the winners' share of the closed trades and (100 − winRate)/100 the losers' share |
| Metrics.ExpectancyArithmetic | src/lib/mockDataGenerator.ts:116 | the expectancy formula evaluates to (gross profit − gross loss) / closed trades |
| Metrics.ExpectancyIsMeanPnl | src/lib/mockDataGenerator.ts:116 | the expectancy is the mean PnL per closed trade, and 0 with no closed trades |
| Metrics.PnlPercentageCases | src/lib/mockDataGenerator.ts:120 | with volume, totalPnlPercentage = totalPnl / volume × 100; with zero volume it is not finite, and NaN when the PnL is also 0 |
| Metrics.CalculateMetrics | src/lib/mockDataGenerator.ts:86-139 | `calculateMetrics`: winners plus losers make up the closed trades, the win rate lies in [0, 100] and grossLoss ≥ 0; characterised by the rows above and below |
| Metrics.EmptyMetrics | src/lib/mockDataGenerator.ts:97-120 | for no trades: 0 trades, win rate 0, profit factor 0, expectancy 0, and a NaN PnL percentage |
| Daily.DailyPerformanceOf | src/lib/mockDataGenerator.ts:141-177 | `calculateDailyPerformance`: never more rows than trades, and no rows exactly when there are no trades; characterised by `Daily.DailyDates`, `Daily.DailyTotals`, `Daily.DailyRunning` and the conservation rows |
| Daily.GroupSize | src/lib/mockDataGenerator.ts:142-153 | the day map has at most one entry per trade, and is empty exactly when there are no trades |
| Daily.GroupTrades | src/lib/mockDataGenerator.ts:142-153 | the `forEach` that fills the day map computes `GroupBy`, the insertion-ordered grouping by day key |
| Daily.GroupValid | src/lib/mockDataGenerator.ts:142-153 | the day map has no key twice |
| Daily.GroupKeys | src/lib/mockDataGenerator.ts:144-147 | the map's keys are exactly the day keys of the trades |
| Daily.GroupTotals | src/lib/mockDataGenerator.ts:146-152 | the totals under a key are the PnL, count, volume and fees of exactly the trades on that day (a missing key reads as zero totals) |
| Daily.GroupConservation | src/lib/mockDataGenerator.ts:144-153 | summed over the days, PnL, trade count, volume and fees equal their sums over the trades |
| Daily.CalculateDailyPerformance | src/lib/mockDataGenerator.ts:141-177 | the method returns the daily series of the trades (group, sort, walk) |
| Daily.LedgerWalk | src/lib/mockDataGenerator.ts:158-176 | the loop that updates `cumulativePnl` and `highWaterMark` produces the specified rows |
| Daily.DailyDatesAscending | src/lib/mockDataGenerator.ts:155-156 | row dates are strictly ascending |
| Daily.DailyDates | src/lib/mockDataGenerator.ts:144-156 | the row dates are exactly the trades' day keys, one row per day |
| Daily.DailyTotals | src/lib/mockDataGenerator.ts:144-171 | each row's PnL, trade count, volume and fees are those of exactly the trades on its date |
| Daily.DailyPnlConservation | src/lib/mockDataGenerator.ts:144-170 | the rows' PnL adds up to the trades' PnL and their counts to the number of trades |
| Daily.DailyVolumeConservation | src/lib/mockDataGenerator.ts:144-171 | the rows' volume and fees add up to the trades' volume and fees |
| Daily.PeakBounds | src/lib/mockDataGenerator.ts:159-163 | the high-water mark is ≥ 0, ≥ every cumulative PnL so far, and is 0 or one of them |
| Daily.PeakMonotone | src/lib/mockDataGenerator.ts:163 | the high-water mark never decreases |
| Daily.DailyRunning | src/lib/mockDataGenerator.ts:158-175 | row i's cumulative PnL is the sum of the PnL of rows 0..i; its high-water mark is max(0, the largest of those sums); drawdown = mark − cumulative ≥ 0; the mark never decreases |
| Calendar.CalendarDataOf | src/lib/mockDataGenerator.ts:243-264 | `generateCalendarData`: one heat-map day per entry of the day map; characterised by `Calendar.CalendarDates`, `Calendar.CalendarTotals` and `Calendar.CalendarScale` |
| Calendar.MaxAbsPnl | src/lib/mockDataGenerator.ts:255 | `maxPnl` is at least every day's absolute PnL and is some day's absolute PnL |
| Calendar.Intensity | src/lib/mockDataGenerator.ts:262 | the intensity is NaN (None) exactly when maxPnl is 0, else ⌊abs(pnl)/maxPnl × 5⌋ capped at 4: an integer in 0..4 that is 4 exactly when the scaled ratio reaches 4 |
| Calendar.IntensityMonotone | src/lib/mockDataGenerator.ts:262 | a day with larger absolute PnL never gets a lower intensity |
| Calendar.GenerateCalendarData | src/lib/mockDataGenerator.ts:243-264 | the method returns the specified heat-map days |
| Calendar.CalendarDates | src/lib/mockDataGenerator.ts:244-257 | one day per distinct day key of the trades, with no date twice |
| Calendar.CalendarTotals | src/lib/mockDataGenerator.ts:246-261 | each day's PnL and count are those of the trades on that date, and isProfit holds exactly when the PnL is ≥ 0 |
| Calendar.CalendarMatchesDaily | src/lib/mockDataGenerator.ts:243-253 | the heat map and the daily series agree on the PnL and count of every shared date |
| Calendar.CalendarScale | src/lib/mockDataGenerator.ts:255-262 | the intensities are NaN exactly when every day is flat; otherwise some day gets 4; and intensity is monotone in absolute PnL |
| Calendar.ScaleNone | src/lib/mockDataGenerator.ts:255-262 | a day's intensity is NaN exactly when every day's PnL is 0 |
| Calendar.ScaleTop | src/lib/mockDataGenerator.ts:255-262 | if some day has non-zero PnL, some day has intensity 4 |
| Calendar.ScaleMonotone | src/lib/mockDataGenerator.ts:262 | across the heat map, a larger absolute PnL never has a lower intensity |
| Risk.RiskMetricsOf | src/lib/mockDataGenerator.ts:179-234 | `calculateRiskMetrics` (minus Sharpe and Sortino): both drawdowns and both drawdown percentages are ≥ 0, and consecutiveLosses ≤ maxConsecutiveLosses ≤ trade count; characterised by `Risk.RiskDrawdown`, `Risk.LossStreaks` and `Risk.RiskOfRuinOfSummary` |
| Risk.Clamp | src/lib/mockDataGenerator.ts:240 | the clamp lands in [0, 100] and leaves values already there unchanged |
| Risk.SimpleRiskOfRuin | src/lib/mockDataGenerator.ts:236-241 | 0 when the average loss is 0; NaN exactly for a NaN edge ratio; 95 for an edge ratio ≤ 1; above 1, strictly between 0 and 100 with risk × edge² = 100; never infinite |
| Risk.CalculateRiskMetrics | src/lib/mockDataGenerator.ts:179-234 | the method returns the specified risk record (minus Sharpe and Sortino) |
| Risk.DrawdownWalk | src/lib/mockDataGenerator.ts:187-194 | the `forEach` over the days computes the specified drawdown walk |
| Risk.CountLossStreaks | src/lib/mockDataGenerator.ts:197-206 | the loop over the trades computes the trailing and the longest run of losing trades |
| Risk.WalkMarks | src/lib/mockDataGenerator.ts:188-189 | re-walking the daily rows reproduces each day's high-water mark, and the current drawdown is that day's row drawdown |
| Risk.StepMaximum | src/lib/mockDataGenerator.ts:188-193 | one step keeps a non-negative current drawdown and makes the maximum the larger of the old maximum and the current drawdown |
| Risk.WalkMaximum | src/lib/mockDataGenerator.ts:187-194 | after the walk, maxDrawdown is ≥ 0, ≥ every day's drawdown, and is 0 or attained on some day; the percentage is ≥ 0 |
| Risk.WalkLedger | src/lib/mockDataGenerator.ts:187-194 | on every prefix of the daily series, the walk's mark, current and maximum drawdown agree with the rows |
| Risk.WalkFirstMaximum | src/lib/mockDataGenerator.ts:187-194 | with the strict `>` update, a maximum of 0 leaves its percentage 0, and a positive maximum is first reached on some day, whose drawdown and high-water mark give the percentage (0 when the mark is not positive) |
| Risk.LedgerHighWaterAt | src/lib/mockDataGenerator.ts:188 | re-walking a prefix of the daily rows ends at the high-water mark stored in the row |
| Risk.LedgerDrawdown | src/lib/mockDataGenerator.ts:187-194 | over the whole series, maxDrawdown is the largest row drawdown (0 when empty); a maximum of 0 has percentage 0; a positive one is reached first on row j, and the percentage is row j's drawdown over row j's high-water mark × 100 (0 when the mark is not positive); currentDrawdown is the last row's and its percentage is computed the same way from the last row |
| Risk.RiskDrawdown | src/lib/mockDataGenerator.ts:221-230 | the record's maxDrawdown is the largest daily drawdown, and maxDrawdownPercentage comes from the first day that reaches it (0 for a maximum of 0); currentDrawdown and currentDrawdownPercentage are the last day's (0 with no days); Calmar is 0 when maxDrawdown is 0 |
| Risk.LossStreaks | src/lib/mockDataGenerator.ts:197-206 | consecutiveLosses ≤ maxConsecutiveLosses ≤ trade count; the trailing losses form a run preceded by a non-loss; no run of losses is longer than the maximum, and one run reaches it |
| Risk.EdgeArithmetic | src/lib/mockDataGenerator.ts:238 | fed the summary's win rate and averages, the edge ratio equals gross profit / gross loss |
| Risk.RuinOfAverages | src/lib/mockDataGenerator.ts:215-219 | from consistent counts and sums, the risk of ruin is finite and in [0, 100]; it is 0 without losses; the edge ratio is the profit factor; and it is 95 when gross profit ≤ gross loss |
| Risk.RiskOfRuinOfSummary | src/lib/mockDataGenerator.ts:215-219 | for any summary `calculateMetrics` produces, the risk of ruin is finite and in [0, 100]; it is 0 without losses, 95 when gross profit ≤ gross loss, and the edge ratio equals the profit factor |
| Store.FilterByDate | src/store/tradeStore.ts:98-107 | `filterTradesByDate`: the result is an order-preserving selection of the trades; characterised by `Store.FilterByDateMeaning` |
| Store.FilterBySymbol | src/store/tradeStore.ts:110-113 | `filterTradesBySymbol`: the result is an order-preserving selection of the trades; characterised by `Store.FilterBySymbolMeaning` |
| Store.FilterByDateMeaning | src/store/tradeStore.ts:98-107 | 'all' returns the input; the result keeps the input order and contains exactly the trades entered at or after now − days × 86,400,000 ms |
| Store.FilterBySymbolMeaning | src/store/tradeStore.ts:110-113 | 'all' returns the input; otherwise the result keeps the input order and contains exactly the trades of that symbol |
| Store.FilteredMeaning | src/store/tradeStore.ts:116-122 | the filtered list is an order-preserving selection of all trades, holding exactly those that pass both filters; the two filters commute |
| Store.DistinctMeaning | src/store/tradeStore.ts:134 | deduplication through a `Set` keeps every name exactly once |
| Store.AvailableSymbols | src/store/tradeStore.ts:133-135 | `getAvailableSymbols`: the list is strictly ascending, so no symbol appears twice; characterised by `Store.AvailableSymbolsMembers` |
| Store.AvailableSymbolsAscending | src/store/tradeStore.ts:133-135 | the symbol list is strictly ascending |
| Store.AvailableSymbolsMembers | src/store/tradeStore.ts:133-135 | the symbol list holds exactly the symbols of the given trades |
| Store.ApplyFilters | src/store/tradeStore.ts:116-130 | the method filters by date, then by symbol, and derives metrics, daily series, risk and calendar from that one list |
| Store.DerivedAgree | src/store/tradeStore.ts:121-129 | the derived daily series and heat map have one entry per day of the same list, and the daily PnL and counts add up to the filtered trades' |
| Store.TradeStore.constructor | src/store/tradeStore.ts:140-154 | the initial state: no trades, empty figures, no annotations, mock source, no wallet, both filters 'all' |
| Store.TradeStore.Recompute | src/store/tradeStore.ts:158-161 | the derived figures become `applyFilters` of the current trades and filters |
| Store.TradeStore.SetTrades | src/store/tradeStore.ts:156-162 | the new trades are stored, the symbol list is theirs, and the figures are recomputed; filters, annotations and flags are untouched |
| Store.TradeStore.RefreshSymbols | src/store/tradeStore.ts:159 | the symbol list becomes that of all trades |
| Store.TradeStore.UpdateAnnotation | src/store/tradeStore.ts:166-169 | one key is set to the new text and every other annotation is kept |
| Store.TradeStore.SetDateRange | src/store/tradeStore.ts:171-175 | only the date range and the figures change, recomputed from the unchanged trades |
| Store.TradeStore.SetSymbolFilter | src/store/tradeStore.ts:177-181 | given 'all' or a symbol name other than "all", only the symbol filter and the figures change, recomputed from the unchanged trades |
| Store.TradeStore.RefreshData | src/store/tradeStore.ts:183-184 | the store is marked loading |
| Store.TradeStore.SetDataSource | src/store/tradeStore.ts:204-209 | the source is set, and switching to mock starts a refresh |
| Store.TradeStore.MarkWallet | src/store/tradeStore.ts:216-224 | source 'wallet', the address stored, loaded and initialised, with trades and figures unchanged |
| Store.TradeStore.SetWalletTrades | src/store/tradeStore.ts:211-225 | the wallet's trades replace all trades, the symbols and figures are recomputed, and the store is wallet-sourced, loaded and initialised |
| Store.TradeStore.DisconnectWallet | src/store/tradeStore.ts:227-230 | back to mock with no address, and a refresh started |
| Store.TradeStore.InitializeData | src/store/tradeStore.ts:232-237 | a refresh starts exactly when the store is not initialised |
| Store.TradeStore.Persisted | src/store/tradeStore.ts:241-244 | only the annotations and the data source are persisted |
| CalendarPage.MonthlyStatsOf | src/app/calendar/page.tsx:13-34 | the monthly `useMemo`: at most six months, strictly descending by month key; characterised by `CalendarPage.MonthlyStatsOrder` and `CalendarPage.MonthlyStatsNewest` |
| CalendarPage.TakeStrict | src/app/calendar/page.tsx:29 | `slice(0, 6)` of a strictly ordered list is strictly ordered |
| CalendarPage.StreaksOf | src/app/calendar/page.tsx:36-57 | the streak `useMemo`: each current streak is at most its maximum, and at least one current streak is 0; characterised by `CalendarPage.StreaksMeaning` |
| CalendarPage.MonthKey | src/app/calendar/page.tsx:17 | the month key is the first 7 characters of the date (all of a shorter one) |
| CalendarPage.Take | src/app/calendar/page.tsx:29 | `slice(0, n)` is the prefix of length min(n, length) |
| CalendarPage.MonthlyStats | src/app/calendar/page.tsx:13-34 | the method (a `forEach` filling the month map, then sort and slice) returns the specified month list |
| CalendarPage.GroupMonthTotals | src/app/calendar/page.tsx:16-25 | a month's PnL and trades are the sums over its days, and profitDays/lossDays count its days with PnL > 0 and < 0 |
| CalendarPage.MonthDayCounts | src/app/calendar/page.tsx:22-23 | profitDays + lossDays is at most the number of days in the month |
| CalendarPage.GroupMonthKeys | src/app/calendar/page.tsx:16-25 | the month map has each month once, and its keys are exactly the months of the days |
| CalendarPage.MonthlyStatsOrder | src/app/calendar/page.tsx:27-29 | at most 6 months, strictly descending by key, each with its grouped totals |
| CalendarPage.MonthlyStatsNewest | src/app/calendar/page.tsx:27-29 | a month left out of the list is older than all six shown |
| CalendarPage.StreakStats | src/app/calendar/page.tsx:36-57 | sorting the days by date and scanning them gives the specified streaks |
| CalendarPage.StreakWalk | src/app/calendar/page.tsx:44-54 | the loop's four counters are the trailing and longest runs of profit and of loss days among the non-flat days |
| CalendarPage.StreakStep | src/app/calendar/page.tsx:45-53 | a profit day extends the win streak, resets the loss streak and raises the maximum as needed; a loss day does the reverse |
| CalendarPage.StreaksMeaning | src/app/calendar/page.tsx:42-56 | each maximum is ≥ its current streak; at least one current streak is 0; no run of profit (loss) days in date order is longer than the maximum |
| PerformanceCalendar.IntensityClass | src/components/dashboard/PerformanceCalendar.tsx:14-29 | an emerald shade exactly when pnl > 0, a red one exactly when pnl < 0, and slate exactly when pnl = 0 |
| PerformanceCalendar.IntensityBands | src/components/dashboard/PerformanceCalendar.tsx:15-26 | for a non-zero PnL, the shade level is 3, ≥ 2 or ≥ 1 exactly when abs(pnl) exceeds 0.75, 0.5 or 0.25 of maxPnl |
| PerformanceCalendar.IntensitySymmetric | src/components/dashboard/PerformanceCalendar.tsx:17-27 | negating the PnL swaps emerald and red at the same shade level |
| PerformanceCalendar.IntensityShape | src/components/dashboard/PerformanceCalendar.tsx:14-29 | the class is the emerald or red shade of the band of abs(pnl)/maxPnl, chosen by the sign of the PnL |
| PerformanceCalendar.GridMaxPnl | src/components/dashboard/PerformanceCalendar.tsx:44-47 | maxPnl ≥ 1, ≥ every day's absolute PnL, and is 1 or some day's absolute PnL |
| PerformanceCalendar.GridScale | src/components/dashboard/PerformanceCalendar.tsx:44-47 | normalising a day's absolute PnL by maxPnl never divides by zero and gives at most 1 |
| PerformanceCalendar.GridTopShade | src/components/dashboard/PerformanceCalendar.tsx:18 | a day whose absolute PnL is maxPnl gets the strongest shade |
| PerformanceCalendar.BuildPnlMap | src/components/dashboard/PerformanceCalendar.tsx:39-42 | the `forEach` computes the specified date-to-day map |
| PerformanceCalendar.PnlMapLookup | src/components/dashboard/PerformanceCalendar.tsx:39-42 | looking up a date gives the last calendar entry with that date, or zero PnL and zero trades |
| PerformanceCalendar.PaddingCells | src/components/dashboard/PerformanceCalendar.tsx:55-57 | the padding is the requested number of empty cells |
| PerformanceCalendar.DayCells | src/components/dashboard/PerformanceCalendar.tsx:59-62 | one cell per day, each filled from the map |
| PerformanceCalendar.BuildWeeks | src/components/dashboard/PerformanceCalendar.tsx:49-72 | the weeks, laid end to end, are the padding then one cell per day; every week but the last has 7 cells; the last has 1 to 7; there are ⌈(padding + days)/7⌉ weeks |
| PerformanceCalendar.WeekCells | src/components/dashboard/PerformanceCalendar.tsx:59-62 | the cell for day i sits right after the padding, carries that date, and shows that day's entry or zero PnL and zero trades |
| PerformanceCalendar.DaySplit | src/components/dashboard/PerformanceCalendar.tsx:75-77 | profit, loss and flat days partition the days, and profit plus loss PnL is the total |
| PerformanceCalendar.StatsOf | src/components/dashboard/PerformanceCalendar.tsx:74-77 | the grid's stats: profit days plus loss days never exceed the days; characterised by `PerformanceCalendar.StatsMeaning` |
| PerformanceCalendar.StatsMeaning | src/components/dashboard/PerformanceCalendar.tsx:74-77 | profitDays + lossDays = days − flat days; the total PnL is the profit days' (≥ 0) plus the loss days' (≤ 0) |
| Format.FormatDuration | src/lib/utils.ts:23-33 | `formatDuration`: the text parses back to the chosen form and its figures; characterised by `Format.DurationMeaning` and `Format.FormatDurationInjective` |
| Format.DurationMeaning | src/lib/utils.ts:23-33 | exactly one form is chosen, by thresholds of one day, one hour and one minute, and its two figures are the whole units with the second below its bound (24, 60, 60) |
| Format.SubSecond | src/lib/utils.ts:24-32 | anything under 1000 ms prints as "0s" |
| Format.ParseRender | src/lib/utils.ts:29-32 | the printed text parses back to the form and its figures |
| Format.FormatDurationInjective | src/lib/utils.ts:23-33 | two durations that print the same chose the same form and figures |
| Format.CurrencyScaleMeaning | src/lib/utils.ts:8-17 | "M" exactly from 1,000,000 up, "K" exactly from 1,000 up to that, none below; the printed figure times the unit is the value; with a suffix its magnitude is ≥ 1, and under "K" or no suffix it is below 1000 |
| Dates.CivilFromDays | src/lib/utils.ts:60 | a day number maps to a valid calendar date whose day number it is |
| Dates.YearTextDigits | src/lib/utils.ts:60 | the year is 4 digits for 0–9999 and otherwise a sign followed by digits |
| Dates.FormatDateParts | src/lib/utils.ts:60 | the date text is the year, '-', the 2-digit month, '-', the 2-digit day |
| Dates.ParseFormatDate | src/lib/utils.ts:60 | the date text parses back to the date |
| Dates.DateKey | src/lib/utils.ts:59-61 | `getDateKey`: a year of at least four characters, '-', two month characters, '-', two day characters; characterised by `Dates.DateKeySameDay` and `Dates.DateKeyShape` |
| Dates.DateKeySameDay | src/lib/utils.ts:59-61 | two instants have the same key exactly when they fall on the same UTC day |
| Dates.DateKeyShape | src/lib/utils.ts:59-61 | for years 0–9999 the key has 10 characters, of the form DDDD-DD-DD |
| Dates.EpochKey | src/lib/utils.ts:59-61 | the key of instant 0 is "1970-01-01" |
| Strings.LessTransitive | src/lib/mockDataGenerator.ts:156 | the string order used for `localeCompare` is transitive |
| Strings.LessTotal | src/lib/mockDataGenerator.ts:156 | any two distinct strings are ordered one way or the other |
| Strings.LessAsymmetric | src/lib/mockDataGenerator.ts:156 | no two strings are each before the other |
| Strings.ParseIntToString | src/lib/utils.ts:29-32 | the decimal text of an integer parses back to it |
| Strings.ParsePadNat | src/lib/utils.ts:60 | a zero-padded field parses back to its number |
| Sorting.SortByKey | src/lib/mockDataGenerator.ts:155-156 | the sort is a permutation of its input |
| Sorting.SortByKeySorted | src/lib/mockDataGenerator.ts:155-156 | the sort's output is ordered by key (ascending or descending as asked) |
| Sorting.SortByKeyStable | src/lib/mockDataGenerator.ts:155-156 | the sort is stable: the elements with any one key come out in their input order |
| Sorting.SortByKeyStrict | src/lib/mockDataGenerator.ts:155-156 | with distinct keys, the output is strictly ordered |
| Seqs.FilterMembers | src/store/tradeStore.ts:106 | a filter keeps exactly the elements that pass its test |
| Seqs.FilterIsSubsequence | src/store/tradeStore.ts:106 | a filter keeps the relative order of what it keeps |
| Seqs.FilterCommute | src/store/tradeStore.ts:121-122 | two filters can be applied in either order |
| Seqs.SumSplit | src/lib/mockDataGenerator.ts:88-93 | a test and its negation split a list and its sum |
| Seqs.SumPermutation | src/lib/mockDataGenerator.ts:155-156 | reordering the terms does not change a sum |
| OrderedMaps.PutGet | src/lib/mockDataGenerator.ts:146-147 | after `set(k, v)`, `get(k)` is v and every other key reads as before |
| OrderedMaps.PutKeys | src/lib/mockDataGenerator.ts:147 | `set` appends a new key at the end and leaves the key order of an existing one unchanged |
| OrderedMaps.PutValid | src/lib/mockDataGenerator.ts:147 | `set` keeps the keys distinct |
| Runs.TrailingRunSuffix | src/lib/mockDataGenerator.ts:199-205 | the counter that a failing element resets is the length of the run at the end, preceded by a failing element |
| Runs.LongestRunIsLongest | src/lib/mockDataGenerator.ts:199-206 | the running maximum is the length of the longest run, and some run attains it |

## Left out

- The Sharpe and Sortino ratios (`src/lib/mockDataGenerator.ts:208-213, 225-226`) are not modelled. They need `Math.sqrt` and floating-point variance.
- `averageRisk` is carried as its constant 2.5, with no logic behind it.
- The unused `calculateRiskOfRuin` in `src/lib/utils.ts:63-83` is dead code built on `Math.pow` and `Math.sqrt`, so it is not modelled.
- Random trade and position generation (`generateTrades`, `generatePositions`) is out. The model takes any trade list as input.
- `setPositions` and the `positions` field are out, because no figure depends on them.
- Store.TradeStore.RefreshData: only the synchronous `isLoading: true` is modelled. The timer callback that regenerates random trades 500 ms later is not part of this model.
- Store.TradeStore.SetDataSource and Store.TradeStore.DisconnectWallet: their refresh is modelled to the same extent as `RefreshData`.
- Persistence to `localStorage` through the store middleware is out. Only the `partialize` field selection is modelled (`Store.TradeStore.Persisted`).
- Number-to-text rendering is out: `toFixed`, `toLocaleString`, `formatNumber`, `formatPercentage`, `formatDate`, `formatDateTime`, the month labels of the calendar page (`src/app/calendar/page.tsx:31`), the `$` prefix and the decimals of `formatCurrency`. These depend on locale and float formatting that cannot be seen here. `Format.CurrencyScale` gives the suffix and the number handed to `toFixed`.
- The date-fns helpers `eachDayOfInterval`, `subMonths`, `getDay` and `format` are out. The list of day keys and the start weekday (0–6) are parameters of `PerformanceCalendar.BuildWeeks`.
- A padding cell's `new Date(0)` is a cell without a date.
- `getDateKey` is modelled for whole-millisecond instants in the `Date` range. `toISOString` throws on an invalid date, and the callers never pass one.
- Fractional milliseconds in `formatDuration` are out: durations are whole milliseconds.
- Money is exact: rounding of floating-point sums and quotients is not modelled.
- `localeCompare` is modelled as code-unit order. The two agree on the `YYYY-MM-DD` and `YYYY-MM` keys of years 0 to 9999. `sort()` with no comparator, used for the symbol list, is code-unit order itself.
- Day keys of years outside 0 to 9999 (the expanded `+YYYYYY` and `-YYYYYY` forms of `toISOString`) are produced by `Dates.DateKey`, but the model orders them by code units, where `localeCompare` may order them differently. The order of the daily series, the month list and the streak scan is exact only for years 0 to 9999.
- Calendar.Intensity: the contract is stated on the ratio abs(pnl) / maxPnl × 5 and requires abs(pnl) ≤ maxPnl. That holds at its only use, where maxPnl is the largest absolute PnL.
- The record types `Position` and `ChartDataPoint` (`src/types/index.ts`) are out, because no modelled operation uses them.
- The wallet, RPC, pattern-analysis and rendering code is out, because it is presentation or network plumbing.
