/** `calculateMetrics` of src/lib/mockDataGenerator.ts: the summary statistics
    of a trade set. Only CLOSED trades are counted; winners have pnl > 0 and
    losers pnl <= 0, so a break-even trade is a loser.

    The computation is split in two: `TallyOf` accumulates counts and sums over
    the trades, and `Summarize` derives the ratios from those totals. */
module Metrics {

  import opened Types
  import opened Seqs

  predicate IsClosed(t: Trade) { t.status == Closed }
  predicate IsWin(t: Trade) { t.pnl > 0.0 }
  predicate IsLoss(t: Trade) { t.pnl <= 0.0 }
  predicate IsLong(t: Trade) { t.kind == Long }
  predicate IsShort(t: Trade) { t.kind == Short }

  function Pnl(t: Trade): real { t.pnl }
  /** The notional a trade moves: size times leverage. */
  function Volume(t: Trade): real { t.size * t.leverage }
  function Fees(t: Trade): real { t.fees }
  function Duration(t: Trade): real { t.duration }

  function ClosedTrades(trades: seq<Trade>): seq<Trade> { Filter(trades, IsClosed) }
  function Winners(trades: seq<Trade>): seq<Trade> { Filter(ClosedTrades(trades), IsWin) }
  function Losers(trades: seq<Trade>): seq<Trade> { Filter(ClosedTrades(trades), IsLoss) }

  /** `Math.max(...pnls)` over a non-empty trade list. */
  function LargestPnl(ts: seq<Trade>): (r: real)
    requires |ts| > 0
    ensures forall t :: t in ts ==> t.pnl <= r
    ensures exists t :: t in ts && t.pnl == r
    decreases |ts|
  {
    if |ts| == 1 then ts[0].pnl
    else
      var init := ts[..|ts| - 1];
      assert forall t :: t in ts ==> t in init || t == ts[|ts| - 1];
      Max(LargestPnl(init), ts[|ts| - 1].pnl)
  }

  /** `Math.min(...pnls)` over a non-empty trade list. */
  function SmallestPnl(ts: seq<Trade>): (r: real)
    requires |ts| > 0
    ensures forall t :: t in ts ==> r <= t.pnl
    ensures exists t :: t in ts && t.pnl == r
    decreases |ts|
  {
    if |ts| == 1 then ts[0].pnl
    else
      var init := ts[..|ts| - 1];
      assert forall t :: t in ts ==> t in init || t == ts[|ts| - 1];
      var m := SmallestPnl(init);
      if ts[|ts| - 1].pnl < m then ts[|ts| - 1].pnl else m
  }

  /** The counts and sums `calculateMetrics` takes over the closed trades.
      `lossSum` is the losers' PnL before `Math.abs` is applied. */
  datatype Tally = Tally(
    closed: nat,
    winners: nat,
    losers: nat,
    longs: nat,
    shorts: nat,
    grossProfit: real,
    lossSum: real,
    volume: real,
    fees: real,
    duration: real,
    largestWin: real,
    largestLoss: real)

  function TallyOf(trades: seq<Trade>): Tally
  {
    var closed, winners, losers := ClosedTrades(trades), Winners(trades), Losers(trades);
    Tally(
      closed := |closed|,
      winners := |winners|,
      losers := |losers|,
      longs := |Filter(closed, IsLong)|,
      shorts := |Filter(closed, IsShort)|,
      grossProfit := Sum(winners, Pnl),
      lossSum := Sum(losers, Pnl),
      volume := Sum(closed, Volume),
      fees := Sum(closed, Fees),
      duration := Sum(closed, Duration),
      largestWin := if |winners| > 0 then LargestPnl(winners) else 0.0,
      largestLoss := if |losers| > 0 then SmallestPnl(losers) else 0.0)
  }

  /** What the tally of any trade set satisfies (see `TallyIsValid`). */
  predicate ValidTally(t: Tally)
  {
    && t.winners + t.losers == t.closed
    && t.longs + t.shorts == t.closed
    && t.grossProfit >= 0.0 && (t.grossProfit == 0.0 <==> t.winners == 0)
    && t.lossSum <= 0.0 && (t.losers == 0 ==> t.lossSum == 0.0)
  }

  /** `total` shared out over `count` items, 0 when there are none. */
  function Mean(total: real, count: nat): real
  {
    if count > 0 then total / count as real else 0.0
  }

  /** `part` as a percentage of `whole`, 0 for an empty whole. */
  function Percentage(part: nat, whole: nat): real
  {
    if whole > 0 then (part as real / whole as real) * 100.0 else 0.0
  }

  /** `x * 100` for a number that may be infinite or NaN. */
  function Times100(x: ExtReal): ExtReal
  {
    if x.Finite? then Finite(x.value * 100.0) else x
  }

  /** Gross profit over gross loss, infinite for a profit without losses. */
  function ProfitFactorOf(grossProfit: real, grossLoss: real): ExtReal
  {
    if grossLoss > 0.0 then Finite(grossProfit / grossLoss)
    else if grossProfit > 0.0 then PosInf
    else Finite(0.0)
  }

  /** The expected PnL of a trade from the win rate (a percentage) and the
      average win and loss. */
  function ExpectancyOf(winRate: real, averageWin: real, averageLoss: real): real
  {
    (winRate / 100.0 * averageWin) - ((100.0 - winRate) / 100.0 * averageLoss)
  }

  /** The summary figures derived from a tally. */
  function Summarize(t: Tally): SummaryMetrics
  {
    var grossLoss := Abs(t.lossSum);
    var totalPnl := t.grossProfit - grossLoss;
    var winRate := Percentage(t.winners, t.closed);
    var averageWin := Mean(t.grossProfit, t.winners);
    var averageLoss := Mean(grossLoss, t.losers);
    SummaryMetrics(
      totalPnl := totalPnl,
      totalPnlPercentage := Times100(Div(totalPnl, t.volume)),
      totalTrades := t.closed,
      winningTrades := t.winners,
      losingTrades := t.losers,
      winRate := winRate,
      profitFactor := ProfitFactorOf(t.grossProfit, grossLoss),
      grossProfit := t.grossProfit,
      grossLoss := grossLoss,
      averageWin := averageWin,
      averageLoss := averageLoss,
      largestWin := t.largestWin,
      largestLoss := t.largestLoss,
      averageTradeDuration := Mean(t.duration, t.closed),
      totalVolume := t.volume,
      totalFees := t.fees,
      longTrades := t.longs,
      shortTrades := t.shorts,
      expectancy := ExpectancyOf(winRate, averageWin, averageLoss))
  }

  /** `calculateMetrics`: the winners and losers split the closed trades,
      the win rate is a percentage and the gross loss a magnitude. */
  function CalculateMetrics(trades: seq<Trade>): (m: SummaryMetrics)
    ensures m.winningTrades + m.losingTrades == m.totalTrades
    ensures 0.0 <= m.winRate <= 100.0
    ensures m.grossLoss >= 0.0
  {
    TallyIsValid(trades);
    WinRateRange(TallyOf(trades));
    SummaryPnl(TallyOf(trades));
    Summarize(TallyOf(trades))
  }

  // ---------------------------------------------------------------------
  // The tally of a trade set

  /** Every closed trade is either a winner or a loser, and either long or short. */
  lemma TallySplits(trades: seq<Trade>)
    ensures TallyOf(trades).winners + TallyOf(trades).losers == TallyOf(trades).closed
    ensures TallyOf(trades).longs + TallyOf(trades).shorts == TallyOf(trades).closed
  {
    SumSplit(ClosedTrades(trades), IsWin, IsLoss, Pnl);
    SumSplit(ClosedTrades(trades), IsLong, IsShort, Pnl);
  }

  /** Gross profit is non-negative, and 0 exactly when no closed trade won,
      which is exactly when there are no winners. */
  lemma GrossProfitZero(trades: seq<Trade>)
    ensures TallyOf(trades).grossProfit >= 0.0
    ensures TallyOf(trades).grossProfit == 0.0 <==> forall t :: t in ClosedTrades(trades) ==> t.pnl <= 0.0
    ensures TallyOf(trades).grossProfit == 0.0 <==> TallyOf(trades).winners == 0
  {
    var winners := Winners(trades);
    FilterMembers(ClosedTrades(trades), IsWin);
    SumNonNegative(winners, Pnl);
    if |winners| > 0 {
      assert winners[0] in winners;
    }
  }

  /** The losers' PnL sums to at most 0, and to 0 exactly when no closed
      trade lost money; it is 0 when there are no losers. */
  lemma LossSumZero(trades: seq<Trade>)
    ensures TallyOf(trades).lossSum <= 0.0
    ensures TallyOf(trades).lossSum == 0.0 <==> forall t :: t in ClosedTrades(trades) ==> t.pnl >= 0.0
    ensures TallyOf(trades).losers == 0 ==> TallyOf(trades).lossSum == 0.0
  {
    var losers := Losers(trades);
    FilterMembers(ClosedTrades(trades), IsLoss);
    SumNonPositive(losers, Pnl);
    if |losers| == 0 {
      assert losers == [];
    }
  }

  /** The tally of any trade set is valid. */
  lemma TallyIsValid(trades: seq<Trade>)
    ensures ValidTally(TallyOf(trades))
  {
    TallySplits(trades);
    GrossProfitZero(trades);
    LossSumZero(trades);
  }

  /** Gross profit plus the losers' (non-positive) sum is the PnL of every
      closed trade. */
  lemma TallyNet(trades: seq<Trade>)
    ensures TallyOf(trades).grossProfit + TallyOf(trades).lossSum == Sum(ClosedTrades(trades), Pnl)
  {
    SumSplit(ClosedTrades(trades), IsWin, IsLoss, Pnl);
  }

  /** The largest win is the best closed trade's PnL when it is positive, or 0
      without winners; the largest loss is the worst closed trade's PnL when it
      is at most 0, or 0 without losers. */
  lemma LargestWinLoss(trades: seq<Trade>)
    ensures var tally, closed := TallyOf(trades), ClosedTrades(trades);
      && (tally.winners == 0 ==> tally.largestWin == 0.0)
      && (tally.winners > 0 ==>
            tally.largestWin > 0.0
            && (forall t :: t in closed ==> t.pnl <= tally.largestWin)
            && (exists t :: t in closed && t.pnl == tally.largestWin))
      && (tally.losers == 0 ==> tally.largestLoss == 0.0)
      && (tally.losers > 0 ==>
            tally.largestLoss <= 0.0
            && (forall t :: t in closed ==> tally.largestLoss <= t.pnl)
            && (exists t :: t in closed && t.pnl == tally.largestLoss))
  {
    FilterMembers(ClosedTrades(trades), IsWin);
    FilterMembers(ClosedTrades(trades), IsLoss);
  }

  /** An empty trade set tallies to zeros. */
  lemma EmptyTally()
    ensures TallyOf([]) == Tally(0, 0, 0, 0, 0, 0.0, 0.0, 0.0, 0.0, 0.0, 0.0, 0.0)
  {
  }

  // ---------------------------------------------------------------------
  // Figures derived from a tally

  /** Dividing by a positive number and multiplying back gives the number. */
  lemma RatioScales(a: real, b: real)
    requires b > 0.0
    ensures a / b * b == a
  {
  }

  /** Dividing by a positive number keeps the sign. */
  lemma RatioSign(a: real, b: real)
    requires b > 0.0
    ensures a / b == 0.0 <==> a == 0.0
    ensures a > 0.0 ==> a / b > 0.0
    ensures a >= 0.0 ==> a / b >= 0.0
  {
  }

  /** Gross loss is the losers' sum with its sign flipped, and the net PnL is
      gross profit plus that sum. */
  lemma SummaryPnl(t: Tally)
    requires ValidTally(t)
    ensures Summarize(t).grossLoss == -t.lossSum && Summarize(t).grossLoss >= 0.0
    ensures Summarize(t).totalPnl == t.grossProfit + t.lossSum
  {
  }

  /** The win rate is a percentage, and 0 when nothing closed. */
  lemma WinRateRange(t: Tally)
    requires ValidTally(t)
    ensures 0.0 <= Summarize(t).winRate <= 100.0
    ensures t.closed == 0 ==> Summarize(t).winRate == 0.0
  {
    if t.closed > 0 {
      RatioSign(t.winners as real, t.closed as real);
      assert t.winners as real / t.closed as real <= 1.0;
    }
  }

  /** The win rate is the winners' share of the closed trades. */
  lemma WinRateShare(t: Tally)
    requires ValidTally(t) && t.closed > 0
    ensures Summarize(t).winRate * t.closed as real == 100.0 * t.winners as real
  {
    RatioScales(t.winners as real, t.closed as real);
  }

  /** Profit factor is infinite exactly when there is a profit and no losing
      PnL, 0 exactly when there is no profit, and never NaN, negative infinity
      or negative. */
  lemma ProfitFactorCases(t: Tally)
    requires ValidTally(t)
    ensures Summarize(t).profitFactor == PosInf <==> t.grossProfit > 0.0 && t.lossSum == 0.0
    ensures Summarize(t).profitFactor == Finite(0.0) <==> t.grossProfit == 0.0
    ensures Summarize(t).profitFactor.Finite? ==> Summarize(t).profitFactor.value >= 0.0
    ensures Summarize(t).profitFactor != NaN && Summarize(t).profitFactor != NegInf
  {
    if t.lossSum < 0.0 {
      RatioSign(t.grossProfit, -t.lossSum);
    }
  }

  /** With a losing PnL, profit factor is the finite ratio of gross profit to
      gross loss. */
  lemma ProfitFactorRatio(t: Tally)
    requires ValidTally(t) && t.lossSum < 0.0
    ensures Summarize(t).profitFactor.Finite?
    ensures Summarize(t).profitFactor.value * Summarize(t).grossLoss == t.grossProfit
  {
    RatioScales(t.grossProfit, -t.lossSum);
  }

  /** The average win is 0 without winners and positive with them; the
      average loss is 0 without losers and never negative. */
  lemma AverageSigns(t: Tally)
    requires ValidTally(t)
    ensures t.winners == 0 ==> Summarize(t).averageWin == 0.0
    ensures t.winners > 0 ==> Summarize(t).averageWin > 0.0
    ensures t.losers == 0 ==> Summarize(t).averageLoss == 0.0
    ensures Summarize(t).averageLoss >= 0.0
  {
    if t.winners > 0 {
      RatioSign(t.grossProfit, t.winners as real);
    }
    if t.losers > 0 {
      RatioSign(-t.lossSum, t.losers as real);
    }
  }

  /** The averages share the gross figures out over the winners and losers. */
  lemma AverageShares(t: Tally)
    requires ValidTally(t)
    ensures t.winners > 0 ==> Summarize(t).averageWin * t.winners as real == t.grossProfit
    ensures t.losers > 0 ==> Summarize(t).averageLoss * t.losers as real == Summarize(t).grossLoss
  {
    if t.winners > 0 {
      RatioScales(t.grossProfit, t.winners as real);
    }
    if t.losers > 0 {
      RatioScales(-t.lossSum, t.losers as real);
    }
  }

  /** With `w` winners and `l` losers, the expectancy formula is the net
      result shared out over all `w + l` trades. */
  lemma ExpectancyArithmetic(w: nat, l: nat, gp: real, gl: real)
    requires w + l > 0
    requires w == 0 ==> gp == 0.0
    requires l == 0 ==> gl == 0.0
    ensures ExpectancyOf(Percentage(w, w + l), Mean(gp, w), Mean(gl, l)) == (gp - gl) / (w + l) as real
  {
    var n := (w + l) as real;
    PercentShares(w, l);
    ExpectancyShares(Percentage(w, w + l), Mean(gp, w), Mean(gl, l), w as real / n, l as real / n);
    ShareOfMean(w, n, gp);
    ShareOfMean(l, n, gl);
    DivDifference(gp, gl, n);
  }

  /** The expectancy formula with the two shares written out. */
  lemma ExpectancyShares(p: real, averageWin: real, averageLoss: real, winShare: real, lossShare: real)
    requires p / 100.0 == winShare && (100.0 - p) / 100.0 == lossShare
    ensures ExpectancyOf(p, averageWin, averageLoss) == winShare * averageWin - lossShare * averageLoss
  {
  }

  /** The win rate over 100 is the winners' share, and its complement the
      losers' share. */
  lemma PercentShares(w: nat, l: nat)
    requires w + l > 0
    ensures Percentage(w, w + l) / 100.0 == w as real / (w + l) as real
    ensures (100.0 - Percentage(w, w + l)) / 100.0 == l as real / (w + l) as real
  {
    var n := (w + l) as real;
    assert w as real / n + l as real / n == 1.0 by {
      DivSum(w as real, l as real, n);
    }
  }

  lemma DivSum(a: real, b: real, n: real)
    requires n > 0.0
    ensures a / n + b / n == (a + b) / n
  {
  }

  lemma DivDifference(a: real, b: real, n: real)
    requires n > 0.0
    ensures a / n - b / n == (a - b) / n
  {
  }

  /** A count's share of `n` times the mean over that count is the total
      over `n`. */
  lemma ShareOfMean(k: nat, n: real, total: real)
    requires n > 0.0
    requires k == 0 ==> total == 0.0
    ensures (k as real / n) * Mean(total, k) == total / n
  {
    if k > 0 {
      var c := k as real;
      assert (c / n) * (total / c) == total / n;
    }
  }

  /** Expectancy is the mean PnL per closed trade (0 when nothing closed). */
  lemma ExpectancyIsMeanPnl(t: Tally)
    requires ValidTally(t)
    ensures t.closed == 0 ==> Summarize(t).expectancy == 0.0
    ensures t.closed > 0 ==> Summarize(t).expectancy == Summarize(t).totalPnl / t.closed as real
  {
    if t.closed > 0 {
      ExpectancyArithmetic(t.winners, t.losers, t.grossProfit, -t.lossSum);
    }
  }

  /** The PnL percentage divides by the volume without a guard: it is finite
      exactly when the volume is non-zero, and NaN when neither volume nor PnL
      is, as for the empty set. */
  lemma PnlPercentageCases(t: Tally)
    ensures var m := Summarize(t);
      && (t.volume != 0.0 ==> m.totalPnlPercentage == Finite(m.totalPnl / t.volume * 100.0))
      && (t.volume == 0.0 ==> !m.totalPnlPercentage.Finite?)
      && (t.volume == 0.0 && m.totalPnl == 0.0 ==> m.totalPnlPercentage == NaN)
  {
  }

  /** An empty trade set has a NaN PnL percentage, and its other ratios are 0. */
  lemma EmptyMetrics()
    ensures CalculateMetrics([]).totalPnlPercentage == NaN
    ensures CalculateMetrics([]).totalTrades == 0 && CalculateMetrics([]).winRate == 0.0
    ensures CalculateMetrics([]).profitFactor == Finite(0.0) && CalculateMetrics([]).expectancy == 0.0
  {
    EmptyTally();
  }
}
