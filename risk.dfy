/** `calculateRiskMetrics` and `calculateSimpleRoR` of src/lib/mockDataGenerator.ts:
    the drawdown walk over the daily equity series, the streaks of losing
    trades, and a simple risk-of-ruin figure. */
module Risk {

  import opened Types
  import opened Seqs
  import Metrics
  import Daily
  import Runs

  /** What the drawdown loop carries from one day to the next. */
  datatype Walk = Walk(highWaterMark: real, current: real, maxDrawdown: real, maxDrawdownPct: real)

  const WalkStart := Walk(0.0, 0.0, 0.0, 0.0)

  /** A drawdown as a percentage of the high-water mark, 0 while the mark is not positive. */
  function DrawdownPct(drawdown: real, highWaterMark: real): real
  {
    if highWaterMark > 0.0 then drawdown / highWaterMark * 100.0 else 0.0
  }

  /** One day of the drawdown loop; the percentage is taken only when the
      maximum drawdown strictly grows. */
  function WalkStep(w: Walk, cumulative: real): Walk
  {
    var highWaterMark := Max(w.highWaterMark, cumulative);
    var current := highWaterMark - cumulative;
    if current > w.maxDrawdown then Walk(highWaterMark, current, current, DrawdownPct(current, highWaterMark))
    else Walk(highWaterMark, current, w.maxDrawdown, w.maxDrawdownPct)
  }

  function WalkOver(rows: seq<DailyPerformance>): Walk
    decreases |rows|
  {
    if rows == [] then WalkStart else WalkStep(WalkOver(rows[..|rows| - 1]), rows[|rows| - 1].cumulativePnl)
  }

  predicate IsLosing(t: Trade) { t.pnl < 0.0 }

  /** `consecutiveLosses` after the loop: the losing trades at the end of the list. */
  function LossStreak(trades: seq<Trade>): nat
  {
    Runs.TrailingRun(trades, IsLosing)
  }

  /** `maxConsecutiveLosses` after the loop. */
  function LongestLossStreak(trades: seq<Trade>): nat
  {
    Runs.LongestRun(trades, IsLosing)
  }

  /** `Math.max(0, Math.min(100, x))` on a finite `x`. */
  function Clamp(x: real): (r: real)
    ensures 0.0 <= r <= 100.0
    ensures 0.0 <= x <= 100.0 ==> r == x
  {
    Max(0.0, if x < 100.0 then x else 100.0)
  }

  /** `(winRate * avgWin) / ((1 - winRate) * avgLoss)` in IEEE arithmetic. A zero
      divisor has the sign of `avgLoss`, since `1 - winRate` is then +0. */
  function EdgeRatio(winRate: real, averageWin: real, averageLoss: real): ExtReal
  {
    var numerator, denominator := winRate * averageWin, (1.0 - winRate) * averageLoss;
    if denominator != 0.0 then Finite(numerator / denominator) else DivByZero(numerator, averageLoss < 0.0)
  }

  /** `calculateSimpleRoR`. An infinite edge ratio squares to infinity and gives
      0; a NaN edge fails the `<= 1` test and makes the result NaN. */
  function SimpleRiskOfRuin(winRate: real, averageWin: real, averageLoss: real): (r: ExtReal)
    ensures r != PosInf && r != NegInf
    ensures r.Finite? ==> 0.0 <= r.value <= 100.0
    ensures averageLoss == 0.0 ==> r == Finite(0.0)
    ensures r == NaN <==> averageLoss != 0.0 && EdgeRatio(winRate, averageWin, averageLoss) == NaN
    ensures averageLoss != 0.0 && EdgeRatio(winRate, averageWin, averageLoss).Finite? ==>
      var edge := EdgeRatio(winRate, averageWin, averageLoss).value;
      r.Finite? && (edge <= 1.0 ==> r.value == 95.0) && (edge > 1.0 ==> 0.0 < r.value < 100.0 && r.value * (edge * edge) == 100.0)
  {
    if averageLoss == 0.0 then Finite(0.0)
    else
      match EdgeRatio(winRate, averageWin, averageLoss)
      case NaN => NaN
      case NegInf => Finite(95.0)
      case PosInf => Finite(0.0)
      case Finite(edge) =>
        if edge <= 1.0 then Finite(95.0)
        else
          SquareAboveOne(edge);
          Finite(Clamp(100.0 / (edge * edge)))
  }

  lemma SquareAboveOne(e: real)
    requires e > 1.0
    ensures e * e > 1.0 && 0.0 < 100.0 / (e * e) < 100.0
    ensures 100.0 / (e * e) * (e * e) == 100.0
  {
    assert e * e > e;
  }

  /** The record `calculateRiskMetrics` returns once its two loops are done. */
  function RiskRecord(w: Walk, consecutiveLosses: nat, maxConsecutiveLosses: nat, metrics: SummaryMetrics): RiskMetrics
  {
    RiskMetrics(
      riskOfRuin := SimpleRiskOfRuin(metrics.winRate / 100.0, metrics.averageWin, metrics.averageLoss),
      maxDrawdown := w.maxDrawdown,
      maxDrawdownPercentage := w.maxDrawdownPct,
      calmarRatio := if w.maxDrawdown > 0.0 then metrics.totalPnl / w.maxDrawdown else 0.0,
      averageRisk := 2.5,
      currentDrawdown := w.current,
      currentDrawdownPercentage := DrawdownPct(w.current, w.highWaterMark),
      consecutiveLosses := consecutiveLosses,
      maxConsecutiveLosses := maxConsecutiveLosses)
  }

  /** The risk figures `calculateRiskMetrics` returns for the daily rows of
      `trades` and the given summary: drawdowns and their percentages are
      never negative, and the current loss streak is at most the longest,
      which is at most the number of trades. */
  function RiskMetricsOf(trades: seq<Trade>, metrics: SummaryMetrics): (risk: RiskMetrics)
    ensures risk.maxDrawdown >= 0.0 && risk.maxDrawdownPercentage >= 0.0
    ensures risk.currentDrawdown >= 0.0 && risk.currentDrawdownPercentage >= 0.0
    ensures risk.consecutiveLosses <= risk.maxConsecutiveLosses <= |trades|
  {
    LedgerDrawdown(Daily.SortedDays(trades, Daily.DayOf));
    LossStreaks(trades);
    RiskRecord(WalkOver(Daily.DailyPerformanceOf(trades, Daily.DayOf)), LossStreak(trades), LongestLossStreak(trades), metrics)
  }

  /** `calculateRiskMetrics`: a loop over the days, a loop over the trades, then the record. */
  method CalculateRiskMetrics(trades: seq<Trade>, metrics: SummaryMetrics) returns (risk: RiskMetrics)
    ensures risk == RiskMetricsOf(trades, metrics)
  {
    var dailyPerf := Daily.CalculateDailyPerformance(trades);
    var w := DrawdownWalk(dailyPerf);
    var consecutiveLosses, maxConsecutiveLosses := CountLossStreaks(trades);
    risk := RiskRecord(w, consecutiveLosses, maxConsecutiveLosses, metrics);
  }

  /** The `forEach` over the days: high-water mark, current and maximum drawdown. */
  method DrawdownWalk(dailyPerf: seq<DailyPerformance>) returns (w: Walk)
    ensures w == WalkOver(dailyPerf)
  {
    var maxDrawdown, maxDrawdownPct, currentDrawdown, highWaterMark := 0.0, 0.0, 0.0, 0.0;
    for i := 0 to |dailyPerf|
      invariant WalkOver(dailyPerf[..i]) == Walk(highWaterMark, currentDrawdown, maxDrawdown, maxDrawdownPct)
    {
      assert dailyPerf[..i + 1][..i] == dailyPerf[..i];
      var day := dailyPerf[i];
      highWaterMark := Max(highWaterMark, day.cumulativePnl);
      currentDrawdown := highWaterMark - day.cumulativePnl;
      if currentDrawdown > maxDrawdown {
        maxDrawdown := currentDrawdown;
        maxDrawdownPct := if highWaterMark > 0.0 then currentDrawdown / highWaterMark * 100.0 else 0.0;
      }
    }
    assert dailyPerf[..|dailyPerf|] == dailyPerf;
    w := Walk(highWaterMark, currentDrawdown, maxDrawdown, maxDrawdownPct);
  }

  /** The `forEach` over the trades counting losing streaks. */
  method CountLossStreaks(trades: seq<Trade>) returns (consecutiveLosses: nat, maxConsecutiveLosses: nat)
    ensures consecutiveLosses == LossStreak(trades)
    ensures maxConsecutiveLosses == LongestLossStreak(trades)
  {
    consecutiveLosses, maxConsecutiveLosses := 0, 0;
    for i := 0 to |trades|
      invariant consecutiveLosses == Runs.TrailingRun(trades[..i], IsLosing)
      invariant maxConsecutiveLosses == Runs.LongestRun(trades[..i], IsLosing)
    {
      assert trades[..i + 1][..i] == trades[..i];
      if trades[i].pnl < 0.0 {
        consecutiveLosses := consecutiveLosses + 1;
        maxConsecutiveLosses := MaxNat(maxConsecutiveLosses, consecutiveLosses);
      } else {
        consecutiveLosses := 0;
      }
    }
    assert trades[..|trades|] == trades;
  }

  /** On the rows of a daily ledger, the loop's high-water mark is the rows'
      own `highWaterMark`, its current drawdown the last row's `drawdown`,
      and its maximum drawdown the largest `drawdown` in the rows. */
  lemma WalkLedger(days: seq<Daily.DayEntry>, n: nat)
    requires n <= |days|
    ensures var rows, w := Daily.Ledger(days), WalkOver(Daily.Ledger(days)[..n]);
      && w.highWaterMark == Daily.Peak(days, n)
      && (n > 0 ==> w.current == rows[n - 1].drawdown)
      && (n == 0 ==> w.current == 0.0)
      && w.maxDrawdown >= 0.0
      && (forall j :: 0 <= j < n ==> w.maxDrawdown >= rows[j].drawdown)
      && (w.maxDrawdown == 0.0 || exists j :: 0 <= j < n && w.maxDrawdown == rows[j].drawdown)
      && w.maxDrawdownPct >= 0.0
  {
    var rows := Daily.Ledger(days);
    WalkMarks(days, n);
    WalkMaximum(rows[..n]);
    forall j | 0 <= j < n
      ensures DrawdownAt(rows[..n], j) == rows[j].drawdown
    {
      LedgerDrawdownAt(days, n, j);
    }
  }

  /** Within the first `n` rows of a ledger, the walk's drawdown at row `j` is that row's. */
  lemma LedgerDrawdownAt(days: seq<Daily.DayEntry>, n: nat, j: nat)
    requires j < n <= |days|
    ensures DrawdownAt(Daily.Ledger(days)[..n], j) == Daily.Ledger(days)[j].drawdown
  {
    var rows := Daily.Ledger(days);
    assert rows[..n][..j + 1] == rows[..j + 1];
    WalkMarks(days, j + 1);
  }

  /** The walk over the first `n` rows ends on the `n`-th row's step. */
  lemma WalkPrefix(rows: seq<DailyPerformance>, n: nat)
    requires 0 < n <= |rows|
    ensures WalkOver(rows[..n]) == WalkStep(WalkOver(rows[..n - 1]), rows[n - 1].cumulativePnl)
  {
    assert rows[..n][..n - 1] == rows[..n - 1];
  }

  lemma {:induction false} WalkMarks(days: seq<Daily.DayEntry>, n: nat)
    requires n <= |days|
    ensures var rows, w := Daily.Ledger(days), WalkOver(Daily.Ledger(days)[..n]);
      && w.highWaterMark == Daily.Peak(days, n)
      && (n > 0 ==> w.current == rows[n - 1].drawdown)
      && (n == 0 ==> w.current == 0.0)
    decreases n
  {
    if n > 0 {
      WalkMarks(days, n - 1);
      WalkPrefix(Daily.Ledger(days), n);
    } else {
      assert Daily.Ledger(days)[..0] == [];
    }
  }

  /** The current drawdown after the walk has reached row `j`. */
  function DrawdownAt(rows: seq<DailyPerformance>, j: nat): real
    requires j < |rows|
  {
    WalkOver(rows[..j + 1]).current
  }

  /** The high-water mark after the walk has reached row `j`. */
  function HighWaterAt(rows: seq<DailyPerformance>, j: nat): real
    requires j < |rows|
  {
    WalkOver(rows[..j + 1]).highWaterMark
  }

  /** The walk's maximum percentage belongs to the first row whose drawdown
      reaches the maximum: the strict `>` keeps the earlier row on a tie. */
  lemma {:induction false} WalkFirstMaximum(rows: seq<DailyPerformance>)
    ensures var w := WalkOver(rows);
      && (w.maxDrawdown == 0.0 ==> w.maxDrawdownPct == 0.0)
      && (w.maxDrawdown > 0.0 ==>
            exists j :: 0 <= j < |rows|
              && DrawdownAt(rows, j) == w.maxDrawdown
              && (forall k :: 0 <= k < j ==> DrawdownAt(rows, k) < w.maxDrawdown)
              && w.maxDrawdownPct == DrawdownPct(DrawdownAt(rows, j), HighWaterAt(rows, j)))
    decreases |rows|
  {
    if rows != [] {
      var n := |rows|;
      var init := rows[..n - 1];
      WalkFirstMaximum(init);
      WalkMaximum(init);
      assert rows[..n] == rows;
      forall j | 0 <= j < |init|
        ensures DrawdownAt(init, j) == DrawdownAt(rows, j) && HighWaterAt(init, j) == HighWaterAt(rows, j)
      {
        assert init[..j + 1] == rows[..j + 1];
      }
      var v, w := WalkOver(init), WalkOver(rows);
      if w.current > v.maxDrawdown {
        assert DrawdownAt(rows, n - 1) == w.current;
        assert HighWaterAt(rows, n - 1) == w.highWaterMark;
      } else if v.maxDrawdown > 0.0 {
        var j :| 0 <= j < |init| && DrawdownAt(init, j) == v.maxDrawdown
          && (forall k :: 0 <= k < j ==> DrawdownAt(init, k) < v.maxDrawdown)
          && v.maxDrawdownPct == DrawdownPct(DrawdownAt(init, j), HighWaterAt(init, j));
        assert DrawdownAt(rows, j) == w.maxDrawdown;
      }
    }
  }

  /** Within the first `n` rows of a ledger, the walk's high-water mark at row `j` is that row's. */
  lemma LedgerHighWaterAt(days: seq<Daily.DayEntry>, n: nat, j: nat)
    requires j < n <= |days|
    ensures HighWaterAt(Daily.Ledger(days)[..n], j) == Daily.Ledger(days)[j].highWaterMark
  {
    var rows := Daily.Ledger(days);
    assert rows[..n][..j + 1] == rows[..j + 1];
    WalkMarks(days, j + 1);
  }

  /** One step keeps the maximum as the larger of the old maximum and the new drawdown. */
  lemma StepMaximum(w: Walk, cumulative: real)
    requires w.maxDrawdown >= 0.0 && w.maxDrawdownPct >= 0.0
    ensures var v := WalkStep(w, cumulative);
      && v.current >= 0.0
      && v.maxDrawdown == Max(w.maxDrawdown, v.current)
      && v.maxDrawdownPct >= 0.0
  {
    var highWaterMark := Max(w.highWaterMark, cumulative);
    var current := highWaterMark - cumulative;
    if current > w.maxDrawdown && highWaterMark > 0.0 {
      Metrics.RatioSign(current, highWaterMark);
    }
  }

  /** The walk's maximum is the largest of the drawdowns it has passed through. */
  lemma {:induction false} WalkMaximum(rows: seq<DailyPerformance>)
    ensures var w := WalkOver(rows);
      && w.maxDrawdown >= 0.0
      && (forall j :: 0 <= j < |rows| ==> w.maxDrawdown >= DrawdownAt(rows, j))
      && (w.maxDrawdown == 0.0 || exists j :: 0 <= j < |rows| && w.maxDrawdown == DrawdownAt(rows, j))
      && w.maxDrawdownPct >= 0.0
    decreases |rows|
  {
    if rows != [] {
      var init := rows[..|rows| - 1];
      WalkMaximum(init);
      StepMaximum(WalkOver(init), rows[|rows| - 1].cumulativePnl);
      assert rows[..|rows|] == rows;
      forall j | 0 <= j < |init|
        ensures DrawdownAt(init, j) == DrawdownAt(rows, j)
      {
        assert init[..j + 1] == rows[..j + 1];
      }
      var w := WalkOver(rows);
      if w.maxDrawdown != 0.0 {
        if w.maxDrawdown == w.current {
          assert DrawdownAt(rows, |rows| - 1) == w.current;
        } else {
          var j :| 0 <= j < |init| && WalkOver(init).maxDrawdown == DrawdownAt(init, j);
          assert w.maxDrawdown == DrawdownAt(rows, j);
        }
      }
    }
  }

  /** The risk record's drawdown fields against the daily rows: the maximum
      drawdown is the largest row drawdown (0 with no rows), and its
      percentage is taken against the high-water mark of the first row that
      reaches it; the current drawdown and its percentage are the last row's. */
  lemma RiskDrawdown(trades: seq<Trade>, metrics: SummaryMetrics)
    ensures var rows, risk := Daily.DailyPerformanceOf(trades, Daily.DayOf), RiskMetricsOf(trades, metrics);
      && risk.maxDrawdown >= 0.0
      && (forall j :: 0 <= j < |rows| ==> risk.maxDrawdown >= rows[j].drawdown)
      && (risk.maxDrawdown == 0.0 ==> risk.maxDrawdownPercentage == 0.0)
      && (risk.maxDrawdown > 0.0 ==>
            exists j :: 0 <= j < |rows|
              && rows[j].drawdown == risk.maxDrawdown
              && (forall k :: 0 <= k < j ==> rows[k].drawdown < risk.maxDrawdown)
              && risk.maxDrawdownPercentage == DrawdownPct(rows[j].drawdown, rows[j].highWaterMark))
      && risk.currentDrawdown == (if rows == [] then 0.0 else rows[|rows| - 1].drawdown)
      && risk.currentDrawdownPercentage
           == (if rows == [] then 0.0 else DrawdownPct(rows[|rows| - 1].drawdown, rows[|rows| - 1].highWaterMark))
      && risk.maxDrawdownPercentage >= 0.0
      && risk.currentDrawdownPercentage >= 0.0
      && (risk.maxDrawdown == 0.0 ==> risk.calmarRatio == 0.0)
  {
    var days := Daily.SortedDays(trades, Daily.DayOf);
    var rows := Daily.DailyPerformanceOf(trades, Daily.DayOf);
    assert rows == Daily.Ledger(days);
    LedgerDrawdown(days);
    assert RiskMetricsOf(trades, metrics) == RiskRecord(WalkOver(rows), LossStreak(trades), LongestLossStreak(trades), metrics);
  }

  /** The drawdown walk over a whole daily ledger. */
  lemma LedgerDrawdown(days: seq<Daily.DayEntry>)
    ensures var rows, w := Daily.Ledger(days), WalkOver(Daily.Ledger(days));
      && w.maxDrawdown >= 0.0
      && (forall j :: 0 <= j < |rows| ==> w.maxDrawdown >= rows[j].drawdown)
      && (w.maxDrawdown == 0.0 ==> w.maxDrawdownPct == 0.0)
      && (w.maxDrawdown > 0.0 ==>
            exists j :: 0 <= j < |rows|
              && rows[j].drawdown == w.maxDrawdown
              && (forall k :: 0 <= k < j ==> rows[k].drawdown < w.maxDrawdown)
              && w.maxDrawdownPct == DrawdownPct(rows[j].drawdown, rows[j].highWaterMark))
      && w.current == (if rows == [] then 0.0 else rows[|rows| - 1].drawdown)
      && DrawdownPct(w.current, w.highWaterMark)
           == (if rows == [] then 0.0 else DrawdownPct(rows[|rows| - 1].drawdown, rows[|rows| - 1].highWaterMark))
      && w.maxDrawdownPct >= 0.0
      && DrawdownPct(w.current, w.highWaterMark) >= 0.0
  {
    var rows := Daily.Ledger(days);
    var n := |days|;
    WalkLedger(days, n);
    assert rows[..n] == rows;
    WalkFirstMaximum(rows);
    forall j | 0 <= j < n
      ensures DrawdownAt(rows, j) == rows[j].drawdown && HighWaterAt(rows, j) == rows[j].highWaterMark
    {
      LedgerDrawdownAt(days, n, j);
      LedgerHighWaterAt(days, n, j);
    }
    if n > 0 {
      Daily.PeakBounds(days, n);
      var current := rows[n - 1].drawdown;
      assert current >= 0.0;
      if Daily.Peak(days, n) > 0.0 {
        Metrics.RatioSign(current, Daily.Peak(days, n));
      }
    }
  }

  /** The loss streaks: the current one is the run of losing trades at the
      end of the list, and the maximum is the longest run of losing trades
      anywhere in it, never shorter than the current one. */
  lemma LossStreaks(trades: seq<Trade>)
    ensures LossStreak(trades) <= LongestLossStreak(trades) <= |trades|
    ensures Runs.RunAt(trades, IsLosing, |trades| - LossStreak(trades), |trades|)
    ensures LossStreak(trades) < |trades| ==> trades[|trades| - 1 - LossStreak(trades)].pnl >= 0.0
    ensures forall i, j :: 0 <= i <= j <= |trades| && Runs.RunAt(trades, IsLosing, i, j) ==> j - i <= LongestLossStreak(trades)
    ensures exists i, j :: 0 <= i <= j <= |trades| && j - i == LongestLossStreak(trades) && Runs.RunAt(trades, IsLosing, i, j)
  {
    Runs.TrailingRunSuffix(trades, IsLosing);
    Runs.LongestRunIsLongest(trades, IsLosing);
  }

  /** With `w` winners and `l > 0` losers, the edge ratio of the win rate and
      the two averages is the ratio of gross profit to gross loss. */
  lemma EdgeArithmetic(w: nat, l: nat, gp: real, gl: real)
    requires l > 0 && gl > 0.0
    requires w == 0 ==> gp == 0.0
    ensures EdgeRatio(Metrics.Percentage(w, w + l) / 100.0, Metrics.Mean(gp, w), Metrics.Mean(gl, l)) == Finite(gp / gl)
  {
    var c := (w + l) as real;
    var rate := Metrics.Percentage(w, w + l) / 100.0;
    Metrics.PercentShares(w, l);
    assert 1.0 - rate == l as real / c;
    Metrics.ShareOfMean(w, c, gp);
    Metrics.ShareOfMean(l, c, gl);
    Metrics.RatioSign(gl, c);
    DivCancel(gp, gl, c);
  }

  /** A common positive divisor cancels out of a ratio. */
  lemma DivCancel(a: real, b: real, c: real)
    requires b != 0.0 && c > 0.0
    ensures (a / c) / (b / c) == a / b
  {
    assert (a / c) / (b / c) * b == a;
  }

  lemma RatioAtMostOne(a: real, b: real)
    requires b > 0.0 && a <= b
    ensures a / b <= 1.0
  {
    assert a / b * b == a;
  }

  /** The risk of ruin of the win rate and average win and loss that `w`
      winners with gross profit `gp` and `l` losers with gross loss `gl` give. */
  lemma RuinOfAverages(w: nat, l: nat, gp: real, gl: real)
    requires gp >= 0.0 && gl >= 0.0
    requires w == 0 ==> gp == 0.0
    requires l == 0 ==> gl == 0.0
    ensures var rate, avgWin, avgLoss := Metrics.Percentage(w, w + l) / 100.0, Metrics.Mean(gp, w), Metrics.Mean(gl, l);
      var r := SimpleRiskOfRuin(rate, avgWin, avgLoss);
      && r.Finite? && 0.0 <= r.value <= 100.0
      && (gl == 0.0 ==> r == Finite(0.0))
      && (gl > 0.0 ==> EdgeRatio(rate, avgWin, avgLoss) == Metrics.ProfitFactorOf(gp, gl))
      && (gl > 0.0 && gp <= gl ==> r == Finite(95.0))
  {
    if gl > 0.0 {
      EdgeArithmetic(w, l, gp, gl);
      Metrics.RatioSign(gl, l as real);
      assert Metrics.Mean(gl, l) > 0.0;
      if gp <= gl {
        RatioAtMostOne(gp, gl);
      }
    } else {
      assert Metrics.Mean(gl, l) == 0.0;
    }
  }

  /** On a summary's own figures the risk of ruin is a finite percentage: 0
      when there is no gross loss, 95 when the profit factor is at most 1, and
      otherwise `100 / pf^2`, since the edge ratio is then the profit factor. */
  lemma RiskOfRuinOfSummary(t: Metrics.Tally)
    requires Metrics.ValidTally(t)
    ensures var m := Metrics.Summarize(t);
      var r := SimpleRiskOfRuin(m.winRate / 100.0, m.averageWin, m.averageLoss);
      && r.Finite? && 0.0 <= r.value <= 100.0
      && (m.grossLoss == 0.0 ==> r == Finite(0.0))
      && (m.grossLoss > 0.0 ==> EdgeRatio(m.winRate / 100.0, m.averageWin, m.averageLoss) == m.profitFactor)
      && (m.grossLoss > 0.0 && m.grossProfit <= m.grossLoss ==> r == Finite(95.0))
  {
    Metrics.SummaryPnl(t);
    RuinOfAverages(t.winners, t.losers, t.grossProfit, Abs(t.lossSum));
  }
}
