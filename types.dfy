/** Records and enumerations of the trading dashboard (src/types/index.ts).

    Money amounts are exact `real`s, an idealisation of the JavaScript doubles
    the dashboard computes with; instants are whole milliseconds since the Unix
    epoch, as a JavaScript `Date` holds them. */
module Types {

  /** Milliseconds in one UTC day. */
  const MsPerDay: int := 86_400_000

  /** The largest magnitude a JavaScript `Date` time value can have (100,000,000 days). */
  const MaxTimeValue: int := 8_640_000_000_000_000

  /** A valid JavaScript `Date`: whole milliseconds since 1970-01-01T00:00:00Z. */
  type TimeValue = t: int | -MaxTimeValue <= t <= MaxTimeValue

  datatype Option<T> = None | Some(value: T)

  /** The value of a JavaScript number produced by a division the source does
      not guard: finite, one of the two infinities, or NaN. */
  datatype ExtReal = Finite(value: real) | PosInf | NegInf | NaN

  /** `a / z` in IEEE arithmetic when the divisor `z` is a zero; `negativeZero`
      tells whether it is -0. */
  function DivByZero(a: real, negativeZero: bool): (r: ExtReal)
    ensures r == NaN <==> a == 0.0
    ensures r == PosInf <==> (a > 0.0 && !negativeZero) || (a < 0.0 && negativeZero)
    ensures !r.Finite?
  {
    if a == 0.0 then NaN
    else if (a > 0.0) != negativeZero then PosInf
    else NegInf
  }

  /** `a / b` in IEEE arithmetic, reading a zero divisor as +0 (every zero the
      dashboard divides by comes from `Math.abs` or from a sum starting at 0). */
  function Div(a: real, b: real): (r: ExtReal)
    ensures r.Finite? <==> b != 0.0
    ensures r.Finite? ==> r.value * b == a
    ensures r == NaN <==> a == 0.0 && b == 0.0
    ensures r == PosInf <==> a > 0.0 && b == 0.0
  {
    if b != 0.0 then Finite(a / b) else DivByZero(a, false)
  }

  datatype TradeType = Long | Short

  datatype TradeStatus = Open | Closed | Liquidated

  datatype Symbol = SolPerp | JupPerp | BonkPerp | WifPerp | PythPerp
  {
    /** The instrument's name as the dashboard shows and filters it. */
    function Name(): string
    {
      match this
      case SolPerp => "SOL-PERP"
      case JupPerp => "JUP-PERP"
      case BonkPerp => "BONK-PERP"
      case WifPerp => "WIF-PERP"
      case PythPerp => "PYTH-PERP"
    }
  }

  /** One trade. `pnl` is net of fees; `size` is the notional in quote currency;
      `duration` is in milliseconds. Exit price and exit time are absent while
      the trade is open. */
  datatype Trade = Trade(
    id: string,
    symbol: Symbol,
    kind: TradeType,
    status: TradeStatus,
    entryPrice: real,
    exitPrice: Option<real>,
    size: real,
    leverage: real,
    pnl: real,
    pnlPercentage: real,
    fees: real,
    entryTime: TimeValue,
    exitTime: Option<TimeValue>,
    duration: real,
    annotation: Option<string>)

  /** The summary statistics of a trade set. `totalPnlPercentage` and
      `profitFactor` can be non-finite, as in the source. */
  datatype SummaryMetrics = SummaryMetrics(
    totalPnl: real,
    totalPnlPercentage: ExtReal,
    totalTrades: nat,
    winningTrades: nat,
    losingTrades: nat,
    winRate: real,
    profitFactor: ExtReal,
    grossProfit: real,
    grossLoss: real,
    averageWin: real,
    averageLoss: real,
    largestWin: real,
    largestLoss: real,
    averageTradeDuration: real,
    totalVolume: real,
    totalFees: real,
    longTrades: nat,
    shortTrades: nat,
    expectancy: real)

  /** One row of the daily equity series; `date` is a YYYY-MM-DD key. */
  datatype DailyPerformance = DailyPerformance(
    date: string,
    pnl: real,
    trades: nat,
    volume: real,
    fees: real,
    cumulativePnl: real,
    drawdown: real,
    highWaterMark: real)

  /** Risk figures. The Sharpe and Sortino ratios are not part of this model. */
  datatype RiskMetrics = RiskMetrics(
    riskOfRuin: ExtReal,
    maxDrawdown: real,
    maxDrawdownPercentage: real,
    calmarRatio: real,
    averageRisk: real,
    currentDrawdown: real,
    currentDrawdownPercentage: real,
    consecutiveLosses: nat,
    maxConsecutiveLosses: nat)

  /** One heat-map day. `intensity` is None where the source computes NaN. */
  datatype CalendarDay = CalendarDay(
    date: string,
    pnl: real,
    trades: nat,
    isProfit: bool,
    intensity: Option<int>)

  function Abs(x: real): (r: real)
    ensures r >= 0.0 && (r == x || r == -x)
  {
    if x < 0.0 then -x else x
  }

  function Max(a: real, b: real): (r: real)
    ensures r >= a && r >= b && (r == a || r == b)
  {
    if a < b then b else a
  }

  /** `Math.max` on the streak counters: `Max` at type `nat`, so that counts
      stay integers without a round trip through `real`. */
  function MaxNat(a: nat, b: nat): (r: nat)
    ensures r >= a && r >= b && (r == a || r == b)
  {
    if a < b then b else a
  }
}
