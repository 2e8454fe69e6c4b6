/** Typed inputs and outputs of the research backtest (backtesting/models.py, broker/types.py). */
module Models {
  import opened Prelude

  datatype Candle = Candle(time: int, open: real, high: real, low: real, close: real,
                           volume: Option<real>, source: string)
  {
    predicate Valid() {
      && open > 0.0 && high > 0.0 && low > 0.0 && close > 0.0
      && high >= Max(open, close) && low <= Min(open, close) && high >= low
    }
  }

  predicate Chronological(candles: seq<Candle>) {
    forall i, j :: 0 <= i < j < |candles| ==> candles[i].time < candles[j].time
  }

  /** What CandleDatasetSnapshot accepts, apart from its provider, symbol and source labels. */
  predicate ValidDataset(candles: seq<Candle>) {
    && candles != []
    && Chronological(candles)
    && forall i :: 0 <= i < |candles| ==> candles[i].Valid()
  }

  /** One line of the indicator frame; None stands for a value pandas leaves undefined. */
  datatype Row = Row(candle: Candle, ema50: real, ema200: real, rsi: Option<real>, atr: Option<real>)

  datatype Direction = Buy | Sell

  /** The candle trades at the stop or beyond it, on the losing side of a position. */
  predicate StopReached(d: Direction, stop: real, c: Candle) {
    if d.Buy? then c.low <= stop else c.high >= stop
  }

  /** The candle trades at the target or beyond it, on the winning side. */
  predicate TargetReached(d: Direction, target: real, c: Candle) {
    if d.Buy? then c.high >= target else c.low <= target
  }

  datatype Signal = Signal(direction: Option<Direction>, confidence: int, reasons: seq<string>,
                           entry: Option<real>, stop: Option<real>, target: Option<real>)

  /** Regime detection and signal generation see only the rows of the history they are given. */
  datatype Strategy = Strategy(regime: seq<Row> -> string, signal: (seq<Row>, string) -> Signal)

  datatype Execution = Execution(spread: real, slippage: real, fee: real, maxHolding: int,
                                 stopMultiple: real, targetMultiple: real,
                                 slippageAtr: real, spreadAtr: real)
  {
    predicate Valid() {
      && spread >= 0.0 && slippage >= 0.0 && fee >= 0.0 && slippageAtr >= 0.0 && spreadAtr >= 0.0
      && maxHolding > 0 && stopMultiple > 0.0 && targetMultiple > 0.0
    }
  }

  datatype Risk = Risk(percent: real, minConfidence: int, minAtr: real, maxSpread: real)
  {
    predicate Valid() {
      && 0.0 < percent <= 100.0 && 0 <= minConfidence <= 100
      && minAtr >= 0.0 && maxSpread >= 0.0
    }
  }

  datatype Config = Config(risk: Risk, exec: Execution)
  {
    predicate Valid() {
      risk.Valid() && exec.Valid()
    }

    /** Cash put at risk by one trade opened on this balance. */
    function RiskAmount(balance: real): real {
      Share(balance, risk.percent)
    }
  }

  datatype ExitReason = StopLoss | TakeProfit | Timeout | EndOfData

  datatype Trade = Trade(id: nat, direction: Direction, signalTime: int, entryTime: int, entryPrice: real,
                         exitTime: int, exitPrice: real, stop: real, target: real, quantity: real,
                         gross: real, costs: real, net: real, balanceBefore: real, balanceAfter: real,
                         holding: int, reason: ExitReason)

  datatype DecisionState = NoTrade | RejectedCandidate | InsufficientSetup | RiskBlocked | Queued | ExecutionRejected

  datatype Decision = Decision(index: nat, time: int, signal: Option<Direction>, confidence: int,
                               state: DecisionState, reasons: seq<string>,
                               entry: Option<real>, stop: Option<real>, target: Option<real>)

  datatype Observation = Observation(index: nat, time: int, ema50: real, ema200: real,
                                     rsi: Option<real>, atr: Option<real>, regime: Option<string>)
}
