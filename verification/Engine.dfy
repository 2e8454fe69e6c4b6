/**
  The single-position backtest engine (backtesting/engine.py). The step functions say what one
  call does to the engine's fields; the class performs the same steps in place.
*/
module Engine {
  import opened Prelude
  import opened Models
  import opened Sizing

  datatype Pending = Pending(direction: Direction, confidence: int, signalIndex: nat, atr: real)

  datatype Position = Position(direction: Direction, signalIndex: nat, entryIndex: nat, entryPrice: real,
                               stop: real, target: real, quantity: real, balanceBefore: real)

  datatype State = State(balance: real, pending: Option<Pending>, position: Option<Position>,
                         trades: seq<Trade>, decisions: seq<Decision>, equity: seq<real>,
                         totalTrades: nat, wins: nat, losses: nat)
  {
    /** Indices remembered by the engine point at candles no later than the given one. */
    predicate PlacedBy(index: int) {
      && (pending.Some? ==> pending.value.signalIndex <= index)
      && (position.Some? ==> position.value.signalIndex <= index && position.value.entryIndex <= index)
    }
  }

  function Initial(balance: real): State {
    State(balance, None, None, [], [], [balance], 0, 0, 0)
  }

  /** The "ATR" cell of a row. Missing values occur only on rows the runner never evaluates. */
  function AtrOf(row: Row): real {
    match row.atr case Some(atr) => atr case None => 0.0
  }

  /** Adverse fill: fixed costs plus the part that scales with volatility. */
  function EntryPrice(cfg: Config, p: Pending, open: real): real {
    var adverse := cfg.exec.spread + cfg.exec.slippage + p.atr * (cfg.exec.spreadAtr + cfg.exec.slippageAtr);
    if p.direction.Buy? then open + adverse else open - adverse
  }

  /** Distance of the stop and of the target, on the losing and the winning side of the entry. */
  function StopPrice(cfg: Config, p: Pending, entry: real): real {
    if p.direction.Buy? then entry - p.atr * cfg.exec.stopMultiple else entry + p.atr * cfg.exec.stopMultiple
  }

  function TargetPrice(cfg: Config, p: Pending, entry: real): real {
    if p.direction.Buy? then entry + p.atr * cfg.exec.targetMultiple else entry - p.atr * cfg.exec.targetMultiple
  }

  /** _enter: open a position, record a sizing refusal, or do nothing. */
  function Entered(cfg: Config, s: State, index: nat, row: Row): State
    requires s.pending.Some?
  {
    var p := s.pending.value;
    var entry := EntryPrice(cfg, p, row.candle.open);
    var amount := cfg.RiskAmount(s.balance);
    if p.atr * cfg.exec.stopMultiple <= 0.0 || amount <= cfg.exec.fee || amount > s.balance then s else
    var stop := StopPrice(cfg, p, entry);
    match Authorize(s.balance, cfg.risk.percent, entry, stop)
    case Refused(reason) =>
      s.(decisions := s.decisions + [Decision(index, row.candle.time, Some(p.direction), p.confidence,
                                              ExecutionRejected, [reason], None, None, None)])
    case Authorized(quantity, _) =>
      s.(position := Some(Position(p.direction, p.signalIndex, index, entry, stop,
                                   TargetPrice(cfg, p, entry), quantity, s.balance)))
  }

  function GrossOf(p: Position, exitPrice: real): real {
    (if p.direction.Buy? then exitPrice - p.entryPrice else p.entryPrice - exitPrice) * p.quantity
  }

  /** _close: realise the position and append its trade. */
  function Closed(cfg: Config, s: State, index: nat, exitPrice: real, reason: ExitReason, rows: seq<Row>): State
    requires s.position.Some? && s.PlacedBy(index) && index < |rows|
  {
    var p := s.position.value;
    var gross := GrossOf(p, exitPrice);
    var balance := Max(0.0, s.balance + (gross - cfg.exec.fee));
    var net := balance - p.balanceBefore;
    var trade := Trade(|s.trades| + 1, p.direction, rows[p.signalIndex].candle.time, rows[p.entryIndex].candle.time,
                       p.entryPrice, rows[index].candle.time, exitPrice, p.stop, p.target, p.quantity,
                       gross, cfg.exec.fee, net, p.balanceBefore, balance, index - p.entryIndex + 1, reason);
    s.(balance := balance, position := None, trades := s.trades + [trade], equity := s.equity + [balance],
       totalTrades := s.totalTrades + 1,
       wins := s.wins + (if net > 0.0 then 1 else 0), losses := s.losses + (if net < 0.0 then 1 else 0))
  }

  predicate StopHit(p: Position, c: Candle) {
    StopReached(p.direction, p.stop, c)
  }

  predicate TargetHit(p: Position, c: Candle) {
    TargetReached(p.direction, p.target, c)
  }

  /** _evaluate_exit: the stop wins a collision, then the target, then the holding limit. */
  function Evaluated(cfg: Config, s: State, index: nat, rows: seq<Row>): State
    requires s.position.Some? && s.PlacedBy(index) && index < |rows|
  {
    var p, c := s.position.value, rows[index].candle;
    if StopHit(p, c) then Closed(cfg, s, index, p.stop, StopLoss, rows)
    else if TargetHit(p, c) then Closed(cfg, s, index, p.target, TakeProfit, rows)
    else if index - p.entryIndex + 1 >= cfg.exec.maxHolding then Closed(cfg, s, index, c.close, Timeout, rows)
    else s
  }

  /** The entry half of process_candle. */
  function Opened(cfg: Config, s: State, index: nat, rows: seq<Row>): (r: State)
    requires s.PlacedBy(index) && index < |rows|
    ensures r.PlacedBy(index)
  {
    if s.position.None? && s.pending.Some? && index > s.pending.value.signalIndex
    then Entered(cfg, s, index, rows[index]).(pending := None)
    else s
  }

  /** process_candle */
  function AfterCandle(cfg: Config, s: State, index: nat, rows: seq<Row>): (r: State)
    requires s.PlacedBy(index) && index < |rows|
    ensures r.PlacedBy(index)
  {
    var entered := Opened(cfg, s, index, rows);
    if entered.position.Some? then Evaluated(cfg, entered, index, rows) else entered
  }

  /** Market gate of the risk engine's approve_trade: the refusal text, if any. */
  function RiskRefusal(cfg: Config, atr: real): Option<string> {
    if atr < cfg.risk.minAtr then Some("Low volatility")
    else if 0.0 > cfg.risk.maxSpread then Some("Spread too high")
    else None
  }

  /** Outcome of queue_signal's gates, in the order the source tries them. */
  function Verdict(cfg: Config, s: State, signal: Signal, atr: real): (DecisionState, seq<string>) {
    if s.position.Some? then (RejectedCandidate, signal.reasons + ["Position already open"])
    else if s.pending.Some? then (RejectedCandidate, signal.reasons + ["Entry already pending"])
    else if signal.direction.None? then (NoTrade, signal.reasons)
    else if signal.confidence < cfg.risk.minConfidence then
      (RejectedCandidate, signal.reasons + ["Confidence below backtest minimum"])
    else if atr <= 0.0 then (InsufficientSetup, signal.reasons + ["ATR unavailable"])
    else match RiskRefusal(cfg, atr)
         case Some(reason) => (RiskBlocked, signal.reasons + [reason])
         case None => (Queued, signal.reasons)
  }

  /** queue_signal */
  function AfterSignal(cfg: Config, s: State, signal: Signal, index: nat, rows: seq<Row>): (r: State)
    requires index < |rows| && s.PlacedBy(index)
    ensures r.PlacedBy(index)
  {
    var atr := AtrOf(rows[index]);
    var (state, reasons) := Verdict(cfg, s, signal, atr);
    s.(pending := if state.Queued? then Some(Pending(signal.direction.value, signal.confidence, index, atr)) else s.pending,
       decisions := s.decisions + [Decision(index, rows[index].candle.time, signal.direction, signal.confidence,
                                            state, reasons, signal.entry, signal.stop, signal.target)])
  }

  /** finish */
  function Finished(cfg: Config, s: State, last: int, rows: seq<Row>): State
    requires s.position.Some? ==> 0 <= last < |rows| && s.PlacedBy(last)
  {
    (if s.position.Some? then Closed(cfg, s, last, rows[last].candle.close, EndOfData, rows) else s).(pending := None)
  }

  class BacktestEngine {
    const cfg: Config
    const startingBalance: real
    var balance: real
    var pending: Option<Pending>
    var position: Option<Position>
    var trades: seq<Trade>
    var decisions: seq<Decision>
    var equityCurve: seq<real>
    var totalTrades: nat
    var wins: nat
    var losses: nat

    ghost function Abstract(): State
      reads this
    {
      State(balance, pending, position, trades, decisions, equityCurve, totalTrades, wins, losses)
    }

    constructor (startingBalance: real, cfg: Config)
      requires startingBalance > 0.0
      ensures Abstract() == Initial(startingBalance)
      ensures this.cfg == cfg && this.startingBalance == startingBalance
    {
      this.cfg, this.startingBalance := cfg, startingBalance;
      balance, pending, position := startingBalance, None, None;
      trades, decisions, equityCurve := [], [], [startingBalance];
      totalTrades, wins, losses := 0, 0, 0;
    }

    method Enter(index: nat, row: Row)
      requires pending.Some?
      modifies this`position, this`decisions
      ensures Abstract() == Entered(cfg, old(Abstract()), index, row)
    {
      hide Authorize;
      var p := pending.value;
      var entry := EntryPrice(cfg, p, row.candle.open);
      var amount := cfg.RiskAmount(balance);
      if p.atr * cfg.exec.stopMultiple <= 0.0 || amount <= cfg.exec.fee || amount > balance {
        return;
      }
      var stop := StopPrice(cfg, p, entry);
      var sizing := Authorize(balance, cfg.risk.percent, entry, stop);
      match sizing
      case Refused(reason) =>
        decisions := decisions + [Decision(index, row.candle.time, Some(p.direction), p.confidence,
                                           ExecutionRejected, [reason], None, None, None)];
      case Authorized(quantity, _) =>
        position := Some(Position(p.direction, p.signalIndex, index, entry, stop,
                                  TargetPrice(cfg, p, entry), quantity, balance));
    }

    method Close(index: nat, exitPrice: real, reason: ExitReason, rows: seq<Row>)
      requires position.Some? && Abstract().PlacedBy(index) && index < |rows|
      modifies this
      ensures Abstract() == Closed(cfg, old(Abstract()), index, exitPrice, reason, rows)
    {
      var p := position.value;
      var gross := GrossOf(p, exitPrice);
      var costs, before := cfg.exec.fee, p.balanceBefore;
      var net := gross - costs;
      balance := Max(0.0, balance + net);
      net := balance - before;
      trades := trades + [Trade(|trades| + 1, p.direction, rows[p.signalIndex].candle.time,
                                rows[p.entryIndex].candle.time, p.entryPrice, rows[index].candle.time, exitPrice,
                                p.stop, p.target, p.quantity, gross, costs, net, before, balance,
                                index - p.entryIndex + 1, reason)];
      equityCurve := equityCurve + [balance];
      totalTrades := totalTrades + 1;
      if net > 0.0 { wins := wins + 1; }
      if net < 0.0 { losses := losses + 1; }
      position := None;
    }

    method EvaluateExit(index: nat, rows: seq<Row>)
      requires position.Some? && Abstract().PlacedBy(index) && index < |rows|
      modifies this
      ensures Abstract() == Evaluated(cfg, old(Abstract()), index, rows)
    {
      var p, c := position.value, rows[index].candle;
      if StopHit(p, c) {
        Close(index, p.stop, StopLoss, rows);
      } else if TargetHit(p, c) {
        Close(index, p.target, TakeProfit, rows);
      } else if index - p.entryIndex + 1 >= cfg.exec.maxHolding {
        Close(index, c.close, Timeout, rows);
      }
    }

    method ProcessCandle(index: nat, rows: seq<Row>)
      requires Abstract().PlacedBy(index) && index < |rows|
      modifies this
      ensures Abstract() == AfterCandle(cfg, old(Abstract()), index, rows)
    {
      if position.None? && pending.Some? && index > pending.value.signalIndex {
        Enter(index, rows[index]);
        pending := None;
      }
      if position.Some? {
        EvaluateExit(index, rows);
      }
    }

    method QueueSignal(signal: Signal, index: nat, rows: seq<Row>)
      requires index < |rows| && Abstract().PlacedBy(index)
      modifies this`pending, this`decisions
      ensures Abstract() == AfterSignal(cfg, old(Abstract()), signal, index, rows)
    {
      var atr := AtrOf(rows[index]);
      var state, reasons := NoTrade, signal.reasons;
      if position.Some? {
        state, reasons := RejectedCandidate, reasons + ["Position already open"];
      } else if pending.Some? {
        state, reasons := RejectedCandidate, reasons + ["Entry already pending"];
      } else if signal.direction.None? {
        state := NoTrade;
      } else if signal.confidence < cfg.risk.minConfidence {
        state, reasons := RejectedCandidate, reasons + ["Confidence below backtest minimum"];
      } else if atr <= 0.0 {
        state, reasons := InsufficientSetup, reasons + ["ATR unavailable"];
      } else {
        var refusal := RiskRefusal(cfg, atr);
        if refusal.None? {
          pending := Some(Pending(signal.direction.value, signal.confidence, index, atr));
          state := Queued;
        } else {
          state, reasons := RiskBlocked, reasons + [refusal.value];
        }
      }
      decisions := decisions + [Decision(index, rows[index].candle.time, signal.direction, signal.confidence,
                                         state, reasons, signal.entry, signal.stop, signal.target)];
    }

    method Finish(last: int, rows: seq<Row>)
      requires position.Some? ==> 0 <= last < |rows| && Abstract().PlacedBy(last)
      modifies this
      ensures Abstract() == Finished(cfg, old(Abstract()), last, rows)
    {
      if position.Some? {
        Close(last, rows[last].candle.close, EndOfData, rows);
      }
      pending := None;
    }
  }
}
