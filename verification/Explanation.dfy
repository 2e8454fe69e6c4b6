/**
  Every trade of a run read back from the data: which signal warranted it, how it was filled, and
  why it ended on the candle it did and not before. Fills and levels are stated with signed distances,
  independently of how the engine computes them, and reaching a level by the prices a candle covers.
*/
module Explanation {
  import opened Prelude
  import opened Models
  import opened Sizing
  import opened Engine
  import opened Runner
  import opened Runs

  function Side(d: Direction): real {
    if d.Buy? then 1.0 else -1.0
  }

  /** The strategy, shown the rows up to i only, asked for this direction and every gate let it pass. */
  predicate Warranted(job: Job, rows: seq<Row>, i: int, d: Direction) {
    && 0 <= i < |rows|
    && var history := rows[..i + 1];
       var signal := job.strategy.signal(history, job.strategy.regime(history));
    && signal.direction == Some(d) && signal.confidence >= job.cfg.risk.minConfidence
    && rows[i].atr.Some? && rows[i].atr.value > 0.0 && rows[i].atr.value >= job.cfg.risk.minAtr
  }

  /** Levels of a trade, at the distances the signal candle's ATR dictates. */
  datatype Levels = Levels(direction: Direction, entry: real, stop: real, target: real)

  /** Filled at the next open, worse by the costs, with stop and target on opposite sides of the fill. */
  predicate Filled(cfg: Config, atr: real, open: real, v: Levels) {
    && v.entry - open == Side(v.direction) * (cfg.exec.spread + cfg.exec.slippage + atr * (cfg.exec.spreadAtr + cfg.exec.slippageAtr))
    && v.entry - v.stop == Side(v.direction) * (atr * cfg.exec.stopMultiple)
    && v.target - v.entry == Side(v.direction) * (atr * cfg.exec.targetMultiple)
  }

  predicate Entry(job: Job, rows: seq<Row>, signal: int, entry: int, v: Levels) {
    && Warranted(job, rows, signal, v.direction)
    && entry == signal + 1 < |rows|
    && Filled(job.cfg, rows[signal].atr.value, rows[entry].candle.open, v)
  }

  /** The size is what the sizing rule authorises for the balance at entry. */
  predicate Sized(cfg: Config, balance: real, v: Levels, quantity: real) {
    var s := Authorize(balance, cfg.risk.percent, v.entry, v.stop);
    s.Authorized? && s.quantity == quantity
  }

  predicate Quiet(v: Levels, c: Candle) {
    !StopReached(v.direction, v.stop, c) && !TargetReached(v.direction, v.target, c)
  }

  /** A price the candle covers. */
  predicate Covers(c: Candle, price: real) {
    c.low <= price <= c.high
  }

  /** On a valid candle, reaching a level means covering a price at it or beyond it. */
  lemma ReachedIffCovered(d: Direction, level: real, c: Candle)
    requires c.Valid()
    ensures StopReached(d, level, c) <==> exists price :: Covers(c, price) && Side(d) * (price - level) <= 0.0
    ensures TargetReached(d, level, c) <==> exists price :: Covers(c, price) && Side(d) * (price - level) >= 0.0
  {
    assert Covers(c, c.low) && Covers(c, c.high);
  }

  predicate QuietThrough(v: Levels, rows: seq<Row>, from: int, to: int) {
    0 <= from <= to <= |rows| && forall i :: from <= i < to ==> Quiet(v, rows[i].candle)
  }

  /** Why the trade ends on this candle, and at which price. The stop wins a collision. */
  predicate Ends(cfg: Config, v: Levels, c: Candle, holding: int, reason: ExitReason, price: real) {
    match reason
    case StopLoss => StopReached(v.direction, v.stop, c) && price == v.stop
    case TakeProfit => !StopReached(v.direction, v.stop, c) && TargetReached(v.direction, v.target, c) && price == v.target
    case Timeout => Quiet(v, c) && holding >= cfg.exec.maxHolding && price == c.close
    case EndOfData => Quiet(v, c) && holding < cfg.exec.maxHolding && price == c.close
  }

  function LevelsOf(t: Trade): Levels {
    Levels(t.direction, t.entryPrice, t.stop, t.target)
  }

  predicate Explained(job: Job, ix: TimeIndex, rows: seq<Row>, t: Trade) {
    var signal, entry, exit := At(ix, t.signalTime), At(ix, t.entryTime), At(ix, t.exitTime);
    && Entry(job, rows, signal, entry, LevelsOf(t))
    && Sized(job.cfg, t.balanceBefore, LevelsOf(t), t.quantity)
    && exit < |rows| && QuietThrough(LevelsOf(t), rows, entry, exit)
    && Ends(job.cfg, LevelsOf(t), rows[exit].candle, exit - entry + 1, t.reason, t.exitPrice)
    && t.gross == Side(t.direction) * (t.exitPrice - t.entryPrice) * t.quantity
  }

  predicate AllExplained(job: Job, ix: TimeIndex, rows: seq<Row>, trades: seq<Trade>) {
    forall k :: 0 <= k < |trades| ==> Explained(job, ix, rows, trades[k])
  }

  // ---------------------------------------------------------------- the invariant

  function LevelsHeld(p: Position): Levels {
    Levels(p.direction, p.entryPrice, p.stop, p.target)
  }

  /** The open position is explained so far: quiet on every candle from its entry to before n. */
  predicate HeldUntil(job: Job, rows: seq<Row>, p: Position, n: int) {
    && Entry(job, rows, p.signalIndex, p.entryIndex, LevelsHeld(p))
    && Sized(job.cfg, p.balanceBefore, LevelsHeld(p), p.quantity)
    && QuietThrough(LevelsHeld(p), rows, p.entryIndex, n)
  }

  predicate Accounted(job: Job, ix: TimeIndex, rows: seq<Row>, n: int, s: State) {
    && AllExplained(job, ix, rows, s.trades)
    && (s.pending.Some? ==>
          && s.pending.value.signalIndex == n - 1 && s.pending.value.signalIndex < |rows|
          && s.pending.value.atr == AtrOf(rows[s.pending.value.signalIndex])
          && Warranted(job, rows, s.pending.value.signalIndex, s.pending.value.direction))
    && (s.position.Some? ==> HeldUntil(job, rows, s.position.value, n))
  }

  lemma FillIsFilled(cfg: Config, p: Pending, open: real)
    ensures var entry := EntryPrice(cfg, p, open);
            Filled(cfg, p.atr, open, Levels(p.direction, entry, StopPrice(cfg, p, entry), TargetPrice(cfg, p, entry)))
  {
  }

  lemma OpenedAccounted(job: Job, ix: TimeIndex, rows: seq<Row>, n: nat, s: State)
    requires n < |rows| && s.PlacedBy(n) && Accounted(job, ix, rows, n, s)
    ensures var r := Opened(job.cfg, s, n, rows);
            && AllExplained(job, ix, rows, r.trades)
            && (r.position.Some? ==> HeldUntil(job, rows, r.position.value, n))
  {
    hide AllExplained, Authorize, Warranted, Filled, EntryPrice, StopPrice, TargetPrice, Config.RiskAmount;
    if s.pending.Some? {
      FillIsFilled(job.cfg, s.pending.value, rows[n].candle.open);
    }
  }

  lemma ClosedAccounted(job: Job, ix: TimeIndex, rows: seq<Row>, n: nat, s: State, price: real, reason: ExitReason)
    requires Indexes(ix, rows) && n < |rows| && s.position.Some? && s.PlacedBy(n)
    requires AllExplained(job, ix, rows, s.trades) && HeldUntil(job, rows, s.position.value, n)
    requires var p := s.position.value;
             Ends(job.cfg, LevelsHeld(p), rows[n].candle, n - p.entryIndex + 1, reason, price)
    ensures AllExplained(job, ix, rows, Closed(job.cfg, s, n, price, reason, rows).trades)
    ensures Closed(job.cfg, s, n, price, reason, rows).position.None?
  {
    hide Sized, Entry, QuietThrough, Ends;
    var p := s.position.value;
    assert p.signalIndex < |rows| && p.entryIndex < |rows|;
    var t := Closed(job.cfg, s, n, price, reason, rows).trades[|s.trades|];
    assert At(ix, t.signalTime) == p.signalIndex && At(ix, t.entryTime) == p.entryIndex && At(ix, t.exitTime) == n;
    assert GrossOf(p, price) == Side(p.direction) * (price - p.entryPrice) * p.quantity;
    assert Explained(job, ix, rows, t);
  }

  lemma ExtendQuiet(v: Levels, rows: seq<Row>, from: int, n: nat)
    requires n < |rows| && QuietThrough(v, rows, from, n) && Quiet(v, rows[n].candle)
    ensures QuietThrough(v, rows, from, n + 1)
  {
  }

  lemma CandleAccounted(job: Job, ix: TimeIndex, rows: seq<Row>, n: nat, s: State)
    requires Indexes(ix, rows) && n < |rows| && s.PlacedBy(n) && Accounted(job, ix, rows, n, s)
    requires s.pending.Some? ==> s.position.None?
    ensures Accounted(job, ix, rows, n + 1, AfterCandle(job.cfg, s, n, rows))
    ensures AfterCandle(job.cfg, s, n, rows).pending.None?
  {
    OpenedAccounted(job, ix, rows, n, s);
    var m := Opened(job.cfg, s, n, rows);
    assert m.pending.None?;
    hide AllExplained, Entered, Opened, Closed, Sized, Entry, QuietThrough;
    if m.position.Some? {
      var p, c := m.position.value, rows[n].candle;
      var v := LevelsHeld(p);
      if StopHit(p, c) {
        ClosedAccounted(job, ix, rows, n, m, p.stop, StopLoss);
        ClosedPending(job.cfg, m, n, p.stop, StopLoss, rows);
      } else if TargetHit(p, c) {
        ClosedAccounted(job, ix, rows, n, m, p.target, TakeProfit);
        ClosedPending(job.cfg, m, n, p.target, TakeProfit, rows);
      } else if n - p.entryIndex + 1 >= job.cfg.exec.maxHolding {
        ClosedAccounted(job, ix, rows, n, m, c.close, Timeout);
        ClosedPending(job.cfg, m, n, c.close, Timeout, rows);
      } else {
        ExtendQuiet(v, rows, p.entryIndex, n);
      }
    }
  }

  lemma ClosedPending(cfg: Config, s: State, n: nat, price: real, reason: ExitReason, rows: seq<Row>)
    requires n < |rows| && s.position.Some? && s.PlacedBy(n)
    ensures Closed(cfg, s, n, price, reason, rows).pending == s.pending
  {
  }

  /** A signal is queued exactly when the engine is flat and the signal is warranted. */
  lemma QueuedIffWarranted(job: Job, rows: seq<Row>, n: nat, s: State)
    requires job.cfg.Valid() && n < |rows| && s.PlacedBy(n) && s.pending.None?
    ensures var r := AfterSignal(job.cfg, s, SignalAt(job, rows, n), n, rows);
            && (r.pending.Some? <==> s.position.None? && exists d :: Warranted(job, rows, n, d))
            && (r.pending.Some? ==> r.pending.value.signalIndex == n && r.pending.value.atr == AtrOf(rows[n])
                                    && r.pending.value.confidence == SignalAt(job, rows, n).confidence
                                    && Warranted(job, rows, n, r.pending.value.direction))
            && r.trades == s.trades && r.position == s.position
  {
    var signal := SignalAt(job, rows, n);
    if signal.direction.Some? {
      assert Warranted(job, rows, n, signal.direction.value) <==>
             signal.confidence >= job.cfg.risk.minConfidence && AtrOf(rows[n]) > 0.0 && AtrOf(rows[n]) >= job.cfg.risk.minAtr;
    }
  }

  lemma SignalAccounted(job: Job, ix: TimeIndex, rows: seq<Row>, n: nat, s: State)
    requires job.cfg.Valid() && n < |rows| && s.PlacedBy(n) && s.pending.None? && Accounted(job, ix, rows, n + 1, s)
    ensures Accounted(job, ix, rows, n + 1, AfterSignal(job.cfg, s, SignalAt(job, rows, n), n, rows))
  {
    hide AfterSignal, AllExplained, HeldUntil, Warranted;
    QueuedIffWarranted(job, rows, n, s);
  }

  lemma InitialAccounted(job: Job, ix: TimeIndex, rows: seq<Row>, n: nat)
    ensures Accounted(job, ix, rows, n, Initial(job.balance))
  {
  }

  lemma {:induction false} LoopAccounted(job: Job, ix: TimeIndex, rows: seq<Row>, n: nat)
    requires job.cfg.Valid() && Indexes(ix, rows) && n <= |rows|
    ensures Accounted(job, ix, rows, n, Loop(job, rows, n))
  {
    hide AfterCandle, AfterSignal, Accounted;
    InitialAccounted(job, ix, rows, n);
    if n > job.EvalStart() {
      LoopAccounted(job, ix, rows, n - 1);
      var s := Loop(job, rows, n - 1);
      OneSlot(job, ix, rows, n - 1);
      CandleAccounted(job, ix, rows, n - 1, s);
      SignalAccounted(job, ix, rows, n - 1, AfterCandle(job.cfg, s, n - 1, rows));
    }
  }

  lemma OneSlot(job: Job, ix: TimeIndex, rows: seq<Row>, n: nat)
    requires job.cfg.Valid() && Indexes(ix, rows) && n <= |rows|
    ensures var s := Loop(job, rows, n);
            && (s.pending.Some? ==> s.position.None?)
            && (s.position.Some? ==> n - s.position.value.entryIndex < job.cfg.exec.maxHolding)
  {
    LoopShape(job, ix, rows, n);
    hide Loop, TradesShape;
  }

  /**
    Every trade of every run is explained: warranted by a signal one candle before its entry, filled
    adversely at that candle's open, sized by the sizing rule, left alone while neither level was
    touched, and closed on the first candle that touches one (the stop first), fills its holding
    limit, or ends the run.
  */
  lemma EveryTradeExplained(job: Job, ix: TimeIndex, rows: seq<Row>)
    requires job.cfg.Valid() && Indexes(ix, rows)
    ensures AllExplained(job, ix, rows, RunState(job, rows).trades)
    ensures forall k :: 0 <= k < |RunState(job, rows).trades| && RunState(job, rows).trades[k].reason.EndOfData? ==>
              At(ix, RunState(job, rows).trades[k].exitTime) == Horizon(job, rows) - 1
  {
    var n := Horizon(job, rows);
    LoopAccounted(job, ix, rows, n);
    OneSlot(job, ix, rows, n);
    var s := Loop(job, rows, n);
    LoopNeverForces(job, rows, n);
    hide Loop, AllExplained, Closed, Entry, Sized;
    if s.position.Some? {
      HeldLast(job, rows, s.position.value, n);
      ClosedAccounted(job, ix, rows, n - 1, s, rows[n - 1].candle.close, EndOfData);
      ClosedAppends(job.cfg, s, n - 1, rows[n - 1].candle.close, EndOfData, rows);
    }
  }

  lemma HeldLast(job: Job, rows: seq<Row>, p: Position, n: int)
    requires HeldUntil(job, rows, p, n) && p.entryIndex < n
    ensures HeldUntil(job, rows, p, n - 1) && Quiet(LevelsHeld(p), rows[n - 1].candle)
  {
    hide Entry, Sized, Quiet;
  }

  lemma ClosedAppends(cfg: Config, s: State, n: nat, price: real, reason: ExitReason, rows: seq<Row>)
    requires n < |rows| && s.position.Some? && s.PlacedBy(n)
    ensures var r := Closed(cfg, s, n, price, reason, rows).trades;
            |r| == |s.trades| + 1 && r[..|s.trades|] == s.trades && Last(r).reason == reason && Last(r).exitTime == rows[n].candle.time
  {
  }

  predicate NoneForced(trades: seq<Trade>) {
    forall k :: 0 <= k < |trades| ==> !trades[k].reason.EndOfData?
  }

  /** Only finish closes a position for lack of data. */
  lemma {:induction false} LoopNeverForces(job: Job, rows: seq<Row>, n: nat)
    requires n <= |rows|
    ensures NoneForced(Loop(job, rows, n).trades)
  {
    hide AfterCandle, Verdict;
    if n > job.EvalStart() {
      LoopNeverForces(job, rows, n - 1);
      CandleNeverForces(job.cfg, Loop(job, rows, n - 1), n - 1, rows);
    }
  }

  lemma CandleNeverForces(cfg: Config, s: State, n: nat, rows: seq<Row>)
    requires n < |rows| && s.PlacedBy(n) && NoneForced(s.trades)
    ensures NoneForced(AfterCandle(cfg, s, n, rows).trades)
  {
    hide Authorize, GrossOf;
  }
}
