/** The cash side of every canonical run: conservation of the ledger and the bound on ruin. */
module Capital {
  import opened Prelude
  import opened Models
  import opened Engine
  import opened Sizing
  import opened Runner

  // ---------------------------------------------------------------- conservation

  function Nets(trades: seq<Trade>): (xs: seq<real>)
    ensures |xs| == |trades|
  {
    seq(|trades|, k requires 0 <= k < |trades| => trades[k].net)
  }

  function CountIf(xs: seq<real>, p: real -> bool): nat {
    if xs == [] then 0 else CountIf(Init(xs), p) + if p(Last(xs)) then 1 else 0
  }

  function Meeting(xs: seq<real>, p: real -> bool): set<int> {
    set k | 0 <= k < |xs| && p(xs[k])
  }

  lemma {:induction false} CountIfIs(xs: seq<real>, p: real -> bool)
    ensures CountIf(xs, p) == |Meeting(xs, p)|
  {
    if xs != [] {
      var n := |xs| - 1;
      CountIfIs(Init(xs), p);
      assert Meeting(xs, p) == Meeting(Init(xs), p) + if p(xs[n]) then {n} else {};
    }
  }

  /** The equity curve is the starting balance followed by each trade's closing balance. */
  predicate CurveOf(start: real, trades: seq<Trade>, equity: seq<real>) {
    && |equity| == |trades| + 1 && equity[0] == start
    && forall k :: 0 <= k < |trades| ==>
         && trades[k].balanceBefore == equity[k]
         && trades[k].balanceAfter == equity[k + 1]
         && trades[k].net == equity[k + 1] - equity[k]
         && trades[k].balanceBefore > 0.0 && trades[k].balanceAfter >= 0.0
  }

  predicate Ledger(start: real, s: State) {
    && CurveOf(start, s.trades, s.equity)
    && s.balance == Last(s.equity) && s.balance >= 0.0
    && (s.position.Some? ==> s.position.value.balanceBefore == s.balance > 0.0)
    && s.totalTrades == |s.trades|
    && s.wins == CountIf(Nets(s.trades), x => x > 0.0)
    && s.losses == CountIf(Nets(s.trades), x => x < 0.0)
  }

  lemma OpenedLedger(cfg: Config, start: real, s: State, n: nat, rows: seq<Row>)
    requires cfg.Valid() && n < |rows| && s.PlacedBy(n) && Ledger(start, s)
    ensures Ledger(start, Opened(cfg, s, n, rows))
  {
    hide Authorize;
    if s.balance == 0.0 {
      assert cfg.RiskAmount(s.balance) == 0.0;
    }
  }

  lemma ClosedLedger(cfg: Config, start: real, s: State, n: nat, exitPrice: real, reason: ExitReason, rows: seq<Row>)
    requires n < |rows| && s.position.Some? && s.PlacedBy(n) && Ledger(start, s)
    ensures Ledger(start, Closed(cfg, s, n, exitPrice, reason, rows))
  {
    hide GrossOf;
    var r := Closed(cfg, s, n, exitPrice, reason, rows);
    assert Init(Nets(r.trades)) == Nets(s.trades);
  }

  lemma AfterCandleLedger(cfg: Config, start: real, s: State, n: nat, rows: seq<Row>)
    requires cfg.Valid() && n < |rows| && s.PlacedBy(n) && Ledger(start, s)
    ensures Ledger(start, AfterCandle(cfg, s, n, rows))
  {
    hide Entered, Closed, Ledger;
    OpenedLedger(cfg, start, s, n, rows);
    var m := Opened(cfg, s, n, rows);
    if m.position.Some? {
      var p, c := m.position.value, rows[n].candle;
      ClosedLedger(cfg, start, m, n, p.stop, StopLoss, rows);
      ClosedLedger(cfg, start, m, n, p.target, TakeProfit, rows);
      ClosedLedger(cfg, start, m, n, c.close, Timeout, rows);
    }
  }

  lemma {:induction false} LoopLedger(job: Job, rows: seq<Row>, n: nat)
    requires job.cfg.Valid() && job.balance > 0.0 && n <= |rows|
    ensures Ledger(job.balance, Loop(job, rows, n))
  {
    hide AfterCandle;
    if n > job.EvalStart() {
      LoopLedger(job, rows, n - 1);
      AfterCandleLedger(job.cfg, job.balance, Loop(job, rows, n - 1), n - 1, rows);
    }
  }

  lemma {:induction false} NetsTelescope(start: real, trades: seq<Trade>, equity: seq<real>)
    requires CurveOf(start, trades, equity)
    ensures Sum(Nets(trades)) == Last(equity) - start
  {
    if trades != [] {
      NetsTelescope(start, Init(trades), Init(equity));
      assert Init(Nets(trades)) == Nets(Init(trades));
    }
  }

  /** Conservation over a whole run; a zero balance ends trading. */
  lemma RunLedger(job: Job, rows: seq<Row>)
    requires job.cfg.Valid() && job.balance > 0.0
    ensures var s := RunState(job, rows);
            && Ledger(job.balance, s)
            && Sum(Nets(s.trades)) == s.balance - job.balance
            && forall k :: 0 <= k < |s.trades| ==> s.equity[k] > 0.0
  {
    hide Closed;
    var n := Horizon(job, rows);
    LoopLedger(job, rows, n);
    var s := Loop(job, rows, n);
    if s.position.Some? {
      ClosedLedger(job.cfg, job.balance, s, n - 1, rows[n - 1].candle.close, EndOfData, rows);
    }
    var r := RunState(job, rows);
    NetsTelescope(job.balance, r.trades, r.equity);
    forall k | 0 <= k < |r.trades| ensures r.equity[k] > 0.0 {
      assert r.trades[k].balanceBefore > 0.0;
    }
  }

  // ---------------------------------------------------------------- bounded ruin

  /** The stop is on the losing side of the entry and the target on the winning side. */
  predicate Banded(d: Direction, stop: real, price: real, target: real) {
    if d.Buy? then stop <= price <= target else target <= price <= stop
  }

  predicate PositionRisk(cfg: Config, p: Position) {
    && cfg.exec.fee < cfg.RiskAmount(p.balanceBefore)
    && Banded(p.direction, p.stop, p.entryPrice, p.target)
    && p.quantity > 0.0
    && p.quantity * Abs(p.entryPrice - p.stop) <= cfg.RiskAmount(p.balanceBefore)
  }

  predicate TradeRisk(cfg: Config, t: Trade) {
    && Banded(t.direction, t.stop, t.exitPrice, t.target)
    && t.costs == cfg.exec.fee < cfg.RiskAmount(t.balanceBefore)
    && t.gross >= -cfg.RiskAmount(t.balanceBefore)
    && t.balanceAfter == Max(0.0, t.balanceBefore + (t.gross - t.costs))
  }

  predicate TradesRisk(cfg: Config, trades: seq<Trade>) {
    forall k :: 0 <= k < |trades| ==> TradeRisk(cfg, trades[k])
  }

  /** Neither level was touched on this candle. */
  predicate Untouched(p: Position, c: Candle) {
    !StopHit(p, c) && !TargetHit(p, c)
  }

  predicate Prudent(cfg: Config, s: State) {
    && TradesRisk(cfg, s.trades)
    && (s.position.Some? ==> PositionRisk(cfg, s.position.value) && s.position.value.balanceBefore == s.balance)
    && (s.pending.Some? ==> s.pending.value.atr > 0.0)
  }

  lemma EnteredPrudent(cfg: Config, s: State, n: nat, row: Row)
    requires cfg.Valid() && Prudent(cfg, s) && s.pending.Some? && s.position.None?
    ensures Prudent(cfg, Entered(cfg, s, n, row))
  {
    hide Share, AuthorizeCash, EntryPrice, TradesRisk, Abs;
    var p := s.pending.value;
    var entry := EntryPrice(cfg, p, row.candle.open);
    var stop := StopPrice(cfg, p, entry);
    var amount := cfg.RiskAmount(s.balance);
    AuthorizedAmount(cfg, s.balance, entry, stop);
    LevelsAreBanded(cfg, p, entry);
    hide Authorize, StopPrice, TargetPrice, Banded, Config.RiskAmount;
    AuthorizeIsLargestSafeQuantity(amount, Abs(entry - stop));
  }

  lemma AuthorizedAmount(cfg: Config, balance: real, entry: real, stop: real)
    ensures Authorize(balance, cfg.risk.percent, entry, stop) == AuthorizeCash(cfg.RiskAmount(balance), Abs(entry - stop))
  {
    hide AuthorizeCash, Share;
  }

  lemma LevelsAreBanded(cfg: Config, p: Pending, entry: real)
    requires cfg.Valid() && p.atr > 0.0
    ensures Banded(p.direction, StopPrice(cfg, p, entry), entry, TargetPrice(cfg, p, entry))
  {
    assert p.atr * cfg.exec.stopMultiple > 0.0 && p.atr * cfg.exec.targetMultiple > 0.0;
  }

  lemma GrossBound(p: Position, exitPrice: real, amount: real)
    requires Banded(p.direction, p.stop, p.entryPrice, p.target) && Banded(p.direction, p.stop, exitPrice, p.target)
    requires p.quantity > 0.0 && p.quantity * Abs(p.entryPrice - p.stop) <= amount
    ensures GrossOf(p, exitPrice) >= -amount
  {
    var move := if p.direction.Buy? then exitPrice - p.entryPrice else p.entryPrice - exitPrice;
    MulMonotone(-Abs(p.entryPrice - p.stop), move, p.quantity);
  }

  lemma ClosedPrudent(cfg: Config, s: State, n: nat, exitPrice: real, reason: ExitReason, rows: seq<Row>)
    requires n < |rows| && s.position.Some? && s.PlacedBy(n) && Prudent(cfg, s)
    requires Banded(s.position.value.direction, s.position.value.stop, exitPrice, s.position.value.target)
    ensures Prudent(cfg, Closed(cfg, s, n, exitPrice, reason, rows))
  {
    var p := s.position.value;
    GrossBound(p, exitPrice, cfg.RiskAmount(p.balanceBefore));
    hide GrossOf;
  }

  lemma CloseIsBanded(p: Position, c: Candle)
    requires c.Valid() && Untouched(p, c)
    ensures Banded(p.direction, p.stop, c.close, p.target)
  {
  }

  lemma AfterCandlePrudent(cfg: Config, s: State, n: nat, rows: seq<Row>)
    requires cfg.Valid() && n < |rows| && rows[n].candle.Valid() && s.PlacedBy(n) && Prudent(cfg, s)
    ensures var r := AfterCandle(cfg, s, n, rows);
            Prudent(cfg, r) && (r.position.Some? ==> Untouched(r.position.value, rows[n].candle))
  {
    hide Entered, Closed, TradesRisk, GrossOf;
    if s.position.None? && s.pending.Some? {
      EnteredPrudent(cfg, s, n, rows[n]);
    }
    var m := Opened(cfg, s, n, rows);
    if m.position.Some? {
      var p, c := m.position.value, rows[n].candle;
      if StopHit(p, c) {
        ClosedPrudent(cfg, m, n, p.stop, StopLoss, rows);
        ClosedEmpties(cfg, m, n, p.stop, StopLoss, rows);
      } else if TargetHit(p, c) {
        ClosedPrudent(cfg, m, n, p.target, TakeProfit, rows);
        ClosedEmpties(cfg, m, n, p.target, TakeProfit, rows);
      } else if n - p.entryIndex + 1 >= cfg.exec.maxHolding {
        CloseIsBanded(p, c);
        ClosedPrudent(cfg, m, n, c.close, Timeout, rows);
        ClosedEmpties(cfg, m, n, c.close, Timeout, rows);
      }
    }
  }

  lemma ClosedEmpties(cfg: Config, s: State, n: nat, exitPrice: real, reason: ExitReason, rows: seq<Row>)
    requires n < |rows| && s.position.Some? && s.PlacedBy(n)
    ensures Closed(cfg, s, n, exitPrice, reason, rows).position.None?
  {
  }

  ghost predicate ValidRows(rows: seq<Row>) {
    forall i :: 0 <= i < |rows| ==> rows[i].candle.Valid()
  }

  lemma AfterSignalPrudent(cfg: Config, s: State, signal: Signal, n: nat, rows: seq<Row>)
    requires n < |rows| && s.PlacedBy(n) && Prudent(cfg, s)
    ensures Prudent(cfg, AfterSignal(cfg, s, signal, n, rows))
    ensures AfterSignal(cfg, s, signal, n, rows).position == s.position
  {
    hide TradesRisk, PositionRisk;
  }

  lemma InitialPrudent(cfg: Config, balance: real)
    ensures Prudent(cfg, Initial(balance))
  {
  }

  lemma {:induction false} LoopPrudent(job: Job, rows: seq<Row>, n: nat)
    requires job.cfg.Valid() && ValidRows(rows) && n <= |rows|
    ensures var s := Loop(job, rows, n);
            && Prudent(job.cfg, s)
            && (s.position.Some? ==> n > 0 && Untouched(s.position.value, rows[n - 1].candle))
  {
    InitialPrudent(job.cfg, job.balance);
    hide AfterCandle, AfterSignal, Prudent;
    if n > job.EvalStart() {
      LoopPrudent(job, rows, n - 1);
      var s := Loop(job, rows, n - 1);
      AfterCandlePrudent(job.cfg, s, n - 1, rows);
      AfterSignalPrudent(job.cfg, AfterCandle(job.cfg, s, n - 1, rows), SignalAt(job, rows, n - 1), n - 1, rows);
    }
  }

  /** Every trade of a run exits between its stop and its target and loses at most its risk plus the fee. */
  lemma RunPrudent(job: Job, rows: seq<Row>)
    requires job.cfg.Valid() && ValidRows(rows)
    ensures TradesRisk(job.cfg, RunState(job, rows).trades)
  {
    hide Closed, TradesRisk, PositionRisk;
    var n := Horizon(job, rows);
    LoopPrudent(job, rows, n);
    var s := Loop(job, rows, n);
    if s.position.Some? {
      CloseIsBanded(s.position.value, rows[n - 1].candle);
      ClosedPrudent(job.cfg, s, n - 1, rows[n - 1].candle.close, EndOfData, rows);
    }
  }

  function Pow(x: real, n: nat): real {
    if n == 0 then 1.0 else Pow(x, n - 1) * x
  }

  /** start * (1 - r)^n - n * fee */
  function Floor(cfg: Config, start: real, n: nat): real {
    start * Pow(1.0 - cfg.risk.percent / 100.0, n) - n as real * cfg.exec.fee
  }

  lemma KeepShare(before: real, a: real, fees: real, keep: real)
    requires before >= a - fees && fees >= 0.0 && 0.0 <= keep <= 1.0
    ensures before * keep >= a * keep - fees
  {
    MulMonotone(a - fees, before, keep);
    assert (a - fees) * keep == a * keep - fees * keep;
    assert (1.0 - keep) * fees >= 0.0;
  }

  lemma Shares(cfg: Config, before: real)
    requires cfg.Valid()
    ensures before - cfg.RiskAmount(before) == before * (1.0 - cfg.risk.percent / 100.0)
    ensures before >= 0.0 && cfg.risk.percent <= 50.0 ==> cfg.RiskAmount(before) <= before / 2.0
  {
    var share := cfg.risk.percent / 100.0;
    assert cfg.RiskAmount(before) == before * share;
    if before >= 0.0 && cfg.risk.percent <= 50.0 {
      MulMonotone(share, 0.5, before);
    }
  }

  lemma FloorStep(cfg: Config, start: real, n: nat, before: real, after: real)
    requires cfg.Valid()
    requires before >= Floor(cfg, start, n)
    requires after >= before - cfg.RiskAmount(before) - cfg.exec.fee
    ensures after >= Floor(cfg, start, n + 1)
  {
    var keep := 1.0 - cfg.risk.percent / 100.0;
    var fees := n as real * cfg.exec.fee;
    Shares(cfg, before);
    KeepShare(before, start * Pow(keep, n), fees, keep);
    assert start * Pow(keep, n) * keep == start * Pow(keep, n + 1);
    assert (n + 1) as real * cfg.exec.fee == fees + cfg.exec.fee;
  }

  lemma {:induction false} BoundedRuinOf(cfg: Config, start: real, trades: seq<Trade>, equity: seq<real>, n: nat)
    requires cfg.Valid() && TradesRisk(cfg, trades) && CurveOf(start, trades, equity) && n < |equity|
    ensures equity[n] >= Floor(cfg, start, n)
  {
    if n > 0 {
      BoundedRuinOf(cfg, start, trades, equity, n - 1);
      assert TradeRisk(cfg, trades[n - 1]);
      FloorStep(cfg, start, n - 1, equity[n - 1], equity[n]);
    }
  }

  /** After n trades the balance is at least start * (1 - r)^n - n * fee, for every n along every run. */
  lemma BoundedRuin(job: Job, rows: seq<Row>, n: nat)
    requires job.cfg.Valid() && job.balance > 0.0 && ValidRows(rows)
    requires n < |RunState(job, rows).equity|
    ensures RunState(job, rows).equity[n] >= Floor(job.cfg, job.balance, n)
  {
    hide RunState, TradesRisk;
    RunLedger(job, rows);
    RunPrudent(job, rows);
    var s := RunState(job, rows);
    BoundedRuinOf(job.cfg, job.balance, s.trades, s.equity, n);
  }

  lemma ClampNeverBindsOn(cfg: Config, t: Trade)
    requires cfg.Valid() && cfg.risk.percent <= 50.0 && TradeRisk(cfg, t) && t.balanceBefore > 0.0
    ensures t.balanceAfter == t.balanceBefore + (t.gross - t.costs) > 0.0
  {
    Shares(cfg, t.balanceBefore);
    hide Config.RiskAmount;
  }

  /** At 50% risk or less the cash limit never binds: every trade books exactly gross minus costs. */
  lemma ClampNeverBinds(job: Job, rows: seq<Row>, k: nat)
    requires job.cfg.Valid() && job.balance > 0.0 && ValidRows(rows) && job.cfg.risk.percent <= 50.0
    requires k < |RunState(job, rows).trades|
    ensures var t := RunState(job, rows).trades[k];
            t.net == t.gross - t.costs && t.balanceAfter > 0.0
  {
    hide RunState, TradeRisk;
    RunLedger(job, rows);
    RunPrudent(job, rows);
    var s := RunState(job, rows);
    assert s.trades[k].net == s.equity[k + 1] - s.equity[k];
    ClampNeverBindsOn(job.cfg, s.trades[k]);
  }
}
