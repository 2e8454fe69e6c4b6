/** What every canonical run keeps: the use of its two slots and where its trades lie. */
module Runs {
  import opened Prelude
  import opened Models
  import opened Engine
  import opened Sizing
  import opened Runner

  /** Position of each timestamp in the dataset: the dictionary replay builds. */
  type TimeIndex = map<int, nat>

  ghost predicate Indexes(ix: TimeIndex, rows: seq<Row>) {
    forall i :: 0 <= i < |rows| ==> rows[i].candle.time in ix && ix[rows[i].candle.time] == i
  }

  function At(ix: TimeIndex, time: int): int {
    if time in ix then ix[time] else -1
  }

  // ---------------------------------------------------------------- shape

  /** A trade enters one candle after its signal and is held for 1 to maxHolding candles. */
  predicate TradeShape(cfg: Config, ix: TimeIndex, start: nat, t: Trade) {
    && start <= At(ix, t.signalTime)
    && At(ix, t.entryTime) == At(ix, t.signalTime) + 1
    && t.holding == At(ix, t.exitTime) - At(ix, t.entryTime) + 1
    && 1 <= t.holding <= cfg.exec.maxHolding
  }

  /** Trades are numbered from 1 and each is signalled no earlier than every earlier exit. */
  predicate TradesShape(cfg: Config, ix: TimeIndex, start: nat, trades: seq<Trade>) {
    && (forall k :: 0 <= k < |trades| ==> trades[k].id == k + 1 && TradeShape(cfg, ix, start, trades[k]))
    && (forall j, k :: 0 <= j < k < |trades| ==> At(ix, trades[j].exitTime) <= At(ix, trades[k].signalTime))
  }

  predicate ClosedBefore(ix: TimeIndex, trades: seq<Trade>, n: int) {
    forall k :: 0 <= k < |trades| ==> At(ix, trades[k].exitTime) < n
  }

  /** State of the two slots once every candle before n is handled. */
  predicate SlotsShape(cfg: Config, ix: TimeIndex, start: nat, n: int, s: State) {
    && (s.pending.Some? ==> s.position.None? && start <= s.pending.value.signalIndex == n - 1)
    && (s.position.Some? ==>
          var p := s.position.value;
          && start <= p.signalIndex && p.entryIndex == p.signalIndex + 1 <= n - 1
          && n - p.entryIndex < cfg.exec.maxHolding
          && ClosedBefore(ix, s.trades, p.signalIndex + 1))
  }

  predicate Shape(cfg: Config, ix: TimeIndex, start: nat, n: int, s: State) {
    TradesShape(cfg, ix, start, s.trades) && ClosedBefore(ix, s.trades, n) && SlotsShape(cfg, ix, start, n, s)
  }

  /** Between the entry and the exit half of process_candle on candle n. */
  predicate OpenShape(cfg: Config, ix: TimeIndex, start: nat, n: int, s: State) {
    && TradesShape(cfg, ix, start, s.trades) && ClosedBefore(ix, s.trades, n) && s.pending.None?
    && (s.position.Some? ==>
          var p := s.position.value;
          && start <= p.signalIndex && p.entryIndex == p.signalIndex + 1 <= n
          && n - p.entryIndex < cfg.exec.maxHolding
          && ClosedBefore(ix, s.trades, p.signalIndex + 1))
  }

  lemma OpenedShape(cfg: Config, ix: TimeIndex, start: nat, s: State, n: nat, rows: seq<Row>)
    requires cfg.Valid() && n < |rows| && s.PlacedBy(n) && Shape(cfg, ix, start, n, s)
    ensures OpenShape(cfg, ix, start, n, Opened(cfg, s, n, rows))
  {
    hide Authorize;
  }

  lemma ClosedShape(cfg: Config, ix: TimeIndex, start: nat, s: State, n: nat, exitPrice: real, reason: ExitReason, rows: seq<Row>)
    requires Indexes(ix, rows) && n < |rows| && s.position.Some? && s.PlacedBy(n)
    requires OpenShape(cfg, ix, start, n, s)
    ensures var r := Closed(cfg, s, n, exitPrice, reason, rows);
            Shape(cfg, ix, start, n + 1, r) && r.pending.None? && r.position.None?
  {
  }

  lemma AfterCandleShape(cfg: Config, ix: TimeIndex, start: nat, s: State, n: nat, rows: seq<Row>)
    requires cfg.Valid() && Indexes(ix, rows) && n < |rows| && s.PlacedBy(n) && Shape(cfg, ix, start, n, s)
    ensures Shape(cfg, ix, start, n + 1, AfterCandle(cfg, s, n, rows))
    ensures AfterCandle(cfg, s, n, rows).pending.None?
  {
    hide Entered, Closed, TradesShape;
    OpenedShape(cfg, ix, start, s, n, rows);
    var m := Opened(cfg, s, n, rows);
    if m.position.Some? {
      var p, c := m.position.value, rows[n].candle;
      if StopHit(p, c) {
        ClosedShape(cfg, ix, start, m, n, p.stop, StopLoss, rows);
      } else if TargetHit(p, c) {
        ClosedShape(cfg, ix, start, m, n, p.target, TakeProfit, rows);
      } else if n - p.entryIndex + 1 >= cfg.exec.maxHolding {
        ClosedShape(cfg, ix, start, m, n, c.close, Timeout, rows);
      }
    }
  }

  lemma AfterSignalShape(cfg: Config, ix: TimeIndex, start: nat, s: State, signal: Signal, n: nat, rows: seq<Row>)
    requires start <= n < |rows| && s.PlacedBy(n) && Shape(cfg, ix, start, n + 1, s) && s.pending.None?
    ensures Shape(cfg, ix, start, n + 1, AfterSignal(cfg, s, signal, n, rows))
  {
    hide TradesShape;
  }

  lemma {:induction false} LoopShape(job: Job, ix: TimeIndex, rows: seq<Row>, n: nat)
    requires job.cfg.Valid() && Indexes(ix, rows) && n <= |rows|
    ensures Shape(job.cfg, ix, job.EvalStart(), n, Loop(job, rows, n))
  {
    hide AfterCandle, AfterSignal;
    if n > job.EvalStart() {
      LoopShape(job, ix, rows, n - 1);
      var s := Loop(job, rows, n - 1);
      AfterCandleShape(job.cfg, ix, job.EvalStart(), s, n - 1, rows);
      AfterSignalShape(job.cfg, ix, job.EvalStart(), AfterCandle(job.cfg, s, n - 1, rows), SignalAt(job, rows, n - 1), n - 1, rows);
    }
  }

  /** The "Entry already pending" rejection is unreachable: no signal is ever queued behind another. */
  lemma NothingPendingWhenSignalArrives(job: Job, ix: TimeIndex, rows: seq<Row>, i: nat)
    requires job.cfg.Valid() && Indexes(ix, rows) && i < |rows|
    ensures AfterCandle(job.cfg, Loop(job, rows, i), i, rows).pending.None?
  {
    hide AfterCandle;
    LoopShape(job, ix, rows, i);
    AfterCandleShape(job.cfg, ix, job.EvalStart(), Loop(job, rows, i), i, rows);
  }

  /** Shape of a whole run, its forced close included. */
  lemma RunShape(job: Job, ix: TimeIndex, rows: seq<Row>)
    requires job.cfg.Valid() && Indexes(ix, rows)
    ensures var s := RunState(job, rows);
            && Shape(job.cfg, ix, job.EvalStart(), Horizon(job, rows), s)
            && s.pending.None? && s.position.None?
  {
    var n := Horizon(job, rows);
    LoopShape(job, ix, rows, n);
    var s := Loop(job, rows, n);
    if s.position.Some? {
      hide TradesShape;
      var closing := s.(pending := None);
      assert OpenShape(job.cfg, ix, job.EvalStart(), n - 1, closing);
      ClosedShape(job.cfg, ix, job.EvalStart(), closing, n - 1, rows[n - 1].candle.close, EndOfData, rows);
    }
  }
}
