/**
  Replaying a finished run shows exactly what an engine fed only the candles up to the cursor
  knows: nothing of the future leaks, and nothing known is missing.
*/
module Hindsight {
  import opened Models
  import opened Engine
  import opened Runner
  import opened Runs
  import opened Capital

  /** State of an engine that has been fed exactly these rows and may yet be fed more. */
  function LiveState(job: Job, rows: seq<Row>): (s: State)
    ensures s.PlacedBy(|rows| - 1)
  {
    if job.end.Some? && job.end.value <= |rows| then RunState(job, rows) else Loop(job, rows, |rows|)
  }

  /** State known once candle n - 1 is over: live before the last candle, final at it. */
  function Known(job: Job, rows: seq<Row>, n: nat): State
    requires n <= |rows|
  {
    if n == |rows| then RunState(job, rows) else LiveState(job, rows[..n])
  }

  // ---------------------------------------------------------------- how a run extends what is known

  /** The trade realises this position. */
  predicate Records(ix: TimeIndex, p: Position, t: Trade) {
    && t.direction == p.direction && At(ix, t.entryTime) == p.entryIndex && t.entryPrice == p.entryPrice
    && t.stop == p.stop && t.target == p.target && t.quantity == p.quantity && t.balanceBefore == p.balanceBefore
  }

  predicate DecidedFrom(decisions: seq<Decision>, from: nat, n: int) {
    forall k :: from <= k < |decisions| ==> decisions[k].index >= n
  }

  predicate DecidedBefore(decisions: seq<Decision>, n: int) {
    forall k :: 0 <= k < |decisions| ==> decisions[k].index < n
  }

  /**
    t continues s beyond candle n - 1: it keeps the trades and decisions of s, closes the open
    position of s first and no earlier than n, and everything else it adds starts at n or later.
  */
  predicate Extends(ix: TimeIndex, n: int, s: State, t: State) {
    && s.trades <= t.trades && s.decisions <= t.decisions
    && DecidedFrom(t.decisions, |s.decisions|, n)
    && (forall k :: |s.trades| <= k < |t.trades| ==> At(ix, t.trades[k].exitTime) >= n)
    && (forall k :: |s.trades| + (if s.position.Some? then 1 else 0) <= k < |t.trades| ==> At(ix, t.trades[k].entryTime) >= n)
    && (s.position.Some? && |t.trades| > |s.trades| ==> Records(ix, s.position.value, t.trades[|s.trades|]))
    && (s.position.Some? && |t.trades| == |s.trades| ==> t.position == s.position)
    && (t.position.Some? && (|t.trades| > |s.trades| || s.position.None?) ==> t.position.value.entryIndex >= n)
  }

  lemma OpenedExtends(cfg: Config, ix: TimeIndex, n: nat, s: State, t: State, m: nat, rows: seq<Row>)
    requires n <= m < |rows| && t.PlacedBy(m) && Extends(ix, n, s, t)
    ensures Extends(ix, n, s, Opened(cfg, t, m, rows))
  {
    hide Sizing.Authorize;
  }

  lemma ClosedExtends(cfg: Config, ix: TimeIndex, n: nat, s: State, t: State, m: nat, exitPrice: real, reason: ExitReason, rows: seq<Row>)
    requires Indexes(ix, rows) && n <= m < |rows| && t.position.Some? && t.PlacedBy(m) && Extends(ix, n, s, t)
    ensures Extends(ix, n, s, Closed(cfg, t, m, exitPrice, reason, rows))
  {
    hide GrossOf;
  }

  lemma CandleExtends(cfg: Config, ix: TimeIndex, n: nat, s: State, t: State, m: nat, rows: seq<Row>)
    requires Indexes(ix, rows) && n <= m < |rows| && t.PlacedBy(m) && Extends(ix, n, s, t)
    ensures Extends(ix, n, s, AfterCandle(cfg, t, m, rows))
  {
    hide Entered, Closed, Extends;
    OpenedExtends(cfg, ix, n, s, t, m, rows);
    var o := Opened(cfg, t, m, rows);
    if o.position.Some? {
      var p := o.position.value;
      ClosedExtends(cfg, ix, n, s, o, m, p.stop, StopLoss, rows);
      ClosedExtends(cfg, ix, n, s, o, m, p.target, TakeProfit, rows);
      ClosedExtends(cfg, ix, n, s, o, m, rows[m].candle.close, Timeout, rows);
    }
  }

  lemma SignalExtends(cfg: Config, ix: TimeIndex, n: nat, s: State, t: State, signal: Signal, m: nat, rows: seq<Row>)
    requires n <= m < |rows| && t.PlacedBy(m) && Extends(ix, n, s, t)
    ensures Extends(ix, n, s, AfterSignal(cfg, t, signal, m, rows))
  {
    hide Verdict;
  }

  lemma ExtendsItself(ix: TimeIndex, n: int, s: State)
    ensures Extends(ix, n, s, s)
  {
  }

  lemma {:induction false} LoopExtends(job: Job, ix: TimeIndex, rows: seq<Row>, n: nat, m: nat)
    requires Indexes(ix, rows) && n <= m <= |rows|
    ensures Extends(ix, n, Loop(job, rows, n), Loop(job, rows, m))
  {
    hide AfterCandle, AfterSignal, Extends;
    var s := Loop(job, rows, n);
    ExtendsItself(ix, n, s);
    if n < m && job.EvalStart() < m {
      LoopExtends(job, ix, rows, n, m - 1);
      var t := Loop(job, rows, m - 1);
      CandleExtends(job.cfg, ix, n, s, t, m - 1, rows);
      SignalExtends(job.cfg, ix, n, s, AfterCandle(job.cfg, t, m - 1, rows), SignalAt(job, rows, m - 1), m - 1, rows);
    }
  }

  lemma RunExtends(job: Job, ix: TimeIndex, rows: seq<Row>, n: nat)
    requires Indexes(ix, rows) && n < Horizon(job, rows)
    ensures Extends(ix, n, Loop(job, rows, n), RunState(job, rows))
  {
    var m := Horizon(job, rows);
    LoopExtends(job, ix, rows, n, m);
    var s, t := Loop(job, rows, n), Loop(job, rows, m);
    hide Loop, Closed;
    if t.position.Some? {
      ClosedExtends(job.cfg, ix, n, s, t, m - 1, rows[m - 1].candle.close, EndOfData, rows);
    }
  }

  lemma {:induction false} LoopDecisions(job: Job, rows: seq<Row>, n: nat)
    requires n <= |rows|
    ensures DecidedBefore(Loop(job, rows, n).decisions, n)
  {
    hide AfterSignal, Evaluated, Opened;
    if n > job.EvalStart() {
      LoopDecisions(job, rows, n - 1);
      StepDecisions(job, Loop(job, rows, n - 1), n - 1, rows);
    }
  }

  lemma StepDecisions(job: Job, s: State, i: nat, rows: seq<Row>)
    requires i < |rows| && s.PlacedBy(i) && DecidedBefore(s.decisions, i)
    ensures DecidedBefore(StepAt(job, s, i, rows).decisions, i + 1)
  {
    hide Sizing.Authorize, GrossOf, Verdict;
  }

  // ---------------------------------------------------------------- the known state depends on the past only

  lemma FinishedCausal(cfg: Config, s: State, last: int, rows: seq<Row>, n: nat)
    requires last < n <= |rows| && s.PlacedBy(last) && (s.position.Some? ==> last >= 0)
    ensures Finished(cfg, s, last, rows) == Finished(cfg, s, last, rows[..n])
  {
    hide GrossOf;
  }

  lemma RunCausal(job: Job, rows: seq<Row>, n: nat)
    requires n <= |rows| && job.end.Some? && job.end.value <= n
    ensures RunState(job, rows) == RunState(job, rows[..n])
  {
    hide Loop, Finished;
    var h := Horizon(job, rows);
    LoopCausal(job, rows, h, n);
    if h > 0 {
      FinishedCausal(job.cfg, Loop(job, rows, h), h - 1, rows, n);
    } else {
      RunWithoutCandles(job, rows);
      RunWithoutCandles(job, rows[..n]);
    }
  }

  lemma RunWithoutCandles(job: Job, rows: seq<Row>)
    requires Horizon(job, rows) == 0
    ensures RunState(job, rows) == Initial(job.balance)
  {
  }

  lemma LiveIsLoop(job: Job, rows: seq<Row>, n: nat)
    requires n < |rows|
    ensures LiveState(job, rows[..n]) ==
            if Horizon(job, rows) <= n then RunState(job, rows) else Loop(job, rows, n)
  {
    if job.end.Some? && job.end.value <= n {
      RunCausal(job, rows, n);
    } else {
      LoopCausal(job, rows, n, n);
    }
    hide Loop, RunState;
  }

  /** What is known at n is a well-formed state over the candles before n, and the run extends it. */
  lemma KnownExtends(job: Job, ix: TimeIndex, rows: seq<Row>, n: nat)
    requires job.cfg.Valid() && job.balance > 0.0 && Indexes(ix, rows) && n <= |rows|
    ensures var s := Known(job, rows, n);
            && Extends(ix, n, s, RunState(job, rows))
            && TradesShape(job.cfg, ix, job.EvalStart(), s.trades) && ClosedBefore(ix, s.trades, n)
            && DecidedBefore(s.decisions, n) && Ledger(job.balance, s)
            && (s.position.Some? ==> s.position.value.entryIndex < n)
  {
    var h := Horizon(job, rows);
    hide Loop, Extends, TradesShape, Ledger;
    if n < |rows| {
      LiveIsLoop(job, rows, n);
    }
    if h <= n {
      RunShape(job, ix, rows);
      RunLedger(job, rows);
      LoopDecisions(job, rows, h);
      ExtendsItself(ix, n, RunState(job, rows));
    } else {
      LoopShape(job, ix, rows, n);
      LoopLedger(job, rows, n);
      LoopDecisions(job, rows, n);
      RunExtends(job, ix, rows, n);
    }
  }
}
