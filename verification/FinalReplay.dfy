/** Replay across cursors: the balance curve grows, ends at the result, and refines the equity curve. */
module FinalReplay {
  import opened Prelude
  import opened Models
  import opened Indicators
  import opened Engine
  import opened Runner
  import opened Runs
  import opened Capital
  import opened Reporting
  import opened Replay
  import opened Hindsight
  import opened LiveReplay

  /** Balance known after each of the first n candles. */
  function KnownBalances(job: Job, rows: seq<Row>, n: nat): (b: seq<real>)
    requires n <= |rows|
    ensures |b| == n
  {
    seq(n, i requires 0 <= i < n => Known(job, rows, i + 1).balance)
  }

  lemma CurveIsKnown(job: Job, candles: seq<Candle>, dd: real, cursor: nat)
    requires Legal(job, candles) && cursor < |candles|
    ensures ReplayOf(SessionOf(job, candles, dd), cursor).curve ==
            CurveFrom(candles, job.balance, KnownBalances(job, Frame(candles), cursor + 1))
  {
    hide Frame, RunState, Known, ExitBalances, CarriedBalance, CurveFrom, TradeViews, UpTo;
    var rows := Frame(candles);
    var exits := ExitBalances(IndexOf(candles), RunState(job, rows).trades, cursor);
    forall i | 0 <= i <= cursor ensures CarriedBalance(job.balance, exits, i) == Known(job, rows, i + 1).balance {
      BalanceSeen(job, candles, cursor, i);
    }
    assert Carried(job.balance, exits, cursor + 1) == KnownBalances(job, rows, cursor + 1);
  }

  lemma CurveOfPrefix(candles: seq<Candle>, initial: real, balances: seq<real>, n: nat)
    requires n <= |balances| <= |candles|
    ensures CurveFrom(candles, initial, balances[..n]) == CurveFrom(candles, initial, balances)[..n]
  {
    var part := balances[..n];
    forall i | 0 <= i < n ensures PointAt(candles, initial, part, i) == PointAt(candles, initial, balances, i) {
      PeakExtends([initial] + part, [initial] + balances, i + 1);
    }
  }

  /** Moving the cursor one candle forward only appends to the balance curve. */
  lemma CurveGrows(job: Job, candles: seq<Candle>, dd: real, cursor: nat)
    requires Legal(job, candles) && cursor + 1 < |candles|
    ensures var session := SessionOf(job, candles, dd);
            ReplayOf(session, cursor).curve == ReplayOf(session, cursor + 1).curve[..cursor + 1]
  {
    hide ReplayOf, SessionOf, CurveFrom, Known, Frame;
    CurveIsKnown(job, candles, dd, cursor);
    CurveIsKnown(job, candles, dd, cursor + 1);
    var more := KnownBalances(job, Frame(candles), cursor + 2);
    assert KnownBalances(job, Frame(candles), cursor + 1) == more[..cursor + 1];
    CurveOfPrefix(candles, job.balance, more, cursor + 1);
  }

  // ---------------------------------------------------------------- stuttering

  /** c walks through e from first to last, repeating values but never skipping or going back. */
  ghost predicate Stutters(c: seq<real>, e: seq<real>, f: seq<int>) {
    && |f| == |c| > 0 && f[0] == 0 && f[|f| - 1] == |e| - 1
    && (forall i :: 0 <= i < |f| ==> 0 <= f[i] < |e| && c[i] == e[f[i]])
    && (forall i :: 0 <= i < |f| - 1 ==> f[i] <= f[i + 1] <= f[i] + 1)
  }

  lemma {:induction false} StutterMonotone(c: seq<real>, e: seq<real>, f: seq<int>, i: nat, j: nat)
    requires Stutters(c, e, f) && i <= j < |f|
    ensures f[i] <= f[j]
    decreases j
  {
    if i < j {
      StutterMonotone(c, e, f, i, j - 1);
      assert f[j - 1] <= f[j - 1 + 1];
    }
  }

  lemma {:induction false} StutterReaches(c: seq<real>, e: seq<real>, f: seq<int>, j: nat, a: int) returns (i: nat)
    requires Stutters(c, e, f) && j < |f| && 0 <= a <= f[j]
    ensures i <= j && f[i] == a
    decreases j
  {
    if f[j] == a {
      i := j;
    } else {
      assert f[j - 1] <= f[j - 1 + 1] <= f[j - 1] + 1;
      i := StutterReaches(c, e, f, j - 1, a);
    }
  }

  lemma StutterKeepsDrawdown(c: seq<real>, e: seq<real>, f: seq<int>, d: real)
    requires Stutters(c, e, f) && IsMaxDrawdown(e, d)
    ensures IsMaxDrawdown(c, d)
  {
    forall i, j | 0 <= i <= j < |c| ensures c[i] - c[j] <= d {
      StutterMonotone(c, e, f, i, j);
      assert e[f[i]] - e[f[j]] <= d;
    }
    var a, b :| 0 <= a <= b < |e| && e[a] - e[b] == d;
    var j := StutterReaches(c, e, f, |f| - 1, b);
    var i := StutterReaches(c, e, f, j, a);
    assert c[i] - c[j] == d;
  }

  /** The maximum drawdown is the largest running drawdown, and already reached after the first value. */
  lemma DrawdownIsReached(c: seq<real>, d: real)
    requires IsMaxDrawdown(c, d) && |c| > 1
    ensures forall j :: 0 <= j < |c| ==> DrawdownAt(c, j) <= d
    ensures exists j :: 1 <= j < |c| && DrawdownAt(c, j) == d
  {
    forall j | 0 <= j < |c| ensures DrawdownAt(c, j) <= d {
      PeakIsHighest(c, j);
      var i :| 0 <= i <= j && c[i] == Peak(c, j);
      assert c[i] - c[j] <= d;
    }
    var a, b :| 0 <= a <= b < |c| && c[a] - c[b] == d;
    var j := if b == 0 then 1 else b;
    PeakIsHighest(c, j);
    assert c[if b == 0 then j else a] <= Peak(c, j);
    assert DrawdownAt(c, j) == d;
  }

  // ---------------------------------------------------------------- refinement of the equity curve

  lemma SplitStep(ix: TimeIndex, trades: seq<Trade>, i: int, k: nat, l: nat)
    requires Sequential(ix, trades) && SplitAt(ix, trades, i, k) && SplitAt(ix, trades, i + 1, l)
    ensures k <= l <= k + 1
  {
    assert l < |trades| ==> At(ix, trades[l].exitTime) > i + 1;
    assert l >= 2 ==> At(ix, trades[l - 2].exitTime) < At(ix, trades[l - 1].exitTime) <= i + 1;
  }

  lemma SplitFirst(ix: TimeIndex, trades: seq<Trade>, k: nat)
    requires Sequential(ix, trades) && SplitAt(ix, trades, 0, k)
    ensures k == 0
  {
    assert trades != [] ==> 1 <= At(ix, trades[0].exitTime);
  }

  /** How many trades are closed once candle i is over, and what the balance then is. */
  lemma KnownSplit(job: Job, candles: seq<Candle>, i: nat)
    requires Legal(job, candles) && i < |candles|
    ensures var rows, ix := Frame(candles), IndexOf(candles);
            var s, t := Known(job, rows, i + 1), RunState(job, rows);
            && SplitAt(ix, t.trades, i, |s.trades|)
            && |s.trades| < |t.equity| && s.balance == t.equity[|s.trades|]
  {
    hide Frame, RunState, Known, Ledger, TradesShape;
    var rows, ix := Frame(candles), IndexOf(candles);
    IndexOfIndexes(candles);
    KnownExtends(job, ix, rows, i + 1);
    RunLedger(job, rows);
    var s, t := Known(job, rows, i + 1), RunState(job, rows);
    LedgerBalance(job.balance, s);
    LedgerAt(job.balance, t, |s.trades|);
    assert |s.trades| > 0 ==> t.trades[|s.trades| - 1] == s.trades[|s.trades| - 1];
  }

  lemma LedgerAt(start: real, s: State, k: nat)
    requires Ledger(start, s) && k <= |s.trades|
    ensures k < |s.equity| && s.equity[k] == BalanceAfter(start, s.trades, k)
  {
    assert k > 0 ==> s.trades[k - 1].balanceAfter == s.equity[k - 1 + 1];
  }

  /** Number of trades already closed, before the first candle and after each candle. */
  ghost function ClosedCounts(job: Job, rows: seq<Row>): (f: seq<int>)
    ensures |f| == |rows| + 1
  {
    [0] + seq(|rows|, i requires 0 <= i < |rows| => |Known(job, rows, i + 1).trades|)
  }

  lemma CurveStutters(job: Job, candles: seq<Candle>)
    requires Legal(job, candles)
    ensures var rows := Frame(candles);
            Stutters([job.balance] + KnownBalances(job, rows, |candles|), RunState(job, rows).equity, ClosedCounts(job, rows))
  {
    hide Frame, RunState, LiveState, Ledger, TradesShape, SplitAt, Sequential;
    var rows, ix := Frame(candles), IndexOf(candles);
    var t := RunState(job, rows);
    var c, f := [job.balance] + KnownBalances(job, rows, |candles|), ClosedCounts(job, rows);
    RunLedger(job, rows);
    LedgerAt(job.balance, t, 0);
    LedgerAt(job.balance, t, |t.trades|);
    IndexOfIndexes(candles);
    RunShape(job, ix, rows);
    ShapeIsSequential(job.cfg, ix, job.EvalStart(), t.trades);
    forall i | 0 <= i < |f| ensures 0 <= f[i] < |t.equity| && c[i] == t.equity[f[i]] {
      if i > 0 {
        KnownSplit(job, candles, i - 1);
      }
    }
    forall i | 0 <= i < |f| - 1 ensures f[i] <= f[i + 1] <= f[i] + 1 {
      KnownSplit(job, candles, i);
      if i == 0 {
        SplitFirst(ix, t.trades, f[1]);
      } else {
        KnownSplit(job, candles, i - 1);
        SplitStep(ix, t.trades, i - 1, f[i], f[i + 1]);
      }
    }
    assert Known(job, rows, |rows|) == t;
    EquityLength(job.balance, t);
  }

  lemma EquityLength(start: real, s: State)
    requires Ledger(start, s)
    ensures |s.equity| == |s.trades| + 1
  {
  }

  lemma PointDrawdown(candles: seq<Candle>, initial: real, balances: seq<real>, i: nat)
    requires i < |balances| <= |candles|
    ensures CurveFrom(candles, initial, balances)[i].drawdown == DrawdownAt([initial] + balances, i + 1)
    ensures CurveFrom(candles, initial, balances)[i].balance == balances[i]
  {
  }

  /** At the last candle the replayed curve ends at the ending capital and its worst drawdown is the result's. */
  lemma FinalCurveMatchesResult(job: Job, candles: seq<Candle>, dd: real)
    requires Legal(job, candles) && IsMaxDrawdown(RunState(job, Frame(candles)).equity, dd)
    ensures var session := SessionOf(job, candles, dd);
            var view := ReplayOf(session, |candles| - 1);
            && view.metrics == Some(Metrics(session.endingCapital, dd)) && |view.curve| == |candles|
            && Last(view.curve).balance == session.endingCapital
            && (forall i :: 0 <= i < |view.curve| ==> view.curve[i].drawdown <= dd)
            && (exists i :: 0 <= i < |view.curve| && view.curve[i].drawdown == dd)
  {
    hide Frame, RunState, LiveState, CurveFrom, IsMaxDrawdown, TradeViews, UpTo, ExitBalances, CarriedBalance, DrawdownAt;
    var rows, n := Frame(candles), |candles|;
    CurveIsKnown(job, candles, dd, n - 1);
    var balances := KnownBalances(job, rows, n);
    CurveStutters(job, candles);
    var c := [job.balance] + balances;
    StutterKeepsDrawdown(c, RunState(job, rows).equity, ClosedCounts(job, rows), dd);
    DrawdownIsReached(c, dd);
    var curve := CurveFrom(candles, job.balance, balances);
    forall i | 0 <= i < n
      ensures curve[i].drawdown == DrawdownAt(c, i + 1) && curve[i].balance == balances[i]
    {
      PointDrawdown(candles, job.balance, balances, i);
    }
    var j :| 1 <= j < |c| && DrawdownAt(c, j) == dd;
    assert curve[j - 1].drawdown == dd;
    assert Known(job, rows, n) == RunState(job, rows);
  }

  // ---------------------------------------------------------------- cutting a run short

  function CutAt(job: Job, e: int): Job {
    job.(end := Some(e))
  }

  lemma {:induction false} LoopIgnoresEnd(job: Job, e: int, rows: seq<Row>, n: nat)
    requires n <= |rows|
    ensures Loop(CutAt(job, e), rows, n) == Loop(job, rows, n)
  {
    hide StepAt;
    if n > job.EvalStart() {
      LoopIgnoresEnd(job, e, rows, n - 1);
      StepIgnoresEnd(job, e, Loop(job, rows, n - 1), n - 1, rows);
    }
  }

  lemma StepIgnoresEnd(job: Job, e: int, s: State, i: nat, rows: seq<Row>)
    requires i < |rows| && s.PlacedBy(i)
    ensures StepAt(CutAt(job, e), s, i, rows) == StepAt(job, s, i, rows)
  {
    hide AfterCandle, AfterSignal;
  }

  /** The first k trades of the long run are those that exited before e; the short run keeps them. */
  predicate IsCut(ix: TimeIndex, e: int, short: seq<Trade>, long: seq<Trade>, k: nat) {
    && SplitAt(ix, long, e - 1, k) && k <= |short| <= k + 1 && short[..k] == long[..k]
    && (|short| == k + 1 ==> short[k].reason == EndOfData && At(ix, short[k].exitTime) == e - 1)
  }

  /**
    Cutting a run at e keeps exactly the longer run's trades that exited before e, in order, and
    adds at most one more, an end-of-data exit on candle e - 1.
  */
  lemma CutRun(job: Job, candles: seq<Candle>, e: nat)
    requires Legal(job, candles) && 0 < e < Horizon(job, Frame(candles))
    ensures var rows, ix := Frame(candles), IndexOf(candles);
            exists k :: IsCut(ix, e, RunState(CutAt(job, e), rows).trades, RunState(job, rows).trades, k)
  {
    hide Frame, Loop, TradesShape, Extends;
    var rows, ix := Frame(candles), IndexOf(candles);
    IndexOfIndexes(candles);
    LoopIgnoresEnd(job, e, rows, e);
    LoopShape(job, ix, rows, e);
    RunExtends(job, ix, rows, e);
    var s := Loop(job, rows, e);
    var short, long := RunState(CutAt(job, e), rows).trades, RunState(job, rows).trades;
    CutSplit(ix, e, s, RunState(job, rows));
    FinishedAdds(job.cfg, s, e - 1, rows);
    assert IsCut(ix, e, short, long, |s.trades|);
  }

  lemma CutSplit(ix: TimeIndex, e: nat, s: State, t: State)
    requires Extends(ix, e, s, t) && ClosedBefore(ix, s.trades, e)
    ensures SplitAt(ix, t.trades, e - 1, |s.trades|) && t.trades[..|s.trades|] == s.trades
  {
  }

  lemma FinishedAdds(cfg: Config, s: State, last: nat, rows: seq<Row>)
    requires last < |rows| && s.PlacedBy(last)
    ensures var r := Finished(cfg, s, last, rows).trades;
            && r[..|s.trades|] == s.trades && |r| == |s.trades| + (if s.position.Some? then 1 else 0)
            && (s.position.Some? ==> Last(r).reason == EndOfData && Last(r).exitTime == rows[last].candle.time)
  {
    hide GrossOf;
  }
}
