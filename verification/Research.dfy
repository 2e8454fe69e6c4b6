/** A research session end to end: run the backtest, summarise it, keep it for replay. */
module Research {
  import opened Prelude
  import opened Models
  import opened Indicators
  import opened Engine
  import opened Runner
  import opened Runs
  import opened Capital
  import opened Reporting
  import opened Replay
  import opened LiveReplay

  datatype Summary = Summary(endingCapital: real, absolutePnl: real, totalTrades: nat, winning: nat, losing: nat,
                             breakEven: int, grossProfit: real, grossLoss: real, profitFactor: Option<real>,
                             maximumDrawdown: real, drawdownPercent: real, maxWins: nat, maxLosses: nat)

  function Filter(xs: seq<real>, p: real -> bool): seq<real> {
    if xs == [] then [] else if p(Last(xs)) then Filter(Init(xs), p) + [Last(xs)] else Filter(Init(xs), p)
  }

  lemma {:induction false} FilterCounts(xs: seq<real>, p: real -> bool)
    ensures |Filter(xs, p)| == CountIf(xs, p)
    ensures forall x :: x in Filter(xs, p) ==> p(x)
  {
    if xs != [] {
      FilterCounts(Init(xs), p);
    }
  }

  lemma {:induction false} SumSplits(xs: seq<real>)
    ensures Sum(Filter(xs, x => x > 0.0)) + Sum(Filter(xs, x => x < 0.0)) == Sum(xs)
    ensures Sum(Filter(xs, x => x > 0.0)) >= 0.0
    ensures Sum(Filter(xs, x => x < 0.0)) <= 0.0
    ensures Sum(Filter(xs, x => x < 0.0)) == 0.0 <==> Filter(xs, x => x < 0.0) == []
  {
    if xs != [] {
      SumSplits(Init(xs));
      var up, down := Filter(Init(xs), x => x > 0.0), Filter(Init(xs), x => x < 0.0);
      assert Init(up + [Last(xs)]) == up && Init(down + [Last(xs)]) == down;
    }
  }

  /** The figures of build_backtest_result. */
  method BuildResult(startingBalance: real, balance: real, trades: seq<Trade>, equity: seq<real>) returns (r: Summary)
    requires equity != []
    ensures r.endingCapital == balance && r.absolutePnl == balance - startingBalance && r.totalTrades == |trades|
    ensures r.winning == CountIf(Nets(trades), x => x > 0.0) && r.losing == CountIf(Nets(trades), x => x < 0.0)
    ensures r.winning + r.losing + r.breakEven == |trades|
    ensures r.grossProfit - r.grossLoss == Sum(Nets(trades)) && r.grossProfit >= 0.0 && r.grossLoss >= 0.0
    ensures if r.losing > 0 then r.profitFactor.Some? && r.profitFactor.value * r.grossLoss == r.grossProfit
            else r.profitFactor.None?
    ensures IsMaxDrawdown(equity, r.maximumDrawdown) && IsFirstPercent(equity, r.maximumDrawdown, r.drawdownPercent)
    ensures AreStreaks(Nets(trades), r.maxWins, r.maxLosses)
  {
    var pnls := Nets(trades);
    var wins, losses := Filter(pnls, x => x > 0.0), Filter(pnls, x => x < 0.0);
    FilterCounts(pnls, x => x > 0.0);
    FilterCounts(pnls, x => x < 0.0);
    SumSplits(pnls);
    var grossProfit, grossLoss := Sum(wins), Abs(Sum(losses));
    var factor := if grossLoss != 0.0 then Some(grossProfit / grossLoss) else None;
    var maximum, percent := ResultDrawdown(equity);
    var maxWins, maxLosses := ResultStreaks(pnls);
    hide Sum, CountIf, Filter, IsMaxDrawdown, IsFirstPercent, AreStreaks, Nets;
    return Summary(balance, balance - startingBalance, |trades|, |wins|, |losses|, |trades| - |wins| - |losses|,
                   grossProfit, grossLoss, factor, maximum, percent, maxWins, maxLosses);
  }

  lemma RunIsCoherent(job: Job, candles: seq<Candle>, dd: real)
    requires Legal(job, candles)
    ensures Coherent(SessionOf(job, candles, dd))
  {
    hide Frame, RunState, IndexOf, Observations;
    var ix, s := IndexOf(candles), RunState(job, Frame(candles));
    IndexOfIndexes(candles);
    RunShape(job, ix, Frame(candles));
    ShapeIsSequential(job.cfg, ix, job.EvalStart(), s.trades);
    forall k | 0 <= k < |s.trades| ensures s.trades[k].entryTime in ix && s.trades[k].exitTime in ix {
      assert 1 <= At(ix, s.trades[k].entryTime) <= At(ix, s.trades[k].exitTime);
    }
  }

  /**
    Run, summarise and store. The report balances with the ledger: gross profit less gross loss is
    the change in capital, and the engine's own counters agree with the recomputed ones.
  */
  method CreateSession(job: Job, candles: seq<Candle>) returns (r: Result<(Session, Summary)>)
    requires job.cfg.Valid()
    ensures r.Ok? <==> Runnable(job, candles)
    ensures r.Ok? ==>
              var (session, summary) := r.value;
              var s := RunState(job, Frame(candles));
              && session == SessionOf(job, candles, summary.maximumDrawdown) && Coherent(session)
              && session.candles == candles && session.initialCapital == job.balance && session.endingCapital == s.balance
              && session.trades == s.trades && session.decisions == s.decisions && session.maximumDrawdown == summary.maximumDrawdown
              && IsMaxDrawdown(s.equity, summary.maximumDrawdown)
              && summary.grossProfit - summary.grossLoss == summary.absolutePnl == s.balance - job.balance
              && summary.winning == s.wins && summary.losing == s.losses
  {
    hide Frame, RunState, Sum, IsMaxDrawdown, CurveOf, Coherent;
    var run := RunBacktest(job, candles);
    if run.Err? {
      return Err(run.error);
    }
    var (engine, observations) := run.value;
    ghost var s := RunState(job, Frame(candles));
    RunLedger(job, Frame(candles));
    assert engine.Abstract() == s;
    CurveNonempty(job.balance, s);
    var summary := BuildResult(job.balance, engine.balance, engine.trades, engine.equityCurve);
    RunIsCoherent(job, candles, summary.maximumDrawdown);
    var session := Session(candles, job.balance, engine.balance, summary.maximumDrawdown,
                           engine.trades, engine.decisions, observations);
    return Ok((session, summary));
  }

  lemma CurveNonempty(start: real, s: State)
    requires Ledger(start, s)
    ensures s.equity != []
  {
  }
}
