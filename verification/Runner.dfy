/** The candle-by-candle driver (backtesting/backtest.py, run_backtest). */
module Runner {
  import opened Prelude
  import opened Models
  import opened Indicators
  import opened Engine

  const WARMUP: nat := 200

  /** Everything a run depends on besides its candles. */
  datatype Job = Job(cfg: Config, strategy: Strategy, balance: real, start: Option<int>, end: Option<int>)
  {
    function EvalStart(): nat {
      if start.Some? && start.value > WARMUP then start.value else WARMUP
    }

    function EvalEnd(length: nat): int {
      if end.Some? && end.value < length then end.value else length
    }

    predicate Evaluates(i: int, length: nat) {
      EvalStart() <= i < EvalEnd(length)
    }
  }

  function SignalAt(job: Job, rows: seq<Row>, i: nat): Signal
    requires i < |rows|
  {
    job.strategy.signal(rows[..i + 1], job.strategy.regime(rows[..i + 1]))
  }

  /** One iteration of the driver loop. */
  function StepAt(job: Job, s: State, i: nat, rows: seq<Row>): State
    requires i < |rows| && s.PlacedBy(i)
  {
    AfterSignal(job.cfg, AfterCandle(job.cfg, s, i, rows), SignalAt(job, rows, i), i, rows)
  }

  /** Engine state once the driver has handled every candle before n. */
  function Loop(job: Job, rows: seq<Row>, n: nat): (s: State)
    requires n <= |rows|
    ensures s.PlacedBy(n - 1)
  {
    if n <= job.EvalStart() then Initial(job.balance) else StepAt(job, Loop(job, rows, n - 1), n - 1, rows)
  }

  /** Candles handled by a full run: those before the evaluation end, if it is positive at all. */
  function Horizon(job: Job, rows: seq<Row>): (n: nat)
    ensures n <= |rows| && n as int >= job.EvalEnd(|rows|)
  {
    if job.EvalEnd(|rows|) > 0 then job.EvalEnd(|rows|) else 0
  }

  /** Final engine state of a run. */
  function RunState(job: Job, rows: seq<Row>): State {
    Finished(job.cfg, Loop(job, rows, Horizon(job, rows)), job.EvalEnd(|rows|) - 1, rows)
  }

  function ObservationAt(job: Job, rows: seq<Row>, i: nat): Observation
    requires i < |rows|
  {
    var row := rows[i];
    Observation(i, row.candle.time, row.ema50, row.ema200, row.rsi, row.atr,
                if job.Evaluates(i, |rows|) then Some(job.strategy.regime(rows[..i + 1])) else None)
  }

  function Observations(job: Job, rows: seq<Row>): (obs: seq<Observation>)
    ensures |obs| == |rows|
  {
    seq(|rows|, i requires 0 <= i < |rows| => ObservationAt(job, rows, i))
  }

  /** The datasets and capital run_backtest accepts. */
  predicate Runnable(job: Job, candles: seq<Candle>) {
    ValidDataset(candles) && |candles| > WARMUP && job.balance > 0.0
  }

  method CheckChronological(candles: seq<Candle>) returns (ok: bool)
    ensures ok <==> Chronological(candles)
  {
    ok := true;
    for i := 0 to |candles|
      invariant Chronological(candles[..i])
    {
      if i > 0 && candles[i].time <= candles[i - 1].time {
        return false;
      }
      assert i > 0 ==> candles[..i][i - 1] == candles[i - 1];
    }
    assert candles[..|candles|] == candles;
  }

  /** The driver loop over an indicator frame. */
  method Drive(job: Job, rows: seq<Row>) returns (engine: BacktestEngine, observations: seq<Observation>)
    requires job.balance > 0.0
    ensures fresh(engine) && engine.Abstract() == RunState(job, rows)
    ensures observations == Observations(job, rows)
  {
    hide AfterCandle, AfterSignal, Finished;
    observations := seq(|rows|, i requires 0 <= i < |rows| => ObservationAt(job, rows, i).(regime := None));
    engine := new BacktestEngine(job.balance, job.cfg);
    var first, end := job.EvalStart(), job.EvalEnd(|rows|);
    var i: int := first;
    while i < end
      invariant first <= i <= end || i == first > end
      invariant engine.cfg == job.cfg && fresh(engine)
      invariant engine.Abstract() == if i <= end then Loop(job, rows, i) else Initial(job.balance)
      invariant |observations| == |rows|
      invariant forall k :: 0 <= k < |rows| ==>
        observations[k] == if k < i then ObservationAt(job, rows, k) else ObservationAt(job, rows, k).(regime := None)
    {
      engine.ProcessCandle(i, rows);
      var history := rows[..i + 1];
      var regime := job.strategy.regime(history);
      observations := observations[i := observations[i].(regime := Some(regime))];
      engine.QueueSignal(job.strategy.signal(history, regime), i, rows);
      i := i + 1;
    }
    engine.Finish(end - 1, rows);
  }

  /** run_backtest: an engine that went through the whole run, or the first error met. */
  method RunBacktest(job: Job, candles: seq<Candle>) returns (r: Result<(BacktestEngine, seq<Observation>)>)
    ensures r.Ok? <==> Runnable(job, candles)
    ensures r.Ok? ==> fresh(r.value.0)
    ensures r.Ok? ==> r.value.0.Abstract() == RunState(job, Frame(candles))
    ensures r.Ok? ==> r.value.1 == Observations(job, Frame(candles))
  {
    hide RunState, Observations;
    if candles == [] {
      return Err("No fixed historical dataset available");
    }
    var ordered := CheckChronological(candles);
    if !ordered {
      return Err("Historical dataset timestamps must be strictly increasing");
    }
    var rows := Frame(candles);
    if |rows| <= WARMUP {
      return Err("Not enough candles to clear the indicator warmup period");
    }
    if !ValidDataset(candles) {
      return Err("Backtest candle OHLC invariants failed");
    }
    if job.balance <= 0.0 {
      return Err("starting_balance must be positive and finite");
    }
    var engine, observations := Drive(job, rows);
    return Ok((engine, observations));
  }

  // The state after n candles is a function of those n candles.

  lemma StepCausal(job: Job, s: State, i: nat, rows: seq<Row>, m: nat)
    requires i < m <= |rows| && s.PlacedBy(i)
    ensures StepAt(job, s, i, rows) == StepAt(job, s, i, rows[..m])
  {
    assert rows[..m][..i + 1] == rows[..i + 1];
  }

  lemma {:induction false} LoopCausal(job: Job, rows: seq<Row>, n: nat, m: nat)
    requires n <= m <= |rows|
    ensures Loop(job, rows, n) == Loop(job, rows[..m], n)
  {
    hide StepAt;
    if n > job.EvalStart() {
      LoopCausal(job, rows, n - 1, m);
      StepCausal(job, Loop(job, rows, n - 1), n - 1, rows, m);
    }
  }
}
