/**
  What becomes of every signal: exactly which queued signals open a trade on the next candle, in which
  direction and at which size, and what is recorded about the others. Stated from the data, with signed
  distances.
*/
module Openings {
  import opened Prelude
  import opened Models
  import opened Sizing
  import opened Engine
  import opened Runner
  import opened Runs
  import opened Explanation
  import opened Hindsight

  /** The fill of an entry at this open, worse by the costs. */
  function Fill(cfg: Config, d: Direction, atr: real, open: real): real {
    open + Side(d) * (cfg.exec.spread + cfg.exec.slippage + atr * (cfg.exec.spreadAtr + cfg.exec.slippageAtr))
  }

  /** The stop of an entry filled here. */
  function StopAway(cfg: Config, d: Direction, atr: real, fill: real): real {
    fill - Side(d) * (atr * cfg.exec.stopMultiple)
  }

  /** There is a stop distance, and the balance covers a risk that exceeds the fee. */
  predicate Guarded(cfg: Config, atr: real, balance: real) {
    atr * cfg.exec.stopMultiple > 0.0 && cfg.exec.fee < Share(balance, cfg.risk.percent) <= balance
  }

  function SizeOf(cfg: Config, d: Direction, atr: real, open: real, balance: real): Sizing {
    var fill := Fill(cfg, d, atr, open);
    Authorize(balance, cfg.risk.percent, fill, StopAway(cfg, d, atr, fill))
  }

  /** The signal of candle n, in this direction, is warranted and guarded, and its size authorised. */
  predicate Opens(job: Job, rows: seq<Row>, n: nat, balance: real, d: Direction) {
    && n + 1 < |rows| && Warranted(job, rows, n, d)
    && Guarded(job.cfg, rows[n].atr.value, balance)
    && SizeOf(job.cfg, d, rows[n].atr.value, rows[n + 1].candle.open, balance).Authorized?
  }

  /** The signal is warranted and guarded, but its size is refused. */
  predicate SizeRefused(job: Job, rows: seq<Row>, n: nat, balance: real, d: Direction) {
    && n + 1 < |rows| && Warranted(job, rows, n, d)
    && Guarded(job.cfg, rows[n].atr.value, balance)
    && SizeOf(job.cfg, d, rows[n].atr.value, rows[n + 1].candle.open, balance).Refused?
  }

  /** A trade or the open position of this direction was entered on the candle. */
  ghost predicate EnteredOn(ix: TimeIndex, s: State, index: int, d: Direction) {
    || (s.position.Some? && s.position.value.entryIndex == index && s.position.value.direction == d)
    || TradedOn(ix, s.trades, index, d)
  }

  ghost predicate TradedOn(ix: TimeIndex, trades: seq<Trade>, index: int, d: Direction) {
    exists k :: 0 <= k < |trades| && At(ix, trades[k].entryTime) == index && trades[k].direction == d
  }

  /** On candle n + 1 the size of the signal of candle n was refused: what is recorded. */
  predicate IsRejection(job: Job, rows: seq<Row>, n: nat, balance: real, decision: Decision, d: Direction) {
    && n + 1 < |rows| && rows[n].atr.Some?
    && var history := rows[..n + 1];
       var size := SizeOf(job.cfg, d, rows[n].atr.value, rows[n + 1].candle.open, balance);
    && decision.index == n + 1 && decision.time == rows[n + 1].candle.time
    && decision.state.ExecutionRejected? && decision.signal == Some(d)
    && decision.confidence == job.strategy.signal(history, job.strategy.regime(history)).confidence
    && size.Refused? && decision.reasons == [size.reason]
    && decision.entry.None? && decision.stop.None? && decision.target.None?
  }

  // ---------------------------------------------------------------- one candle

  lemma FillIs(cfg: Config, p: Pending, open: real)
    ensures EntryPrice(cfg, p, open) == Fill(cfg, p.direction, p.atr, open)
    ensures StopPrice(cfg, p, EntryPrice(cfg, p, open)) == StopAway(cfg, p.direction, p.atr, EntryPrice(cfg, p, open))
  {
  }

  /** What the pending order becomes when its candle opens. */
  lemma OrderOpens(cfg: Config, s: State, m: nat, rows: seq<Row>)
    requires m < |rows| && s.PlacedBy(m) && s.position.None? && s.pending.Some? && s.pending.value.signalIndex < m
    ensures var p := s.pending.value;
            var size := SizeOf(cfg, p.direction, p.atr, rows[m].candle.open, s.balance);
            var r := Opened(cfg, s, m, rows);
            && r.trades == s.trades && r.balance == s.balance && r.pending.None?
            && (r.position.Some? <==> Guarded(cfg, p.atr, s.balance) && size.Authorized?)
            && (r.position.Some? ==> r.position.value.entryIndex == m && r.position.value.direction == p.direction)
            && (if Guarded(cfg, p.atr, s.balance) && size.Refused?
                then |r.decisions| == |s.decisions| + 1 && r.decisions[..|s.decisions|] == s.decisions
                     && Last(r.decisions) == Decision(m, rows[m].candle.time, Some(p.direction), p.confidence, ExecutionRejected,
                                                      [size.reason], None, None, None)
                else r.decisions == s.decisions)
  {
    FillIs(cfg, s.pending.value, rows[m].candle.open);
    hide Authorize, EntryPrice, StopPrice, TargetPrice, Fill, StopAway, Share;
  }

  lemma NothingOpens(cfg: Config, s: State, m: nat, rows: seq<Row>)
    requires m < |rows| && s.PlacedBy(m) && s.pending.None?
    ensures Opened(cfg, s, m, rows) == s
  {
  }

  /** Closing or keeping the position on the candle: it is either still open or the one new trade. */
  lemma EvaluatedKeeps(cfg: Config, ix: TimeIndex, s: State, m: nat, rows: seq<Row>)
    requires m < |rows| && s.PlacedBy(m) && Indexes(ix, rows) && s.position.Some?
    ensures var r, p := Evaluated(cfg, s, m, rows), s.position.value;
            && r.decisions == s.decisions
            && (r == s || (|r.trades| == |s.trades| + 1 && r.trades[..|s.trades|] == s.trades && r.position.None?
                           && At(ix, Last(r.trades).entryTime) == p.entryIndex && Last(r.trades).direction == p.direction))
  {
    hide GrossOf;
  }

  /** Every trade closed before the candle was entered before it. */
  predicate AllEarlier(ix: TimeIndex, trades: seq<Trade>, index: int) {
    forall k :: 0 <= k < |trades| ==> At(ix, trades[k].entryTime) < index
  }

  /** After the candle, something is entered on it exactly when its order opened. */
  lemma CandleOpens(cfg: Config, ix: TimeIndex, s: State, m: nat, rows: seq<Row>, d: Direction)
    requires m < |rows| && s.PlacedBy(m) && Indexes(ix, rows) && s.position.None? && AllEarlier(ix, s.trades, m)
    requires s.pending.Some? ==> s.pending.value.signalIndex < m
    ensures EnteredOn(ix, AfterCandle(cfg, s, m, rows), m, d) <==>
            var o := Opened(cfg, s, m, rows); o.position.Some? && o.position.value.direction == d
    ensures AfterCandle(cfg, s, m, rows).decisions == Opened(cfg, s, m, rows).decisions
  {
    hide Indexes, Evaluated, Opened;
    if s.pending.Some? {
      OrderOpens(cfg, s, m, rows);
    } else {
      NothingOpens(cfg, s, m, rows);
    }
    var o := Opened(cfg, s, m, rows);
    if o.position.Some? {
      EvaluatedKeeps(cfg, ix, o, m, rows);
      var r := AfterCandle(cfg, s, m, rows);
      if r != o {
        var k := |s.trades|;
        assert r.trades[k] == Last(r.trades);
        assert forall j :: 0 <= j < k ==> r.trades[j] == s.trades[j];
      }
    }
  }

  // ---------------------------------------------------------------- the run

  /** First candle with a decision, and the first beyond the last: from 200 or the start, to the end or the data's. */
  predicate Decides(job: Job, i: int, length: nat) {
    && 200 <= i < length && (job.start.Some? ==> job.start.value <= i) && (job.end.Some? ==> i < job.end.value)
  }

  lemma DecidesIff(job: Job, i: int, length: nat)
    ensures Decides(job, i, length) <==> job.Evaluates(i, length)
  {
  }

  /** Flat after candle n, a signal waits for the next candle exactly when it is warranted. */
  lemma PendingIff(job: Job, ix: TimeIndex, rows: seq<Row>, n: nat)
    requires job.cfg.Valid() && Indexes(ix, rows) && job.EvalStart() <= n < |rows|
    ensures var s := Loop(job, rows, n + 1);
            && (s.pending.Some? <==> s.position.None? && exists d :: Warranted(job, rows, n, d))
            && (s.pending.Some? ==> s.pending.value.signalIndex == n && s.pending.value.atr == rows[n].atr.value
                                    && s.pending.value.confidence == SignalAt(job, rows, n).confidence
                                    && Warranted(job, rows, n, s.pending.value.direction))
  {
    hide AfterCandle, AfterSignal, Indexes;
    NothingPendingWhenSignalArrives(job, ix, rows, n);
    var c := AfterCandle(job.cfg, Loop(job, rows, n), n, rows);
    QueuedIffWarranted(job, rows, n, c);
  }

  /** A signal has one direction. */
  lemma OneDirection(job: Job, rows: seq<Row>, n: int, d: Direction, e: Direction)
    requires Warranted(job, rows, n, d) && Warranted(job, rows, n, e)
    ensures d == e
  {
  }

  lemma WarrantedHasAtr(job: Job, rows: seq<Row>, n: int, d: Direction)
    requires Warranted(job, rows, n, d)
    ensures rows[n].atr.Some?
  {
  }

  lemma EarlierEntries(job: Job, ix: TimeIndex, rows: seq<Row>, n: nat)
    requires job.cfg.Valid() && Indexes(ix, rows) && n <= |rows|
    ensures AllEarlier(ix, Loop(job, rows, n).trades, n)
  {
    hide Loop;
    LoopShape(job, ix, rows, n);
    var trades := Loop(job, rows, n).trades;
    forall k | 0 <= k < |trades| ensures At(ix, trades[k].entryTime) < n {
      assert TradeShape(job.cfg, ix, job.EvalStart(), trades[k]);
    }
  }

  /** Flat after candle n, the order that opens on the next candle is the warranted, guarded, sized signal of n. */
  lemma OpenedIff(job: Job, ix: TimeIndex, rows: seq<Row>, n: nat, d: Direction)
    requires job.cfg.Valid() && Indexes(ix, rows) && job.EvalStart() <= n && n + 1 < |rows|
    requires Loop(job, rows, n + 1).position.None?
    ensures var s := Loop(job, rows, n + 1);
            var o := Opened(job.cfg, s, n + 1, rows);
            && (o.position.Some? && o.position.value.direction == d <==> Opens(job, rows, n, s.balance, d))
            && (SizeRefused(job, rows, n, s.balance, d) ==>
                  |o.decisions| == |s.decisions| + 1 && o.decisions[..|s.decisions|] == s.decisions
                  && IsRejection(job, rows, n, s.balance, Last(o.decisions), d))
            && ((forall e :: !SizeRefused(job, rows, n, s.balance, e)) ==> o.decisions == s.decisions)
  {
    hide Loop, Indexes, Opened, Guarded, SizeOf, Warranted;
    PendingIff(job, ix, rows, n);
    var s := Loop(job, rows, n + 1);
    if s.pending.Some? {
      var p := s.pending.value;
      WarrantedHasAtr(job, rows, n, p.direction);
      OrderOpens(job.cfg, s, n + 1, rows);
      if Warranted(job, rows, n, d) {
        OneDirection(job, rows, n, d, p.direction);
      }
      assert SizeRefused(job, rows, n, s.balance, p.direction) <==>
             Guarded(job.cfg, p.atr, s.balance) && SizeOf(job.cfg, p.direction, p.atr, rows[n + 1].candle.open, s.balance).Refused?;
    } else {
      NothingOpens(job.cfg, s, n + 1, rows);
    }
  }

  /** While a position is open nothing is entered. */
  lemma NothingEntersWhileOpen(cfg: Config, ix: TimeIndex, s: State, m: nat, rows: seq<Row>, d: Direction)
    requires m < |rows| && s.PlacedBy(m) && Indexes(ix, rows) && s.position.Some? && s.position.value.entryIndex < m
    requires AllEarlier(ix, s.trades, m) && s.pending.None?
    ensures !EnteredOn(ix, AfterCandle(cfg, s, m, rows), m, d)
    ensures AfterCandle(cfg, s, m, rows).decisions == s.decisions
  {
    hide Indexes, Evaluated, Opened;
    NothingOpens(cfg, s, m, rows);
    EvaluatedKeeps(cfg, ix, s, m, rows);
    var r := AfterCandle(cfg, s, m, rows);
    if r != s {
      assert r.trades[|s.trades|] == Last(r.trades);
      assert forall j :: 0 <= j < |s.trades| ==> r.trades[j] == s.trades[j];
    }
  }

  /** Flat after candle n, and the signal of candle n opens. */
  ghost predicate OpensFlat(job: Job, rows: seq<Row>, n: nat, d: Direction)
    requires n < |rows|
  {
    var s := Loop(job, rows, n + 1);
    s.position.None? && Opens(job, rows, n, s.balance, d)
  }

  /**
    A position or trade of a direction is entered on candle n + 1 if and only if the engine is flat after
    candle n, the signal of candle n is warranted in that direction, its stop distance is positive, the
    risk exceeds the fee and fits the balance, and the sizing rule authorises it.
  */
  lemma SignalOpensTrade(job: Job, ix: TimeIndex, rows: seq<Row>, n: nat, d: Direction)
    requires job.cfg.Valid() && Indexes(ix, rows) && job.EvalStart() <= n && n + 1 < |rows|
    ensures EnteredOn(ix, Loop(job, rows, n + 2), n + 1, d) <==> OpensFlat(job, rows, n, d)
  {
    hide AfterCandle, AfterSignal, Indexes, Opened, Opens, SizeRefused;
    var s := Loop(job, rows, n + 1);
    EarlierEntries(job, ix, rows, n + 1);
    PendingIff(job, ix, rows, n);
    PositionEarlier(job, ix, rows, n + 1);
    if s.position.None? {
      OpenedIff(job, ix, rows, n, d);
      CandleOpens(job.cfg, ix, s, n + 1, rows, d);
    } else {
      NothingEntersWhileOpen(job.cfg, ix, s, n + 1, rows, d);
    }
    var c := AfterCandle(job.cfg, s, n + 1, rows);
    SignalKeepsTrades(job.cfg, c, SignalAt(job, rows, n + 1), n + 1, rows);
    assert Loop(job, rows, n + 2) == AfterSignal(job.cfg, c, SignalAt(job, rows, n + 1), n + 1, rows);
  }

  lemma SignalKeepsTrades(cfg: Config, s: State, signal: Signal, n: nat, rows: seq<Row>)
    requires n < |rows| && s.PlacedBy(n)
    ensures var r := AfterSignal(cfg, s, signal, n, rows);
            && r.trades == s.trades && r.position == s.position && r.balance == s.balance
            && |r.decisions| == |s.decisions| + 1 && r.decisions[..|s.decisions|] == s.decisions
  {
    hide Verdict;
  }

  /** What is entered by candle m stays entered, and nothing more is entered on earlier candles. */
  lemma EntriesStay(ix: TimeIndex, m: int, s: State, t: State, d: Direction)
    requires Extends(ix, m + 1, s, t) && t.position.None? && AllEarlier(ix, s.trades, m + 1)
    requires s.position.Some? ==> s.position.value.entryIndex <= m
    ensures TradedOn(ix, t.trades, m, d) <==> EnteredOn(ix, s, m, d)
  {
    var k := |s.trades|;
    if TradedOn(ix, s.trades, m, d) {
      var j :| 0 <= j < k && At(ix, s.trades[j].entryTime) == m && s.trades[j].direction == d;
      assert t.trades[j] == s.trades[j];
    } else if EnteredOn(ix, s, m, d) {
      assert At(ix, t.trades[k].entryTime) == m && t.trades[k].direction == d;
    }
    if TradedOn(ix, t.trades, m, d) {
      var j :| 0 <= j < |t.trades| && At(ix, t.trades[j].entryTime) == m && t.trades[j].direction == d;
      if j < k {
        assert s.trades[j] == t.trades[j];
      }
    }
  }

  /** The same over the finished run: exactly these signals become trades. */
  lemma SignalBecomesTrade(job: Job, ix: TimeIndex, rows: seq<Row>, n: nat, d: Direction)
    requires job.cfg.Valid() && Indexes(ix, rows) && job.EvalStart() <= n && n + 1 < Horizon(job, rows)
    ensures TradedOn(ix, RunState(job, rows).trades, n + 1, d) <==> OpensFlat(job, rows, n, d)
  {
    hide Loop, Indexes, OpensFlat, Extends, EnteredOn, TradedOn, Shape;
    SignalOpensTrade(job, ix, rows, n, d);
    var s := Loop(job, rows, n + 2);
    EarlierEntries(job, ix, rows, n + 2);
    RunShape(job, ix, rows);
    PositionEarlier(job, ix, rows, n + 2);
    if n + 2 < Horizon(job, rows) {
      RunExtends(job, ix, rows, n + 2);
      EntriesStay(ix, n + 1, s, RunState(job, rows), d);
    } else {
      ForcedClose(job, ix, rows, n + 1, d);
    }
  }

  lemma PositionEarlier(job: Job, ix: TimeIndex, rows: seq<Row>, n: nat)
    requires job.cfg.Valid() && Indexes(ix, rows) && n <= |rows|
    ensures var s := Loop(job, rows, n); s.position.Some? ==> s.position.value.entryIndex <= n - 1
  {
    hide Loop, TradesShape, ClosedBefore;
    LoopShape(job, ix, rows, n);
  }

  /** On the last candle the open position becomes a trade at once. */
  lemma ForcedClose(job: Job, ix: TimeIndex, rows: seq<Row>, m: nat, d: Direction)
    requires Indexes(ix, rows) && m + 1 == Horizon(job, rows) && m < |rows|
    ensures TradedOn(ix, RunState(job, rows).trades, m, d) <==> EnteredOn(ix, Loop(job, rows, m + 1), m, d)
  {
    hide GrossOf, Loop;
    var s := Loop(job, rows, m + 1);
    var t := RunState(job, rows).trades;
    if s.position.Some? {
      var p, k := s.position.value, |s.trades|;
      assert t[k].direction == p.direction && At(ix, t[k].entryTime) == p.entryIndex;
      assert forall j :: 0 <= j < k ==> t[j] == s.trades[j];
    }
  }

  // ---------------------------------------------------------------- decisions

  /** The decision recorded for the signal of candle i, given whether a position was open. */
  predicate IsAnswer(job: Job, rows: seq<Row>, i: nat, open: bool, decision: Decision) {
    && i < |rows|
    && var history := rows[..i + 1];
       var signal := job.strategy.signal(history, job.strategy.regime(history));
    && decision.index == i && decision.time == rows[i].candle.time
    && decision.signal == signal.direction && decision.confidence == signal.confidence
    && decision.entry == signal.entry && decision.stop == signal.stop && decision.target == signal.target
    && (if open then
          decision.state.RejectedCandidate? && decision.reasons == signal.reasons + ["Position already open"]
        else if signal.direction.None? then
          decision.state.NoTrade? && decision.reasons == signal.reasons
        else if signal.confidence < job.cfg.risk.minConfidence then
          decision.state.RejectedCandidate? && decision.reasons == signal.reasons + ["Confidence below backtest minimum"]
        else if rows[i].atr.None? || rows[i].atr.value <= 0.0 then
          decision.state.InsufficientSetup? && decision.reasons == signal.reasons + ["ATR unavailable"]
        else if rows[i].atr.value < job.cfg.risk.minAtr then
          decision.state.RiskBlocked? && decision.reasons == signal.reasons + ["Low volatility"]
        else
          decision.state.Queued? && decision.reasons == signal.reasons)
  }

  lemma SignalIsAnswered(job: Job, rows: seq<Row>, i: nat, s: State)
    requires job.cfg.Valid() && i < |rows| && s.PlacedBy(i) && s.pending.None?
    ensures IsAnswer(job, rows, i, s.position.Some?, Last(AfterSignal(job.cfg, s, SignalAt(job, rows, i), i, rows).decisions))
  {
  }

  /** The size of the signal of the candle before was refused on this flat candle. */
  ghost predicate RefusedOn(job: Job, rows: seq<Row>, i: nat, d: Direction)
    requires i < |rows|
  {
    && i > job.EvalStart() && Loop(job, rows, i).position.None?
    && SizeRefused(job, rows, i - 1, Loop(job, rows, i).balance, d)
  }

  /** What one candle adds to the decisions: a rejection where the size was refused, then the answer to its signal. */
  ghost predicate Decided(job: Job, rows: seq<Row>, i: nat, before: seq<Decision>, after: seq<Decision>)
    requires i < |rows|
  {
    && before <= after
    && (if exists d :: RefusedOn(job, rows, i, d) then
          |after| == |before| + 2 && exists d :: RefusedOn(job, rows, i, d) && IsRejection(job, rows, i - 1, Loop(job, rows, i).balance, after[|before|], d)
        else |after| == |before| + 1)
    && IsAnswer(job, rows, i, Loop(job, rows, i + 1).position.Some?, Last(after))
  }

  lemma OpeningDecisions(job: Job, ix: TimeIndex, rows: seq<Row>, i: nat)
    requires job.cfg.Valid() && Indexes(ix, rows) && job.EvalStart() <= i < |rows|
    ensures var s := Loop(job, rows, i);
            var c := AfterCandle(job.cfg, s, i, rows);
            && s.decisions <= c.decisions
            && (if exists d :: RefusedOn(job, rows, i, d) then
                  |c.decisions| == |s.decisions| + 1 && exists d :: RefusedOn(job, rows, i, d) && IsRejection(job, rows, i - 1, s.balance, Last(c.decisions), d)
                else c.decisions == s.decisions)
  {
    hide AfterCandle, Indexes, Opened, SizeRefused, IsRejection, Opens;
    var s := Loop(job, rows, i);
    EarlierEntries(job, ix, rows, i);
    PositionEarlier(job, ix, rows, i);
    if i == job.EvalStart() {
      hide RefusedOn;
      NoRefusalAtStart(job, rows, i);
      NothingOpens(job.cfg, s, i, rows);
      CandleOpens(job.cfg, ix, s, i, rows, Buy);
    } else {
      PendingIff(job, ix, rows, i - 1);
      if s.position.None? {
        CandleOpens(job.cfg, ix, s, i, rows, Buy);
        FlatDecisions(job, ix, rows, i);
      } else {
        NothingEntersWhileOpen(job.cfg, ix, s, i, rows, Buy);
      }
    }
  }

  lemma FlatDecisions(job: Job, ix: TimeIndex, rows: seq<Row>, i: nat)
    requires job.cfg.Valid() && Indexes(ix, rows) && job.EvalStart() < i < |rows| && Loop(job, rows, i).position.None?
    ensures var s := Loop(job, rows, i);
            var o := Opened(job.cfg, s, i, rows);
            && s.decisions <= o.decisions
            && (if exists d :: RefusedOn(job, rows, i, d) then
                  |o.decisions| == |s.decisions| + 1 && exists d :: RefusedOn(job, rows, i, d) && IsRejection(job, rows, i - 1, s.balance, Last(o.decisions), d)
                else o.decisions == s.decisions)
  {
    hide Loop, Indexes, Opened, SizeRefused, IsRejection, Opens;
    var n: nat, s := i - 1, Loop(job, rows, i);
    assert n + 1 == i;
    assert forall d :: RefusedOn(job, rows, i, d) <==> SizeRefused(job, rows, n, s.balance, d);
    hide RefusedOn;
    if d :| SizeRefused(job, rows, n, s.balance, d) {
      OpenedIff(job, ix, rows, n, d);
      assert RefusedOn(job, rows, i, d);
    } else {
      OpenedIff(job, ix, rows, n, Buy);
    }
  }

  lemma NoRefusalAtStart(job: Job, rows: seq<Row>, i: nat)
    requires i < |rows| && i <= job.EvalStart()
    ensures forall d :: !RefusedOn(job, rows, i, d)
    ensures Loop(job, rows, i) == Initial(job.balance)
  {
  }

  /** Every candle of the loop adds exactly its decisions. */
  lemma CandleDecides(job: Job, ix: TimeIndex, rows: seq<Row>, i: nat)
    requires job.cfg.Valid() && Indexes(ix, rows) && job.EvalStart() <= i < |rows|
    ensures Decided(job, rows, i, Loop(job, rows, i).decisions, Loop(job, rows, i + 1).decisions)
  {
    hide AfterCandle, AfterSignal, Indexes, RefusedOn, IsRejection, IsAnswer;
    OpeningDecisions(job, ix, rows, i);
    NothingPendingWhenSignalArrives(job, ix, rows, i);
    var c := AfterCandle(job.cfg, Loop(job, rows, i), i, rows);
    SignalIsAnswered(job, rows, i, c);
    SignalKeepsTrades(job.cfg, c, SignalAt(job, rows, i), i, rows);
    var u := Loop(job, rows, i + 1);
    assert u == AfterSignal(job.cfg, c, SignalAt(job, rows, i), i, rows);
    var before := Loop(job, rows, i).decisions;
    hide Loop;
    assert forall k :: 0 <= k < |c.decisions| ==> u.decisions[k] == c.decisions[k];
    assert before <= u.decisions;
  }

  /** The decisions that answer a signal. */
  function Answers(decisions: seq<Decision>): seq<Decision> {
    if decisions == [] then []
    else if Last(decisions).state.ExecutionRejected? then Answers(Init(decisions))
    else Answers(Init(decisions)) + [Last(decisions)]
  }

  ghost predicate AnswersFrom(job: Job, rows: seq<Row>, first: nat, n: nat, answers: seq<Decision>)
    requires n <= |rows|
  {
    && |answers| == (if first < n then n - first else 0)
    && forall k :: 0 <= k < |answers| ==> IsAnswer(job, rows, first + k, Loop(job, rows, first + k + 1).position.Some?, answers[k])
  }

  lemma AnswersStep(job: Job, rows: seq<Row>, i: nat, before: seq<Decision>, after: seq<Decision>)
    requires i < |rows| && Decided(job, rows, i, before, after)
    ensures Answers(after) == Answers(before) + [Last(after)]
  {
    hide RefusedOn, Loop;
    assert !Last(after).state.ExecutionRejected?;
    if |after| == |before| + 1 {
      assert Init(after) == before;
    } else {
      assert Init(Init(after)) == before && Last(Init(after)) == after[|before|];
    }
  }

  lemma {:induction false} LoopAnswers(job: Job, ix: TimeIndex, rows: seq<Row>, n: nat)
    requires job.cfg.Valid() && Indexes(ix, rows) && n <= |rows|
    ensures AnswersFrom(job, rows, job.EvalStart(), n, Answers(Loop(job, rows, n).decisions))
  {
    hide Indexes, IsAnswer, Decided, Loop;
    if n <= job.EvalStart() {
      NoDecisionsYet(job, rows, n);
    } else {
      LoopAnswers(job, ix, rows, n - 1);
      CandleDecides(job, ix, rows, n - 1);
      AnswersStep(job, rows, n - 1, Loop(job, rows, n - 1).decisions, Loop(job, rows, n).decisions);
      DecidedAnswers(job, rows, n - 1, Loop(job, rows, n - 1).decisions, Loop(job, rows, n).decisions);
    }
  }

  lemma NoDecisionsYet(job: Job, rows: seq<Row>, n: nat)
    requires n <= |rows| && n <= job.EvalStart()
    ensures Loop(job, rows, n).decisions == []
  {
  }

  lemma DecidedAnswers(job: Job, rows: seq<Row>, i: nat, before: seq<Decision>, after: seq<Decision>)
    requires i < |rows| && Decided(job, rows, i, before, after)
    ensures IsAnswer(job, rows, i, Loop(job, rows, i + 1).position.Some?, Last(after))
  {
    hide IsAnswer, Loop, RefusedOn;
  }

  /**
    A run answers one signal for each candle from max(200, start) to before min(length, end), in order and
    for no other candle, with the decision the gates call for.
  */
  lemma RunAnswers(job: Job, ix: TimeIndex, rows: seq<Row>)
    requires job.cfg.Valid() && Indexes(ix, rows)
    ensures var answers := Answers(RunState(job, rows).decisions);
            && (forall k :: 0 <= k < |answers| ==>
                  && Decides(job, answers[k].index, |rows|)
                  && IsAnswer(job, rows, answers[k].index, Loop(job, rows, answers[k].index + 1).position.Some?, answers[k]))
            && (forall j, k :: 0 <= j < k < |answers| ==> answers[j].index < answers[k].index)
            && (forall i: nat :: Decides(job, i, |rows|) ==> exists k :: 0 <= k < |answers| && answers[k].index == i)
  {
    hide Loop, Indexes, RunState, Answers;
    var n, first := Horizon(job, rows), job.EvalStart();
    LoopAnswers(job, ix, rows, n);
    FinishKeepsDecisions(job, rows);
    var answers := Answers(RunState(job, rows).decisions);
    forall k | 0 <= k < |answers| ensures answers[k].index == first + k {
      assert IsAnswer(job, rows, first + k, Loop(job, rows, first + k + 1).position.Some?, answers[k]);
    }
    hide IsAnswer;
    forall i: nat | Decides(job, i, |rows|) ensures exists k :: 0 <= k < |answers| && answers[k].index == i {
      assert answers[i - first].index == i;
    }
  }

  lemma FinishKeepsDecisions(job: Job, rows: seq<Row>)
    ensures RunState(job, rows).decisions == Loop(job, rows, Horizon(job, rows)).decisions
  {
    hide GrossOf, Loop;
  }

  // ---------------------------------------------------------------- observations

  /** An observation repeats its row's columns; a regime is noted exactly on the candles with a decision. */
  predicate Observes(job: Job, rows: seq<Row>, i: nat, o: Observation) {
    && i < |rows|
    && o.index == i && o.time == rows[i].candle.time && o.ema50 == rows[i].ema50 && o.ema200 == rows[i].ema200
    && o.rsi == rows[i].rsi && o.atr == rows[i].atr
    && o.regime == if Decides(job, i, |rows|) then Some(job.strategy.regime(rows[..i + 1])) else None
  }

  lemma ObservationsShow(job: Job, rows: seq<Row>, i: nat)
    requires i < |rows|
    ensures |Observations(job, rows)| == |rows| && Observes(job, rows, i, Observations(job, rows)[i])
  {
    DecidesIff(job, i, |rows|);
  }
}
