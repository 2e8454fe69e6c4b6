/** Replay against the live view: equality at every cursor, and what follows from it. */
module LiveReplay {
  import opened Prelude
  import opened Models
  import opened Indicators
  import opened Engine
  import opened Runner
  import opened Runs
  import opened Capital
  import opened Replay
  import opened Hindsight

  function ClosedView(ix: TimeIndex, t: Trade): TradeView {
    TradeView(t.id, At(ix, t.entryTime), t.entryTime, t.direction, t.entryPrice, t.stop, t.target, t.quantity,
              t.balanceBefore, Some(ExitOf(ix, t)))
  }

  function ClosedViews(ix: TimeIndex, trades: seq<Trade>): (views: seq<TradeView>)
    ensures |views| == |trades|
  {
    seq(|trades|, k requires 0 <= k < |trades| => ClosedView(ix, trades[k]))
  }

  /** Closed trades in full, then the open position without an exit. */
  function LiveTrades(ix: TimeIndex, candles: seq<Candle>, s: State): seq<TradeView>
    requires s.position.Some? ==> s.position.value.entryIndex < |candles|
  {
    ClosedViews(ix, s.trades) +
    match s.position
    case None => []
    case Some(p) => [TradeView(|s.trades| + 1, p.entryIndex, candles[p.entryIndex].time, p.direction, p.entryPrice,
                               p.stop, p.target, p.quantity, p.balanceBefore, None)]
  }

  function LiveBalances(job: Job, candles: seq<Candle>): (b: seq<real>)
    ensures |b| == |candles|
  {
    seq(|candles|, i requires 0 <= i < |candles| => LiveState(job, Frame(candles[..i + 1])).balance)
  }

  /** What an observer holding only these candles can report. */
  function LiveView(job: Job, candles: seq<Candle>): View
    requires candles != []
  {
    var rows := Frame(candles);
    var s := LiveState(job, rows);
    View(|candles| - 1, false, IndexedCandles(candles, Observations(job, rows), |candles|), s.decisions,
         LiveTrades(IndexOf(candles), candles, s), CurveFrom(candles, job.balance, LiveBalances(job, candles)), None)
  }

  function SessionOf(job: Job, candles: seq<Candle>, maximumDrawdown: real): Session {
    var s := RunState(job, Frame(candles));
    Session(candles, job.balance, s.balance, maximumDrawdown, s.trades, s.decisions, Observations(job, Frame(candles)))
  }

  ghost predicate Legal(job: Job, candles: seq<Candle>) {
    job.cfg.Valid() && Runnable(job, candles)
  }

  // ---------------------------------------------------------------- time index

  lemma {:induction false} IndexOfHits(candles: seq<Candle>, i: nat)
    requires Chronological(candles) && i < |candles|
    ensures candles[i].time in IndexOf(candles) && IndexOf(candles)[candles[i].time] == i
  {
    if i < |candles| - 1 {
      IndexOfHits(Init(candles), i);
    }
  }

  lemma {:induction false} IndexOfInverse(candles: seq<Candle>, time: int)
    requires time in IndexOf(candles)
    ensures IndexOf(candles)[time] < |candles| && candles[IndexOf(candles)[time]].time == time
  {
    if time != Last(candles).time {
      IndexOfInverse(Init(candles), time);
    }
  }

  lemma IndexOfIndexes(candles: seq<Candle>)
    requires Chronological(candles)
    ensures Indexes(IndexOf(candles), Frame(candles))
  {
    hide Frame, IndexOf;
    forall i | 0 <= i < |candles|
      ensures candles[i].time in IndexOf(candles) && IndexOf(candles)[candles[i].time] == i
    {
      IndexOfHits(candles, i);
    }
  }

  /** Times before n sit at the same index in the whole dataset and in its first n candles. */
  lemma IndexOfPrefix(candles: seq<Candle>, n: nat, time: int)
    requires Chronological(candles) && n <= |candles| && 0 <= At(IndexOf(candles), time) < n
    ensures At(IndexOf(candles[..n]), time) == At(IndexOf(candles), time)
  {
    IndexOfInverse(candles, time);
    IndexOfHits(candles[..n], At(IndexOf(candles), time));
  }

  // ---------------------------------------------------------------- trades and signals

  lemma {:induction false} ViewsSkip(ix: TimeIndex, trades: seq<Trade>, k: nat, cursor: int)
    requires k <= |trades| && forall j :: k <= j < |trades| ==> At(ix, trades[j].entryTime) > cursor
    ensures TradeViews(ix, trades, cursor) == TradeViews(ix, trades[..k], cursor)
  {
    if k < |trades| {
      ViewsSkip(ix, Init(trades), k, cursor);
      assert Init(trades)[..k] == trades[..k];
    } else {
      assert trades[..k] == trades;
    }
  }

  /** Trades are held for at least one candle and exit one after the other. */
  predicate Sequential(ix: TimeIndex, trades: seq<Trade>) {
    && (forall k :: 0 <= k < |trades| ==> 1 <= At(ix, trades[k].entryTime) <= At(ix, trades[k].exitTime))
    && (forall j, k :: 0 <= j < k < |trades| ==> At(ix, trades[j].exitTime) < At(ix, trades[k].exitTime))
  }

  lemma ShapeIsSequential(cfg: Config, ix: TimeIndex, start: nat, trades: seq<Trade>)
    requires TradesShape(cfg, ix, start, trades)
    ensures Sequential(ix, trades)
  {
    forall k | 0 <= k < |trades| ensures 1 <= At(ix, trades[k].entryTime) <= At(ix, trades[k].exitTime) {
      assert TradeShape(cfg, ix, start, trades[k]);
    }
  }

  lemma {:induction false} ViewsClosed(ix: TimeIndex, trades: seq<Trade>, cursor: int)
    requires Sequential(ix, trades) && ClosedBefore(ix, trades, cursor + 1)
    ensures TradeViews(ix, trades, cursor) == ClosedViews(ix, trades)
  {
    if trades != [] {
      ViewsClosed(ix, Init(trades), cursor);
      assert At(ix, Last(trades).entryTime) <= At(ix, Last(trades).exitTime) < cursor + 1;
    }
  }

  lemma {:induction false} SignalsUpTo(decisions: seq<Decision>, k: nat, cursor: int)
    requires k <= |decisions| && DecidedFrom(decisions, k, cursor + 1) && DecidedBefore(decisions[..k], cursor + 1)
    ensures UpTo(decisions, cursor) == decisions[..k]
  {
    if decisions == [] {
    } else if k == |decisions| {
      assert decisions[..k][k - 1] == Last(decisions);
      assert Init(decisions)[..k - 1] == decisions[..k][..k - 1];
      SignalsUpTo(Init(decisions), k - 1, cursor);
    } else {
      assert Init(decisions)[..k] == decisions[..k];
      SignalsUpTo(Init(decisions), k, cursor);
    }
  }

  lemma ViewsSnoc(ix: TimeIndex, trades: seq<Trade>, t: Trade, cursor: int)
    ensures TradeViews(ix, trades + [t], cursor) ==
            TradeViews(ix, trades, cursor) + if At(ix, t.entryTime) > cursor then [] else [ViewTrade(ix, t, cursor)]
  {
    assert Init(trades + [t]) == trades;
  }

  ghost predicate NamesCandles(ix: TimeIndex, candles: seq<Candle>) {
    forall time :: time in ix ==> ix[time] < |candles| && candles[ix[time]].time == time
  }

  lemma OpenTradeSeen(ix: TimeIndex, candles: seq<Candle>, n: nat, s: State, trade: Trade)
    requires s.position.Some? && s.position.value.entryIndex < n <= |candles| && NamesCandles(ix, candles)
    requires Records(ix, s.position.value, trade) && trade.id == |s.trades| + 1 && At(ix, trade.exitTime) >= n
    ensures LiveTrades(ix, candles, s) == ClosedViews(ix, s.trades) + [ViewTrade(ix, trade, n - 1)]
  {
    hide ClosedViews;
  }

  lemma ViewsOfExtension(ix: TimeIndex, candles: seq<Candle>, n: nat, s: State, trades: seq<Trade>)
    requires NamesCandles(ix, candles) && s.trades <= trades && TradeViews(ix, s.trades, n - 1) == ClosedViews(ix, s.trades)
    requires forall k :: |s.trades| + (if s.position.Some? then 1 else 0) <= k < |trades| ==> At(ix, trades[k].entryTime) > n - 1
    requires s.position.Some? ==>
               && s.position.value.entryIndex < n <= |candles| && |trades| > |s.trades|
               && Records(ix, s.position.value, trades[|s.trades|])
               && trades[|s.trades|].id == |s.trades| + 1 && At(ix, trades[|s.trades|].exitTime) >= n
    ensures TradeViews(ix, trades, n - 1) == LiveTrades(ix, candles, s)
  {
    hide ClosedViews, At, NamesCandles;
    var k := |s.trades|;
    assert trades[..k] == s.trades;
    if s.position.None? {
      ViewsSkip(ix, trades, k, n - 1);
    } else {
      assert trades[..k + 1] == s.trades + [trades[k]];
      ViewsSkip(ix, trades, k + 1, n - 1);
      OpenTradeSeen(ix, candles, n, s, trades[k]);
      ViewsSnoc(ix, s.trades, trades[k], n - 1);
      hide TradeViews, LiveTrades;
    }
  }

  /** Seen from cursor n - 1, the trades of the finished run are those of the state it extends. */
  lemma TradesSeen(cfg: Config, ix: TimeIndex, start: nat, candles: seq<Candle>, n: nat, s: State, t: State)
    requires Extends(ix, n, s, t) && t.position.None? && NamesCandles(ix, candles)
    requires TradesShape(cfg, ix, start, s.trades) && TradesShape(cfg, ix, start, t.trades) && ClosedBefore(ix, s.trades, n)
    requires s.position.Some? ==> s.position.value.entryIndex < n <= |candles|
    ensures TradeViews(ix, t.trades, n - 1) == LiveTrades(ix, candles, s)
  {
    ShapeIsSequential(cfg, ix, start, s.trades);
    ViewsClosed(ix, s.trades, n - 1);
    hide TradeViews, LiveTrades, ClosedViews, At, NamesCandles;
    ViewsOfExtension(ix, candles, n, s, t.trades);
  }

  // ---------------------------------------------------------------- balances

  predicate SplitAt(ix: TimeIndex, trades: seq<Trade>, i: int, k: nat) {
    && k <= |trades|
    && (forall j :: 0 <= j < k ==> At(ix, trades[j].exitTime) <= i)
    && (forall j :: k <= j < |trades| ==> At(ix, trades[j].exitTime) > i)
  }

  function BalanceAfter(initial: real, trades: seq<Trade>, k: nat): real
    requires k <= |trades|
  {
    if k == 0 then initial else trades[k - 1].balanceAfter
  }

  /** Some trade exits on the candle. */
  ghost predicate ExitsOn(ix: TimeIndex, trades: seq<Trade>, x: int) {
    exists j :: 0 <= j < |trades| && At(ix, trades[j].exitTime) == x
  }

  lemma ExitsOnEarlier(ix: TimeIndex, trades: seq<Trade>, x: int)
    requires trades != []
    ensures ExitsOn(ix, trades, x) <==> ExitsOn(ix, Init(trades), x) || At(ix, Last(trades).exitTime) == x
  {
    hide At;
    if ExitsOn(ix, Init(trades), x) {
      var j :| 0 <= j < |Init(trades)| && At(ix, Init(trades)[j].exitTime) == x;
      assert trades[j] == Init(trades)[j];
    } else if At(ix, Last(trades).exitTime) == x {
      assert trades[|trades| - 1] == Last(trades);
    }
    if ExitsOn(ix, trades, x) {
      var j :| 0 <= j < |trades| && At(ix, trades[j].exitTime) == x;
      if j < |trades| - 1 {
        assert Init(trades)[j] == trades[j];
      }
    }
  }

  lemma SequentialInit(ix: TimeIndex, trades: seq<Trade>)
    requires Sequential(ix, trades) && trades != []
    ensures Sequential(ix, Init(trades))
    ensures At(ix, Last(trades).entryTime) <= At(ix, Last(trades).exitTime)
    ensures forall j :: 0 <= j < |Init(trades)| ==> At(ix, Init(trades)[j].exitTime) < At(ix, Last(trades).exitTime)
  {
    hide At;
  }

  lemma ExitBalancesStep(ix: TimeIndex, trades: seq<Trade>, cursor: int)
    ensures ExitBalances(ix, trades, cursor) ==
            if trades == [] then map[]
            else
              var before, t := ExitBalances(ix, Init(trades), cursor), Last(trades);
              if At(ix, t.entryTime) <= cursor && At(ix, t.exitTime) <= cursor then before[At(ix, t.exitTime) := t.balanceAfter]
              else before
  {
    hide At;
  }

  /** No exit overwrites another: the dictionary holds every exit up to the cursor and nothing else. */
  lemma {:induction false} ExitBalancesExact(ix: TimeIndex, trades: seq<Trade>, cursor: int)
    requires Sequential(ix, trades)
    ensures var exits := ExitBalances(ix, trades, cursor);
            && (forall j :: 0 <= j < |trades| && At(ix, trades[j].exitTime) <= cursor ==>
                  At(ix, trades[j].exitTime) in exits && exits[At(ix, trades[j].exitTime)] == trades[j].balanceAfter)
            && (forall x :: x in exits ==> x <= cursor && ExitsOn(ix, trades, x))
  {
    hide At, Sequential, ExitsOn, ExitBalances;
    ExitBalancesStep(ix, trades, cursor);
    if trades != [] {
      SequentialInit(ix, trades);
      ExitBalancesExact(ix, Init(trades), cursor);
      var exits, before := ExitBalances(ix, trades, cursor), ExitBalances(ix, Init(trades), cursor);
      forall x | x in exits ensures x <= cursor && ExitsOn(ix, trades, x) {
        ExitsOnEarlier(ix, trades, x);
        assert x in before || x == At(ix, Last(trades).exitTime);
      }
      forall j | 0 <= j < |trades| && At(ix, trades[j].exitTime) <= cursor
        ensures At(ix, trades[j].exitTime) in exits && exits[At(ix, trades[j].exitTime)] == trades[j].balanceAfter
      {
        if j < |trades| - 1 {
          assert Init(trades)[j] == trades[j];
        }
      }
    }
  }

  lemma {:induction false} CarriedIsBalanceAfter(ix: TimeIndex, trades: seq<Trade>, initial: real, cursor: int, i: nat, k: nat)
    requires Sequential(ix, trades) && SplitAt(ix, trades, i, k) && i <= cursor
    ensures CarriedBalance(initial, ExitBalances(ix, trades, cursor), i) == BalanceAfter(initial, trades, k)
    decreases i
  {
    ExitBalancesExact(ix, trades, cursor);
    hide ExitBalances;
    var exits := ExitBalances(ix, trades, cursor);
    if k > 0 && At(ix, trades[k - 1].exitTime) == i {
    } else {
      assert forall j :: 0 <= j < |trades| ==> At(ix, trades[j].exitTime) != i;
      assert i !in exits;
      if i > 0 {
        assert forall j :: 0 <= j < k ==> At(ix, trades[j].exitTime) <= i - 1;
        CarriedIsBalanceAfter(ix, trades, initial, cursor, i - 1, k);
      }
    }
  }

  lemma LedgerBalance(start: real, s: State)
    requires Ledger(start, s)
    ensures s.balance == BalanceAfter(start, s.trades, |s.trades|)
  {
  }

  /** The replayed balance at candle i is the balance the engine held after candle i. */
  lemma BalanceSeen(job: Job, candles: seq<Candle>, cursor: nat, i: nat)
    requires Legal(job, candles) && i <= cursor < |candles|
    ensures var rows := Frame(candles);
            CarriedBalance(job.balance, ExitBalances(IndexOf(candles), RunState(job, rows).trades, cursor), i) ==
            Known(job, rows, i + 1).balance
  {
    hide Frame, RunState, Known, Ledger, TradesShape;
    var rows, ix := Frame(candles), IndexOf(candles);
    IndexOfIndexes(candles);
    KnownExtends(job, ix, rows, i + 1);
    RunShape(job, ix, rows);
    var s, t := Known(job, rows, i + 1), RunState(job, rows);
    ShapeIsSequential(job.cfg, ix, job.EvalStart(), t.trades);
    assert SplitAt(ix, t.trades, i, |s.trades|);
    CarriedIsBalanceAfter(ix, t.trades, job.balance, cursor, i, |s.trades|);
    LedgerBalance(job.balance, s);
  }

  // ---------------------------------------------------------------- the main results

  lemma RunIsIndexed(candles: seq<Candle>)
    requires Chronological(candles)
    ensures Indexes(IndexOf(candles), Frame(candles)) && NamesCandles(IndexOf(candles), candles)
  {
    IndexOfIndexes(candles);
    hide Frame, IndexOf;
    forall time | time in IndexOf(candles)
      ensures IndexOf(candles)[time] < |candles| && candles[IndexOf(candles)[time]].time == time
    {
      IndexOfInverse(candles, time);
    }
  }

  lemma TradesAndSignalsSeen(job: Job, candles: seq<Candle>, n: nat)
    requires Legal(job, candles) && 1 <= n <= |candles|
    ensures var rows, ix := Frame(candles), IndexOf(candles);
            var s, t := Known(job, rows, n), RunState(job, rows);
            && (s.position.Some? ==> s.position.value.entryIndex < |candles|)
            && TradeViews(ix, t.trades, n - 1) == LiveTrades(ix, candles, s)
            && UpTo(t.decisions, n - 1) == s.decisions
  {
    hide Frame, RunState, Known, Ledger, TradesShape, LiveTrades, TradeViews;
    var rows, ix := Frame(candles), IndexOf(candles);
    RunIsIndexed(candles);
    KnownExtends(job, ix, rows, n);
    RunShape(job, ix, rows);
    var s, t := Known(job, rows, n), RunState(job, rows);
    TradesSeen(job.cfg, ix, job.EvalStart(), candles, n, s, t);
    assert t.decisions[..|s.decisions|] == s.decisions;
    SignalsUpTo(t.decisions, |s.decisions|, n - 1);
  }

  lemma LiveTradesCausal(job: Job, candles: seq<Candle>, n: nat, s: State)
    requires Chronological(candles) && n <= |candles|
    requires TradesShape(job.cfg, IndexOf(candles), job.EvalStart(), s.trades) && ClosedBefore(IndexOf(candles), s.trades, n)
    requires s.position.Some? ==> s.position.value.entryIndex < n
    ensures LiveTrades(IndexOf(candles), candles, s) == LiveTrades(IndexOf(candles[..n]), candles[..n], s)
  {
    var ix, part := IndexOf(candles), IndexOf(candles[..n]);
    ShapeIsSequential(job.cfg, ix, job.EvalStart(), s.trades);
    hide IndexOf, At, TradesShape;
    forall k | 0 <= k < |s.trades| ensures ClosedView(ix, s.trades[k]) == ClosedView(part, s.trades[k]) {
      IndexOfPrefix(candles, n, s.trades[k].entryTime);
      IndexOfPrefix(candles, n, s.trades[k].exitTime);
    }
    assert ClosedViews(ix, s.trades) == ClosedViews(part, s.trades);
  }

  lemma ObservationsCausal(job: Job, rows: seq<Row>, n: nat)
    requires n <= |rows|
    ensures Observations(job, rows)[..n] == Observations(job, rows[..n])
  {
    forall i | 0 <= i < n ensures ObservationAt(job, rows, i) == ObservationAt(job, rows[..n], i) {
      assert rows[..n][..i + 1] == rows[..i + 1];
    }
  }

  lemma BalancesSeen(job: Job, candles: seq<Candle>, cursor: nat)
    requires Legal(job, candles) && cursor + 1 < |candles|
    ensures Carried(job.balance, ExitBalances(IndexOf(candles), RunState(job, Frame(candles)).trades, cursor), cursor + 1) ==
            LiveBalances(job, candles[..cursor + 1])
  {
    hide Frame, RunState, LiveState, CarriedBalance, ExitBalances, IndexOf;
    forall i | 0 <= i <= cursor
      ensures CarriedBalance(job.balance, ExitBalances(IndexOf(candles), RunState(job, Frame(candles)).trades, cursor), i) ==
              LiveState(job, Frame(candles[..cursor + 1][..i + 1])).balance
    {
      BalanceSeen(job, candles, cursor, i);
      FrameCausal(candles, i + 1);
      assert candles[..cursor + 1][..i + 1] == candles[..i + 1];
    }
  }

  lemma CurveCausal(candles: seq<Candle>, n: nat, initial: real, balances: seq<real>)
    requires |balances| <= n <= |candles|
    ensures CurveFrom(candles, initial, balances) == CurveFrom(candles[..n], initial, balances)
  {
  }

  /**
    Replaying a finished run at any cursor before its last candle equals the live view of the
    candles up to that cursor: candles, indicators, signals, trades and the balance curve.
  */
  lemma ReplayIsLive(job: Job, candles: seq<Candle>, maximumDrawdown: real, cursor: nat)
    requires Legal(job, candles) && cursor + 1 < |candles|
    ensures ReplayOf(SessionOf(job, candles, maximumDrawdown), cursor) == LiveView(job, candles[..cursor + 1])
  {
    hide Frame, RunState, LiveState, TradesShape, Ledger, LiveTrades, TradeViews, UpTo, ExitBalances, Carried, LiveBalances, CurveFrom, IndexOf;
    var n := cursor + 1;
    var rows := Frame(candles);
    FrameCausal(candles, n);
    RunIsIndexed(candles);
    TradesAndSignalsSeen(job, candles, n);
    KnownExtends(job, IndexOf(candles), rows, n);
    LiveTradesCausal(job, candles, n, Known(job, rows, n));
    ObservationsCausal(job, rows, n);
    BalancesSeen(job, candles, cursor);
    CurveCausal(candles, n, job.balance, LiveBalances(job, candles[..n]));
    IndexedCausal(candles, Observations(job, rows), n);
  }

  lemma IndexedCausal(candles: seq<Candle>, obs: seq<Observation>, n: nat)
    requires n <= |candles| == |obs|
    ensures IndexedCandles(candles, obs, n) == IndexedCandles(candles[..n], obs[..n], n)
  {
  }

  /** No look-ahead: datasets that agree up to the cursor replay identically there, whatever follows. */
  lemma NoLookAhead(job: Job, a: seq<Candle>, b: seq<Candle>, da: real, db: real, cursor: nat)
    requires Legal(job, a) && Legal(job, b) && cursor + 1 < |a| && cursor + 1 < |b|
    requires a[..cursor + 1] == b[..cursor + 1]
    ensures ReplayOf(SessionOf(job, a, da), cursor) == ReplayOf(SessionOf(job, b, db), cursor)
  {
    hide ReplayOf, SessionOf, LiveView;
    ReplayIsLive(job, a, da, cursor);
    ReplayIsLive(job, b, db, cursor);
  }
}
