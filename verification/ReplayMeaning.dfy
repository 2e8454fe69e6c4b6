/** What a replay shows, field by field, at every cursor of every run, the last one included. */
module ReplayMeaning {
  import opened Prelude
  import opened Models
  import opened Indicators
  import opened Engine
  import opened Runner
  import opened Runs
  import opened Capital
  import opened Reporting
  import opened Replay
  import opened Hindsight
  import opened LiveReplay

  /** The item carries the trade's own figures, and its exit exactly when the cursor has reached it. */
  predicate ShowsTrade(ix: TimeIndex, v: TradeView, t: Trade, cursor: int) {
    && v.id == t.id && v.entryIndex == At(ix, t.entryTime) && v.entryTime == t.entryTime && v.direction == t.direction
    && v.entryPrice == t.entryPrice && v.stop == t.stop && v.target == t.target && v.quantity == t.quantity
    && v.balanceBefore == t.balanceBefore
    && (v.exit.Some? <==> At(ix, t.exitTime) <= cursor)
    && (v.exit.Some? ==>
          var x := v.exit.value;
          && x.index == At(ix, t.exitTime) && x.time == t.exitTime && x.price == t.exitPrice && x.reason == t.reason
          && x.net == t.net && x.balanceAfter == t.balanceAfter)
  }

  /** One item for each trade entered by the cursor, in order. */
  predicate ShowsTrades(ix: TimeIndex, views: seq<TradeView>, trades: seq<Trade>, cursor: int) {
    && |views| <= |trades|
    && (forall k :: 0 <= k < |trades| ==> (k < |views| <==> At(ix, trades[k].entryTime) <= cursor))
    && (forall k :: 0 <= k < |views| ==> ShowsTrade(ix, views[k], trades[k], cursor))
  }

  predicate EntriesAscend(ix: TimeIndex, trades: seq<Trade>) {
    forall j, k :: 0 <= j < k < |trades| ==> At(ix, trades[j].entryTime) <= At(ix, trades[k].entryTime)
  }

  lemma TradeIsShown(ix: TimeIndex, t: Trade, cursor: int)
    ensures ShowsTrade(ix, ViewTrade(ix, t, cursor), t, cursor)
  {
  }

  lemma {:induction false} TradesAreShown(ix: TimeIndex, trades: seq<Trade>, cursor: int)
    requires EntriesAscend(ix, trades)
    ensures ShowsTrades(ix, TradeViews(ix, trades, cursor), trades, cursor)
  {
    hide At, ShowsTrade, ViewTrade;
    if trades != [] {
      TradesAreShown(ix, Init(trades), cursor);
      TradeIsShown(ix, Last(trades), cursor);
      var views, more := TradeViews(ix, Init(trades), cursor), TradeViews(ix, trades, cursor);
      assert forall k :: 0 <= k < |Init(trades)| ==> Init(trades)[k] == trades[k];
      if At(ix, Last(trades).entryTime) <= cursor {
        assert forall k :: 0 <= k < |Init(trades)| ==> At(ix, Init(trades)[k].entryTime) <= cursor;
        assert |views| == |Init(trades)|;
      }
    }
  }

  lemma RunEntriesAscend(cfg: Config, ix: TimeIndex, start: nat, trades: seq<Trade>)
    requires TradesShape(cfg, ix, start, trades)
    ensures EntriesAscend(ix, trades)
  {
    forall j, k | 0 <= j < k < |trades| ensures At(ix, trades[j].entryTime) <= At(ix, trades[k].entryTime) {
      assert TradeShape(cfg, ix, start, trades[j]) && TradeShape(cfg, ix, start, trades[k]);
    }
  }

  /** Every candle up to the cursor with its own index and indicators. */
  predicate ShowsCandles(shown: seq<IndexedCandle>, session: Session, cursor: nat)
    requires cursor < |session.candles| == |session.indicators|
  {
    && |shown| == cursor + 1
    && forall i :: 0 <= i <= cursor ==>
         shown[i].index == i && shown[i].candle == session.candles[i] && shown[i].indicators == session.indicators[i]
  }

  /** The decisions made by the cursor: a first part of them all. */
  predicate ShowsSignals(signals: seq<Decision>, decisions: seq<Decision>, cursor: nat) {
    && signals <= decisions
    && forall k :: 0 <= k < |decisions| ==> (k < |signals| <==> decisions[k].index <= cursor)
  }

  /** The balance moves at exits only, to the balance after the trade, and starts from the initial capital. */
  ghost predicate ShowsBalances(ix: TimeIndex, curve: seq<BalancePoint>, initial: real, trades: seq<Trade>, cursor: nat) {
    && |curve| == cursor + 1
    && (forall k :: 0 <= k < |trades| && 0 <= At(ix, trades[k].exitTime) <= cursor ==>
          curve[At(ix, trades[k].exitTime)].balance == trades[k].balanceAfter)
    && (forall i :: 0 <= i <= cursor && !ExitsOn(ix, trades, i) ==>
          curve[i].balance == if i == 0 then initial else curve[i - 1].balance)
  }

  /** A point: its candle, and the fall of its balance from the highest so far, the initial capital included. */
  ghost predicate ShowsPoint(curve: seq<BalancePoint>, initial: real, candles: seq<Candle>, i: nat)
    requires i < |curve| <= |candles|
  {
    var peak := curve[i].balance + curve[i].drawdown;
    && curve[i].index == i && curve[i].time == candles[i].time
    && initial <= peak && (forall j :: 0 <= j <= i ==> curve[j].balance <= peak)
    && (peak == initial || exists j :: 0 <= j <= i && curve[j].balance == peak)
    && IsPercent(curve[i].percent, curve[i].drawdown, peak)
  }

  lemma PointsAre(candles: seq<Candle>, initial: real, balances: seq<real>)
    requires |balances| <= |candles|
    ensures forall j :: 0 <= j < |balances| ==>
              var point, peak := CurveFrom(candles, initial, balances)[j], Peak([initial] + balances, j + 1);
              && point.index == j && point.time == candles[j].time && point.balance == balances[j]
              && point.drawdown == peak - balances[j] && point.percent == PercentOf(peak - balances[j], peak)
  {
    hide Peak, PercentOf;
  }

  lemma PointIsShown(candles: seq<Candle>, initial: real, balances: seq<real>, i: nat)
    requires i < |balances| <= |candles|
    ensures ShowsPoint(CurveFrom(candles, initial, balances), initial, candles, i)
  {
    hide Peak, PercentOf, IsPercent, CurveFrom;
    var all := [initial] + balances;
    var curve := CurveFrom(candles, initial, balances);
    PeakIsHighest(all, i + 1);
    var peak := Peak(all, i + 1);
    PercentOfIs(peak - balances[i], peak);
    PointsAre(candles, initial, balances);
    assert curve[i].drawdown == peak - balances[i];
    assert all[0] == initial && forall j :: 0 <= j < |balances| ==> all[j + 1] == balances[j];
    forall j | 0 <= j <= i ensures curve[j].balance <= peak {
      assert all[j + 1] <= peak;
    }
    var top :| 0 <= top <= i + 1 && all[top] == peak;
    if top > 0 {
      assert curve[top - 1].balance == peak;
    }
  }

  lemma BalancesAreShown(ix: TimeIndex, candles: seq<Candle>, initial: real, trades: seq<Trade>, cursor: nat)
    requires cursor < |candles| && Sequential(ix, trades)
    ensures ShowsBalances(ix, CurveFrom(candles, initial, Carried(initial, ExitBalances(ix, trades, cursor), cursor + 1)), initial, trades, cursor)
  {
    ExitBalancesExact(ix, trades, cursor);
    hide ExitBalances, At, Peak, PercentOf;
  }

  /** Everything the view says. */
  ghost predicate Shows(view: View, session: Session, cursor: nat)
    requires cursor < |session.candles| == |session.indicators|
  {
    var ix := IndexOf(session.candles);
    && view.cursor == cursor && (view.complete <==> cursor + 1 == |session.candles|)
    && ShowsCandles(view.candles, session, cursor)
    && ShowsSignals(view.signals, session.decisions, cursor)
    && ShowsTrades(ix, view.trades, session.trades, cursor)
    && ShowsBalances(ix, view.curve, session.initialCapital, session.trades, cursor)
    && (forall i :: 0 <= i <= cursor ==> ShowsPoint(view.curve, session.initialCapital, session.candles, i))
    && (if view.complete then
          view.metrics.Some? && view.metrics.value.endingCapital == session.endingCapital
          && view.metrics.value.maximumDrawdown == session.maximumDrawdown
        else view.metrics.None?)
  }

  lemma SignalsAreShown(job: Job, candles: seq<Candle>, cursor: nat)
    requires Legal(job, candles) && cursor < |candles|
    ensures var decisions := RunState(job, Frame(candles)).decisions;
            ShowsSignals(UpTo(decisions, cursor), decisions, cursor)
  {
    hide Frame, RunState, Known, Ledger, TradesShape, LiveTrades, TradeViews;
    var rows, ix := Frame(candles), IndexOf(candles);
    RunIsIndexed(candles);
    TradesAndSignalsSeen(job, candles, cursor + 1);
    KnownExtends(job, ix, rows, cursor + 1);
    var s, t := Known(job, rows, cursor + 1), RunState(job, rows);
    assert forall k :: 0 <= k < |s.decisions| ==> t.decisions[k] == s.decisions[k];
  }

  /** At every cursor of every run the replay shows exactly this. */
  lemma ReplayShows(job: Job, candles: seq<Candle>, dd: real, cursor: nat)
    requires Legal(job, candles) && cursor < |candles|
    ensures Shows(ReplayOf(SessionOf(job, candles, dd), cursor), SessionOf(job, candles, dd), cursor)
  {
    hide Frame, RunState, IndexOf, Sequential, TradesShape, ShowsSignals, ShowsTrades, ShowsBalances, ShowsPoint, UpTo, TradeViews, CurveFrom, Carried, ExitBalances, Observations;
    var session, ix, rows := SessionOf(job, candles, dd), IndexOf(candles), Frame(candles);
    IndexOfIndexes(candles);
    RunShape(job, ix, rows);
    ShapeIsSequential(job.cfg, ix, job.EvalStart(), session.trades);
    RunEntriesAscend(job.cfg, ix, job.EvalStart(), session.trades);
    TradesAreShown(ix, session.trades, cursor);
    SignalsAreShown(job, candles, cursor);
    BalancesAreShown(ix, candles, job.balance, session.trades, cursor);
    var balances := Carried(job.balance, ExitBalances(ix, session.trades, cursor), cursor + 1);
    forall i | 0 <= i <= cursor ensures ShowsPoint(CurveFrom(candles, job.balance, balances), job.balance, candles, i) {
      PointIsShown(candles, job.balance, balances, i);
    }
  }

  /** A closed item balances: its closing balance is its opening balance plus its net result, and the curve's at its exit. */
  lemma ClosedItemsBalance(job: Job, candles: seq<Candle>, dd: real, cursor: nat, k: nat)
    requires Legal(job, candles) && cursor < |candles|
    requires var view := ReplayOf(SessionOf(job, candles, dd), cursor); k < |view.trades| && view.trades[k].exit.Some?
    ensures var view := ReplayOf(SessionOf(job, candles, dd), cursor);
            var x := view.trades[k].exit.value;
            && x.balanceAfter == view.trades[k].balanceBefore + x.net
            && 0 <= x.index < |view.curve| && view.curve[x.index].balance == x.balanceAfter
  {
    hide Frame, RunState, IndexOf, ReplayOf, TradesShape, ShowsPoint;
    var session, ix, rows := SessionOf(job, candles, dd), IndexOf(candles), Frame(candles);
    ReplayShows(job, candles, dd, cursor);
    RunLedger(job, rows);
    IndexOfIndexes(candles);
    RunShape(job, ix, rows);
    ShapeIsSequential(job.cfg, ix, job.EvalStart(), session.trades);
    var t := session.trades[k];
    assert ShowsTrade(ix, ReplayOf(session, cursor).trades[k], t, cursor);
    BooksNet(job.balance, RunState(job, rows), k);
  }

  lemma BooksNet(start: real, s: State, k: nat)
    requires Ledger(start, s) && k < |s.trades|
    ensures s.trades[k].balanceAfter == s.trades[k].balanceBefore + s.trades[k].net
  {
    hide CountIf, Nets;
    assert s.trades[k].balanceAfter == s.equity[k + 1] && s.trades[k].balanceBefore == s.equity[k];
  }
}
