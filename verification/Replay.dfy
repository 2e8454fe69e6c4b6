/** Replay of a finished run up to a cursor (api/research.py, replay). */
module Replay {
  import opened Prelude
  import opened Models
  import opened Runs
  import opened Reporting

  datatype ExitView = ExitView(index: int, time: int, price: real, reason: ExitReason, net: real, balanceAfter: real)

  datatype TradeView = TradeView(id: nat, entryIndex: int, entryTime: int, direction: Direction, entryPrice: real,
                                 stop: real, target: real, quantity: real, balanceBefore: real,
                                 exit: Option<ExitView>)

  datatype BalancePoint = BalancePoint(index: nat, time: int, balance: real, drawdown: real, percent: real)

  datatype IndexedCandle = IndexedCandle(index: nat, candle: Candle, indicators: Observation)

  /** What a research session stores about a finished run. */
  datatype Session = Session(candles: seq<Candle>, initialCapital: real, endingCapital: real, maximumDrawdown: real,
                             trades: seq<Trade>, decisions: seq<Decision>, indicators: seq<Observation>)

  /** Whole-run figures, shown only at the last candle. */
  datatype Metrics = Metrics(endingCapital: real, maximumDrawdown: real)

  datatype View = View(cursor: nat, complete: bool, candles: seq<IndexedCandle>, signals: seq<Decision>,
                       trades: seq<TradeView>, curve: seq<BalancePoint>, metrics: Option<Metrics>)

  /** Each candle time with the position of the candle that carries it. */
  function IndexOf(candles: seq<Candle>): TimeIndex {
    if candles == [] then map[] else IndexOf(Init(candles))[Last(candles).time := |candles| - 1]
  }

  function ExitOf(ix: TimeIndex, t: Trade): ExitView {
    ExitView(At(ix, t.exitTime), t.exitTime, t.exitPrice, t.reason, t.net, t.balanceAfter)
  }

  /** A trade as seen from the cursor; its exit is withheld until the cursor reaches it. */
  function ViewTrade(ix: TimeIndex, t: Trade, cursor: int): TradeView {
    TradeView(t.id, At(ix, t.entryTime), t.entryTime, t.direction, t.entryPrice, t.stop, t.target, t.quantity,
              t.balanceBefore, if At(ix, t.exitTime) <= cursor then Some(ExitOf(ix, t)) else None)
  }

  function TradeViews(ix: TimeIndex, trades: seq<Trade>, cursor: int): seq<TradeView> {
    if trades == [] then [] else
    var before, t := TradeViews(ix, Init(trades), cursor), Last(trades);
    if At(ix, t.entryTime) > cursor then before else before + [ViewTrade(ix, t, cursor)]
  }

  /** The balance_at_exit dictionary. */
  function ExitBalances(ix: TimeIndex, trades: seq<Trade>, cursor: int): map<int, real> {
    if trades == [] then map[] else
    var before, t := ExitBalances(ix, Init(trades), cursor), Last(trades);
    if At(ix, t.entryTime) > cursor || At(ix, t.exitTime) > cursor then before
    else before[At(ix, t.exitTime) := t.balanceAfter]
  }

  /** Balance carried to candle i by the exits at or before it. */
  function CarriedBalance(initial: real, exits: map<int, real>, i: nat): real {
    if i in exits then exits[i] else if i == 0 then initial else CarriedBalance(initial, exits, i - 1)
  }

  function Carried(initial: real, exits: map<int, real>, n: nat): (b: seq<real>)
    ensures |b| == n
  {
    seq(n, i requires 0 <= i < n => CarriedBalance(initial, exits, i))
  }

  function PointAt(candles: seq<Candle>, initial: real, balances: seq<real>, i: nat): BalancePoint
    requires i < |balances| <= |candles|
  {
    var peak := Peak([initial] + balances, i + 1);
    BalancePoint(i, candles[i].time, balances[i], peak - balances[i], PercentOf(peak - balances[i], peak))
  }

  function CurveFrom(candles: seq<Candle>, initial: real, balances: seq<real>): (curve: seq<BalancePoint>)
    requires |balances| <= |candles|
    ensures |curve| == |balances|
  {
    seq(|balances|, i requires 0 <= i < |balances| => PointAt(candles, initial, balances, i))
  }

  function UpTo(decisions: seq<Decision>, cursor: int): seq<Decision> {
    if decisions == [] then [] else
    var before := UpTo(Init(decisions), cursor);
    if Last(decisions).index <= cursor then before + [Last(decisions)] else before
  }

  function IndexedCandles(candles: seq<Candle>, indicators: seq<Observation>, n: nat): (r: seq<IndexedCandle>)
    requires n <= |candles| && n <= |indicators|
    ensures |r| == n
  {
    seq(n, i requires 0 <= i < n => IndexedCandle(i, candles[i], indicators[i]))
  }

  /** Stored indicators line up with the candles and every trade time is a candle time. */
  predicate Coherent(session: Session) {
    && |session.indicators| == |session.candles|
    && forall k :: 0 <= k < |session.trades| ==>
         && session.trades[k].entryTime in IndexOf(session.candles)
         && session.trades[k].exitTime in IndexOf(session.candles)
  }

  function ReplayOf(session: Session, cursor: nat): View
    requires cursor < |session.candles| == |session.indicators|
  {
    var ix := IndexOf(session.candles);
    var complete := cursor == |session.candles| - 1;
    var balances := Carried(session.initialCapital, ExitBalances(ix, session.trades, cursor), cursor + 1);
    View(cursor, complete,
         IndexedCandles(session.candles, session.indicators, cursor + 1),
         UpTo(session.decisions, cursor),
         TradeViews(ix, session.trades, cursor),
         CurveFrom(session.candles, session.initialCapital, balances),
         if complete then Some(Metrics(session.endingCapital, session.maximumDrawdown)) else None)
  }

  /** The dictionary build, the trade loop and the balance loop of replay. */
  method Replay(session: Session, cursor: int) returns (r: Result<View>)
    requires Coherent(session)
    ensures r.Ok? <==> 0 <= cursor < |session.candles|
    ensures r.Ok? ==> r.value == ReplayOf(session, cursor)
  {
    if cursor < 0 || cursor >= |session.candles| {
      return Err("Cursor outside dataset");
    }
    var index: TimeIndex := map[];
    for i := 0 to |session.candles|
      invariant index == IndexOf(session.candles[..i])
    {
      assert Init(session.candles[..i + 1]) == session.candles[..i];
      index := index[session.candles[i].time := i];
    }
    assert session.candles[..|session.candles|] == session.candles;
    var trades: seq<TradeView>, balanceAtExit: map<int, real> := [], map[];
    for k := 0 to |session.trades|
      invariant trades == TradeViews(index, session.trades[..k], cursor)
      invariant balanceAtExit == ExitBalances(index, session.trades[..k], cursor)
    {
      var trade := session.trades[k];
      assert Init(session.trades[..k + 1]) == session.trades[..k];
      var entry, exit := index[trade.entryTime], index[trade.exitTime];
      if entry <= cursor {
        var item := TradeView(trade.id, entry, trade.entryTime, trade.direction, trade.entryPrice, trade.stop,
                              trade.target, trade.quantity, trade.balanceBefore, None);
        if exit <= cursor {
          item := item.(exit := Some(ExitView(exit, trade.exitTime, trade.exitPrice, trade.reason,
                                              trade.net, trade.balanceAfter)));
          balanceAtExit := balanceAtExit[exit := trade.balanceAfter];
        }
        trades := trades + [item];
      }
    }
    assert session.trades[..|session.trades|] == session.trades;
    var curve := BalanceCurve(session.candles, session.initialCapital, balanceAtExit, cursor + 1);
    var complete := cursor == |session.candles| - 1;
    return Ok(View(cursor, complete, IndexedCandles(session.candles, session.indicators, cursor + 1),
                   UpTo(session.decisions, cursor), trades, curve,
                   if complete then Some(Metrics(session.endingCapital, session.maximumDrawdown)) else None));
  }

  method BalanceCurve(candles: seq<Candle>, initial: real, exits: map<int, real>, n: nat) returns (curve: seq<BalancePoint>)
    requires n <= |candles|
    ensures curve == CurveFrom(candles, initial, Carried(initial, exits, n))
  {
    var balance, peak := initial, initial;
    curve := [];
    ghost var full := [initial] + Carried(initial, exits, n);
    for i := 0 to n
      invariant |curve| == i
      invariant balance == if i == 0 then initial else CarriedBalance(initial, exits, i - 1)
      invariant peak == Peak(full, i)
      invariant forall k :: 0 <= k < i ==> curve[k] == PointAt(candles, initial, Carried(initial, exits, n), k)
    {
      balance := if i in exits then exits[i] else balance;
      var (top, drawdown, percent) := BalanceDrawdown(balance, peak);
      peak := top;
      curve := curve + [BalancePoint(i, candles[i].time, balance, drawdown, percent)];
    }
  }
}
