/**
  Exactly which configurations let a loss exceed the balance, so that the engine's limit at zero
  changes what a trade books.
*/
module Clamp {
  import opened Prelude
  import opened Models
  import opened Sizing
  import opened Indicators
  import opened Engine
  import opened Runner
  import opened Runs
  import opened Capital
  import opened Explanation
  import opened Replay
  import opened LiveReplay

  /** The trade books something other than its gross result less its costs. */
  predicate Clamped(t: Trade) {
    t.net != t.gross - t.costs
  }

  /** Some trade of the run on these candles is clamped. */
  ghost predicate ClampsOn(job: Job, candles: seq<Candle>) {
    && Legal(job, candles)
    && exists k :: 0 <= k < |RunState(job, Frame(candles)).trades| && Clamped(RunState(job, Frame(candles)).trades[k])
  }

  /** The smallest loss at the stop any admissible trade can risk: one increment over the closest stop. */
  function SmallestLoss(cfg: Config): real {
    INCREMENT * (cfg.risk.minAtr * cfg.exec.stopMultiple)
  }

  /**
    Risking more than half, paying a fee, and able to trade on a balance the fee can push below zero.
    The last condition is met by every percentage of 100 and by every minimum ATR of zero.
  */
  predicate CanClamp(cfg: Config) {
    && cfg.risk.percent > 50.0 && cfg.exec.fee > 0.0
    && Share(SmallestLoss(cfg), 100.0 - cfg.risk.percent) < Share(cfg.exec.fee, cfg.risk.percent)
  }

  // ---------------------------------------------------------------- a clamped trade needs such a configuration

  lemma ShareAs(amount: real, percent: real, r: real)
    requires percent == 100.0 * r
    ensures Share(amount, percent) == r * amount && Share(amount, 100.0 - percent) == (1.0 - r) * amount
  {
  }

  lemma Room(before: real, percent: real, fee: real, loss: real, smallest: real)
    requires before > 0.0 && 0.0 < percent <= 100.0 && fee >= 0.0
    requires fee < Share(before, percent) && smallest <= loss <= Share(before, percent) && before < loss + fee
    ensures percent > 50.0 && fee > 0.0 && Share(smallest, 100.0 - percent) < Share(fee, percent)
  {
    var r := percent / 100.0;
    ShareAs(before, percent, r);
    ShareAs(smallest, percent, r);
    ShareAs(fee, percent, r);
    hide Share;
    RoomOf(before, r, fee, smallest, r * before);
  }

  lemma RoomOf(before: real, r: real, fee: real, smallest: real, amount: real)
    requires before > 0.0 && 0.0 < r <= 1.0 && amount == r * before
    requires fee < amount && smallest <= amount && before < amount + fee
    ensures r > 0.5 && fee > 0.0 && (1.0 - r) * smallest < r * fee
  {
    Bracket(before, r, amount);
    MulStrict(before - amount, fee, r);
    Swap(before, r, amount);
    MulMonotone(smallest, amount, 1.0 - r);
    Chain((1.0 - r) * smallest, (1.0 - r) * amount, r * (before - amount), r * fee);
  }

  lemma Bracket(before: real, r: real, amount: real)
    requires before > 0.0 && r <= 1.0 && amount == r * before
    ensures amount <= before && (r <= 0.5 ==> amount <= before / 2.0)
  {
    Product(1.0 - r, before);
    assert (1.0 - r) * before == before - amount;
    if r <= 0.5 {
      Product(0.5 - r, before);
      assert (0.5 - r) * before == before / 2.0 - amount;
    }
  }

  lemma Chain(a: real, b: real, c: real, d: real)
    requires a <= b && b == c && c < d
    ensures a < d
  {
  }

  lemma Swap(before: real, r: real, amount: real)
    requires amount == r * before
    ensures r * (before - amount) == (1.0 - r) * amount
  {
  }

  /** The loss at the stop of an explained trade: bounded below by the smallest and above by the risk. */
  lemma LossAtStop(job: Job, ix: TimeIndex, rows: seq<Row>, t: Trade)
    requires job.cfg.Valid() && Explained(job, ix, rows, t)
    ensures var loss := t.quantity * Abs(t.entryPrice - t.stop);
            t.quantity > 0.0 && SmallestLoss(job.cfg) <= loss <= job.cfg.RiskAmount(t.balanceBefore)
  {
    hide Sized, Entry, Ends, QuietThrough, Config.RiskAmount, Abs;
    StopDistance(job, ix, rows, t);
    SizedLoss(job.cfg, t.balanceBefore, LevelsOf(t), t.quantity, job.cfg.risk.minAtr * job.cfg.exec.stopMultiple);
  }

  lemma SizedLoss(cfg: Config, balance: real, v: Levels, quantity: real, closest: real)
    requires Sized(cfg, balance, v, quantity) && Abs(v.entry - v.stop) >= closest
    ensures quantity > 0.0 && INCREMENT * closest <= quantity * Abs(v.entry - v.stop) <= cfg.RiskAmount(balance)
  {
    AuthorizedAmount(cfg, balance, v.entry, v.stop);
    var distance, amount := Abs(v.entry - v.stop), cfg.RiskAmount(balance);
    hide AuthorizeCash, Authorize, Share, Config.RiskAmount, Safe, Abs;
    AuthorizeIsLargestSafeQuantity(amount, distance);
    var n: int :| quantity == Grid(n) && forall m: int :: Safe(m, amount, distance) <==> m <= n;
    OneIncrement(n, distance, closest);
  }

  lemma OneIncrement(n: int, distance: real, closest: real)
    requires Grid(n) > 0.0 && distance >= closest && distance > 0.0
    ensures INCREMENT * closest <= Grid(n) * distance
  {
    assert n >= 1;
    MulMonotone(INCREMENT, Grid(n), distance);
    assert INCREMENT * closest <= INCREMENT * distance;
  }

  lemma StopDistance(job: Job, ix: TimeIndex, rows: seq<Row>, t: Trade)
    requires job.cfg.Valid() && Explained(job, ix, rows, t)
    ensures Abs(t.entryPrice - t.stop) >= job.cfg.risk.minAtr * job.cfg.exec.stopMultiple
  {
    hide Sized, Ends, QuietThrough;
    var atr := rows[At(ix, t.signalTime)].atr.value;
    MulMonotone(job.cfg.risk.minAtr, atr, job.cfg.exec.stopMultiple);
    assert atr * job.cfg.exec.stopMultiple >= 0.0;
  }

  lemma GrossAboveStop(job: Job, ix: TimeIndex, rows: seq<Row>, t: Trade)
    requires job.cfg.Valid() && Explained(job, ix, rows, t) && Banded(t.direction, t.stop, t.exitPrice, t.target)
    requires t.quantity > 0.0
    ensures t.gross >= -(t.quantity * Abs(t.entryPrice - t.stop))
  {
    hide Sized, Entry, Ends, QuietThrough;
    var move := Side(t.direction) * (t.exitPrice - t.entryPrice);
    assert move >= -Abs(t.entryPrice - t.stop);
    MulMonotone(-Abs(t.entryPrice - t.stop), move, t.quantity);
  }

  /** A clamped trade of any run shows that its configuration can clamp. */
  lemma ClampNeedsRoom(job: Job, candles: seq<Candle>, k: nat)
    requires Legal(job, candles) && k < |RunState(job, Frame(candles)).trades|
    requires Clamped(RunState(job, Frame(candles)).trades[k])
    ensures CanClamp(job.cfg)
  {
    var rows, ix := Frame(candles), IndexOf(candles);
    hide Frame, RunState, Explained, Banded, Share, Abs, SmallestLoss;
    IndexOfIndexes(candles);
    RunLedger(job, rows);
    RunPrudent(job, rows);
    EveryTradeExplained(job, ix, rows);
    var s := RunState(job, rows);
    var t := s.trades[k];
    assert t.net == s.equity[k + 1] - s.equity[k];
    assert TradeRisk(job.cfg, t) && Explained(job, ix, rows, t);
    LossAtStop(job, ix, rows, t);
    GrossAboveStop(job, ix, rows, t);
    Room(t.balanceBefore, job.cfg.risk.percent, job.cfg.exec.fee, t.quantity * Abs(t.entryPrice - t.stop), SmallestLoss(job.cfg));
  }

  // ---------------------------------------------------------------- and every such configuration has a clamped run

  /** The amount risked, as cash, and what follows from it: the balance, the stop distance and the ATR. */
  datatype Trap = Trap(cfg: Config, amount: real)
  {
    function Balance(): real
      requires cfg.Valid()
    {
      amount * 100.0 / cfg.risk.percent
    }

    function Distance(): real {
      amount / INCREMENT
    }

    function Atr(): real
      requires cfg.Valid()
    {
      Distance() / cfg.exec.stopMultiple
    }

    predicate Set() {
      && cfg.Valid() && amount > cfg.exec.fee && amount >= SmallestLoss(cfg)
      && Balance() < amount + cfg.exec.fee
    }

    /** Calm candles of constant range, then one that falls through the stop. */
    function At(i: nat): Candle
      requires cfg.Valid()
    {
      var price := Distance() + 1.0;
      Candle(i, price, price + Atr(), if i <= WARMUP then price else 1.0, price, None, "")
    }

    function Candles(): (candles: seq<Candle>)
      requires cfg.Valid()
      ensures |candles| == WARMUP + 2
    {
      seq(WARMUP + 2, i requires 0 <= i < WARMUP + 2 => At(i))
    }

    function Backtest(): Job
      requires cfg.Valid()
    {
      Job(cfg, Strategy((_) => "", (_, _) => Signal(Some(Buy), 100, [], None, None, None)), Balance(), None, None)
    }
  }

  lemma TrapAmount(fee: real, smallest: real, r: real) returns (amount: real)
    requires 0.5 < r <= 1.0 && fee > 0.0 && (1.0 - r) * smallest < r * fee
    ensures amount > fee && amount >= smallest && (1.0 - r) * amount < r * fee
  {
    var lo := Max(fee, smallest);
    MulStrict(1.0 - r, r, fee);
    var slack := r * fee - (1.0 - r) * lo;
    assert slack > 0.0;
    amount := lo + slack;
    MulStrict(0.0, r, slack);
    assert (1.0 - r) * amount == (1.0 - r) * lo + slack - r * slack;
  }

  /** A configuration that can clamp has an amount that sets the trap. */
  lemma TrapCanBeSet(cfg: Config) returns (trap: Trap)
    requires cfg.Valid() && CanClamp(cfg)
    ensures trap.cfg == cfg && trap.Set()
  {
    var r := cfg.risk.percent / 100.0;
    ShareAs(SmallestLoss(cfg), cfg.risk.percent, r);
    ShareAs(cfg.exec.fee, cfg.risk.percent, r);
    hide Share, SmallestLoss;
    var amount := TrapAmount(cfg.exec.fee, SmallestLoss(cfg), r);
    trap := Trap(cfg, amount);
    BalanceBelow(amount, cfg.risk.percent, r, cfg.exec.fee);
  }

  lemma BalanceBelow(amount: real, percent: real, r: real, fee: real)
    requires percent == 100.0 * r && r > 0.0 && (1.0 - r) * amount < r * fee
    ensures amount * 100.0 / percent < amount + fee
  {
    var b := amount * 100.0 / percent;
    assert b * r == amount;
    if b >= amount + fee {
      MulMonotone(amount + fee, b, r);
      assert false;
    }
  }

  // ---------------------------------------------------------------- the run

  lemma TrapNumbers(trap: Trap)
    requires trap.Set()
    ensures trap.amount > 0.0 && trap.Distance() > 0.0 && trap.Atr() > 0.0 && trap.Balance() > 0.0
    ensures trap.Atr() * trap.cfg.exec.stopMultiple == trap.Distance()
    ensures trap.Atr() >= trap.cfg.risk.minAtr
    ensures Share(trap.Balance(), trap.cfg.risk.percent) == trap.amount <= trap.Balance()
    ensures AuthorizeCash(trap.amount, trap.Distance()) == Authorized(INCREMENT, trap.amount)
  {
    var cfg, d := trap.cfg, trap.Distance();
    assert INCREMENT * d == trap.amount;
    AtrIsEnough(d, cfg.risk.minAtr, cfg.exec.stopMultiple);
    BalanceIsEnough(trap.amount, cfg.risk.percent);
    assert trap.amount / d == INCREMENT;
    assert Top(trap.amount, d) == 1;
    AuthorizeIsTop(trap.amount, d);
  }

  lemma AtrIsEnough(distance: real, minAtr: real, multiple: real)
    requires multiple > 0.0 && distance > 0.0 && INCREMENT * (minAtr * multiple) <= INCREMENT * distance
    ensures distance / multiple * multiple == distance && distance / multiple > 0.0 && distance / multiple >= minAtr
  {
    var atr := distance / multiple;
    assert atr * multiple == distance;
    if atr < minAtr {
      MulStrict(atr, minAtr, multiple);
      assert false;
    }
  }

  lemma BalanceIsEnough(amount: real, percent: real)
    requires amount > 0.0 && 0.0 < percent <= 100.0
    ensures Share(amount * 100.0 / percent, percent) == amount <= amount * 100.0 / percent
  {
    var b := amount * 100.0 / percent;
    assert b * percent == amount * 100.0;
    if b < amount {
      MulStrict(b, amount, percent);
      MulMonotone(percent, 100.0, amount);
      assert false;
    }
  }

  lemma TrapIsLegal(trap: Trap)
    requires trap.Set()
    ensures Legal(trap.Backtest(), trap.Candles())
  {
    TrapNumbers(trap);
    hide Trap.Atr, Trap.Distance, Trap.Balance, Share, AuthorizeCash;
  }

  function Times(n: nat, c: real): real {
    n as real * c
  }

  lemma OneMore(n: nat, m: nat, c: real)
    requires m == n + 1
    ensures Times(m, c) == Times(n, c) + c
  {
  }

  lemma {:induction false} SumOfConstant(xs: Column, c: real)
    requires forall i :: 0 <= i < |xs| ==> xs[i] == Some(c)
    ensures SumDefined(xs) == Some(Times(|xs|, c))
  {
    if xs != [] {
      SumOfConstant(Init(xs), c);
      OneMore(|Init(xs)|, |xs|, c);
      hide Times;
      assert Last(xs) == Some(c);
    }
  }

  /** Candles of constant range have that range as their ATR. */
  lemma TrapAtr(trap: Trap)
    requires trap.Set()
    ensures Frame(trap.Candles())[WARMUP].atr == Some(trap.Atr())
  {
    TrapNumbers(trap);
    hide Trap.Atr, Trap.Distance, Trap.Balance, Share, AuthorizeCash;
    var candles := trap.Candles();
    var ranges := TrueRanges(candles);
    var window := ranges[WARMUP + 1 - WINDOW..WARMUP + 1];
    forall i | 0 <= i < |window| ensures window[i] == Some(trap.Atr()) {
      assert window[i] == Some(TrueRange(candles, WARMUP + 1 - WINDOW + i));
    }
    SumOfConstant(window, trap.Atr());
    assert WindowMean(ranges, WARMUP) == Some(trap.Atr());
  }

  function TrapPending(trap: Trap): Pending
    requires trap.cfg.Valid()
  {
    Pending(Buy, 100, WARMUP, trap.Atr())
  }

  /** The first evaluated candle queues the entry. */
  lemma TrapIsQueued(trap: Trap)
    requires trap.Set()
    ensures var s := Loop(trap.Backtest(), Frame(trap.Candles()), WARMUP + 1);
            && s.balance == trap.Balance() && s.trades == [] && s.position == None
            && s.pending == Some(TrapPending(trap))
  {
    TrapNumbers(trap);
    TrapAtr(trap);
    hide Trap.Atr, Trap.Distance, Trap.Balance, Trap.Candles, Share, AuthorizeCash, Frame;
    var rows := Frame(trap.Candles());
    assert Loop(trap.Backtest(), rows, WARMUP) == Initial(trap.Balance());
  }

  /** The next candle opens at one increment, falls through the stop, and the loss exceeds the balance. */
  lemma TrapSprings(trap: Trap, s: State, rows: seq<Row>)
    requires trap.Set() && rows == Frame(trap.Candles()) && s.PlacedBy(WARMUP + 1)
    requires s.balance == trap.Balance() && s.trades == [] && s.position == None && s.pending == Some(TrapPending(trap))
    ensures var r := AfterCandle(trap.cfg, s, WARMUP + 1, rows);
            |r.trades| == 1 && Clamped(r.trades[0]) && r.position == None
  {
    var n, p := WARMUP + 1, TrapPending(trap);
    var c := rows[n].candle;
    var entry := EntryPrice(trap.cfg, p, c.open);
    var stop := StopPrice(trap.cfg, p, entry);
    assert c == trap.At(n);
    TrapNumbers(trap);
    AuthorizedAmount(trap.cfg, trap.Balance(), entry, stop);
    AdverseIsWorse(trap.cfg, p, c.open);
    TrapOpens(trap, s, rows);
    var m := Opened(trap.cfg, s, n, rows);
    hide Opened, EntryPrice, TargetPrice, Authorize, AuthorizeCash, Share, Frame, Trap.Balance, Trap.Atr, Trap.Candles;
    assert StopHit(m.position.value, c);
    assert GrossOf(m.position.value, stop) == -trap.amount;
  }

  lemma AdverseIsWorse(cfg: Config, p: Pending, open: real)
    requires cfg.Valid() && p.direction.Buy? && p.atr > 0.0
    ensures EntryPrice(cfg, p, open) >= open
  {
    var x := cfg.exec;
    Product(p.atr, x.spreadAtr);
    Product(p.atr, x.slippageAtr);
    assert p.atr * (x.spreadAtr + x.slippageAtr) == p.atr * x.spreadAtr + p.atr * x.slippageAtr;
  }

  lemma TrapOpens(trap: Trap, s: State, rows: seq<Row>)
    requires trap.Set() && rows == Frame(trap.Candles()) && s.PlacedBy(WARMUP + 1)
    requires s.balance == trap.Balance() && s.trades == [] && s.position == None && s.pending == Some(TrapPending(trap))
    ensures var p := TrapPending(trap);
            var entry := EntryPrice(trap.cfg, p, rows[WARMUP + 1].candle.open);
            Opened(trap.cfg, s, WARMUP + 1, rows) ==
            s.(pending := None,
               position := Some(Position(Buy, WARMUP, WARMUP + 1, entry, entry - trap.Distance(),
                                         TargetPrice(trap.cfg, p, entry), INCREMENT, trap.Balance())))
  {
    hide EntryPrice, TargetPrice, StopPrice, Authorize, AuthorizeCash, Share, Frame, SmallestLoss, Trap.Balance, Trap.Atr, Trap.Candles, Trap.Distance, Entered;
    var n, p := WARMUP + 1, TrapPending(trap);
    TrapNumbers(trap);
    TrapIsSized(trap, p, EntryPrice(trap.cfg, p, rows[n].candle.open));
    EnteredAs(trap.cfg, s, n, rows[n], INCREMENT, trap.amount);
  }

  /** Entering with an affordable, authorised size. */
  lemma EnteredAs(cfg: Config, s: State, n: nat, row: Row, quantity: real, loss: real)
    requires s.pending.Some?
    requires var p, amount := s.pending.value, cfg.RiskAmount(s.balance);
             var entry := EntryPrice(cfg, p, row.candle.open);
             && p.atr * cfg.exec.stopMultiple > 0.0 && cfg.exec.fee < amount <= s.balance
             && Authorize(s.balance, cfg.risk.percent, entry, StopPrice(cfg, p, entry)) == Authorized(quantity, loss)
    ensures var p := s.pending.value;
            var entry := EntryPrice(cfg, p, row.candle.open);
            Entered(cfg, s, n, row) ==
            s.(position := Some(Position(p.direction, p.signalIndex, n, entry, StopPrice(cfg, p, entry),
                                         TargetPrice(cfg, p, entry), quantity, s.balance)))
  {
    hide EntryPrice, TargetPrice, StopPrice, Authorize, Config.RiskAmount;
  }

  lemma TrapIsSized(trap: Trap, p: Pending, entry: real)
    requires trap.Set() && p == TrapPending(trap)
    ensures StopPrice(trap.cfg, p, entry) == entry - trap.Distance()
    ensures Authorize(trap.Balance(), trap.cfg.risk.percent, entry, entry - trap.Distance()) == Authorized(INCREMENT, trap.amount)
  {
    TrapNumbers(trap);
    AuthorizedAmount(trap.cfg, trap.Balance(), entry, entry - trap.Distance());
    hide Authorize, AuthorizeCash, Share, Trap.Set, Trap.Balance, Trap.Atr, Trap.Distance;
    assert Abs(entry - (entry - trap.Distance())) == trap.Distance();
  }

  lemma TrapClamps(trap: Trap)
    requires trap.Set()
    ensures ClampsOn(trap.Backtest(), trap.Candles())
  {
    var job, rows := trap.Backtest(), Frame(trap.Candles());
    var n := WARMUP + 1;
    TrapIsLegal(trap);
    TrapIsQueued(trap);
    var s := Loop(job, rows, n);
    TrapSprings(trap, s, rows);
    hide AfterCandle, Trap.Candles, Trap.Balance, Legal, Frame, Clamped;
    var r := AfterCandle(trap.cfg, s, n, rows);
    SignalKeeps(trap.cfg, r, SignalAt(job, rows, n), n, rows);
    assert Loop(job, rows, n + 1) == AfterSignal(trap.cfg, r, SignalAt(job, rows, n), n, rows);
    hide AfterSignal, Loop;
    assert RunState(job, rows).trades == r.trades;
  }

  lemma SignalKeeps(cfg: Config, s: State, signal: Signal, n: nat, rows: seq<Row>)
    requires n < |rows| && s.PlacedBy(n)
    ensures var r := AfterSignal(cfg, s, signal, n, rows); r.trades == s.trades && r.position == s.position
  {
    hide Verdict;
  }

  /**
    The exact condition: a configuration admits a run with a clamped trade if and only if it risks
    more than half the balance, charges a fee, and can still size a trade on a balance that the stop
    and the fee together exhaust.
  */
  lemma ClampsIff(cfg: Config)
    requires cfg.Valid()
    ensures (exists job: Job, candles: seq<Candle> :: job.cfg == cfg && ClampsOn(job, candles)) <==> CanClamp(cfg)
  {
    hide RunState, Frame, Legal, CanClamp;
    if job: Job, candles: seq<Candle> :| job.cfg == cfg && ClampsOn(job, candles) {
      var k :| 0 <= k < |RunState(job, Frame(candles)).trades| && Clamped(RunState(job, Frame(candles)).trades[k]);
      ClampNeedsRoom(job, candles, k);
    }
    if CanClamp(cfg) {
      var trap := TrapCanBeSet(cfg);
      TrapClamps(trap);
      assert trap.Backtest().cfg == cfg && ClampsOn(trap.Backtest(), trap.Candles());
    }
  }

  /** Where no ATR is too small, the condition is just more than half and a fee. */
  lemma CanClampWithoutMinimum(cfg: Config)
    requires cfg.Valid() && cfg.risk.minAtr == 0.0
    ensures CanClamp(cfg) <==> cfg.risk.percent > 50.0 && cfg.exec.fee > 0.0
  {
    var r := cfg.risk.percent / 100.0;
    ShareAs(SmallestLoss(cfg), cfg.risk.percent, r);
    ShareAs(cfg.exec.fee, cfg.risk.percent, r);
    assert SmallestLoss(cfg) == 0.0;
    hide Share;
    if cfg.exec.fee > 0.0 {
      MulStrict(0.0, cfg.exec.fee, r);
    }
  }

  /** More than half and a fee are not enough: with a large minimum ATR no trade fits the balances at stake. */
  lemma HalfAndFeeAreNotEnough()
    ensures var cfg := Config(Risk(60.0, 70, 2000000000000.0, 30.0), Execution(0.0, 0.0, 1.0, 19, 1.0, 3.0, 0.0, 0.0));
            cfg.Valid() && !CanClamp(cfg)
  {
  }
}
