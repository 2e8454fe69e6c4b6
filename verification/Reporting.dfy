/**
  Figures reported about a run: the drawdown and streak loops of backtesting/backtest.py,
  analytics/performance.py and api/service.py, before rounding.
*/
module Reporting {
  import opened Prelude
  import opened Models
  import opened Runner
  import opened Capital

  // ---------------------------------------------------------------- drawdown

  /** The largest fall from any value to any later one. */
  ghost predicate IsMaxDrawdown(curve: seq<real>, d: real) {
    && (forall i, j :: 0 <= i <= j < |curve| ==> curve[i] - curve[j] <= d)
    && (exists i, j :: 0 <= i <= j < |curve| && curve[i] - curve[j] == d)
  }

  function Peak(curve: seq<real>, j: nat): real
    requires j < |curve|
  {
    if j == 0 then curve[0] else Max(Peak(curve, j - 1), curve[j])
  }

  function DrawdownAt(curve: seq<real>, j: nat): real
    requires j < |curve|
  {
    Peak(curve, j) - curve[j]
  }

  function PercentOf(amount: real, peak: real): real {
    if peak != 0.0 then amount / peak * 100.0 else 0.0
  }

  /** balance_drawdown */
  function BalanceDrawdown(balance: real, peak: real): (real, real, real) {
    var top := Max(peak, balance);
    (top, top - balance, PercentOf(top - balance, top))
  }

  lemma {:induction false} PeakIsHighest(curve: seq<real>, j: nat)
    requires j < |curve|
    ensures forall i :: 0 <= i <= j ==> curve[i] <= Peak(curve, j)
    ensures exists i :: 0 <= i <= j && curve[i] == Peak(curve, j)
  {
    if j == 0 {
      assert curve[0] == Peak(curve, 0);
    } else {
      PeakIsHighest(curve, j - 1);
      assert curve[j] <= Peak(curve, j);
    }
  }

  lemma PeakExtends(curve: seq<real>, more: seq<real>, j: nat)
    requires j < |curve| && curve <= more
    ensures Peak(curve, j) == Peak(more, j)
  {
  }

  /** A bound on the running drawdowns that one of them attains is the maximum drawdown. */
  lemma RunningMaximum(curve: seq<real>, d: real)
    requires forall j :: 0 <= j < |curve| ==> DrawdownAt(curve, j) <= d
    requires exists j :: 0 <= j < |curve| && DrawdownAt(curve, j) == d
    ensures IsMaxDrawdown(curve, d)
  {
    forall i, j | 0 <= i <= j < |curve| ensures curve[i] - curve[j] <= d {
      PeakIsHighest(curve, j);
      assert DrawdownAt(curve, j) <= d;
    }
    var j :| 0 <= j < |curve| && DrawdownAt(curve, j) == d;
    PeakIsHighest(curve, j);
    var i :| 0 <= i <= j && curve[i] == Peak(curve, j);
    assert curve[i] - curve[j] == d;
  }

  lemma MaxDrawdownUnique(curve: seq<real>, d: real, e: real)
    requires IsMaxDrawdown(curve, d) && IsMaxDrawdown(curve, e)
    ensures d == e
  {
  }

  /** This many hundredths of the peak; of a zero peak, none. */
  predicate IsPercent(percent: real, amount: real, peak: real) {
    if peak == 0.0 then percent == 0.0 else percent * peak == 100.0 * amount
  }

  lemma PercentOfIs(amount: real, peak: real)
    ensures IsPercent(PercentOf(amount, peak), amount, peak)
  {
    if peak != 0.0 {
      assert amount / peak * peak == amount;
    }
  }

  /** The percentage booked with the drawdown: relative to the peak where the maximum is first reached. */
  ghost predicate IsFirstPercent(curve: seq<real>, d: real, percent: real) {
    exists j :: 0 <= j < |curve| && DrawdownAt(curve, j) == d && IsPercent(percent, d, Peak(curve, j))
             && forall i :: 0 <= i < j ==> DrawdownAt(curve, i) < d
  }

  /** The loop of build_backtest_result. */
  method ResultDrawdown(equity: seq<real>) returns (maximum: real, percent: real)
    requires equity != []
    ensures IsMaxDrawdown(equity, maximum) && IsFirstPercent(equity, maximum, percent)
  {
    var peak := equity[0];
    maximum, percent := 0.0, 0.0;
    ghost var at := 0;
    for k := 0 to |equity|
      invariant peak == if k == 0 then equity[0] else Peak(equity, k - 1)
      invariant at < |equity| && (at < k || at == 0)
      invariant DrawdownAt(equity, at) == maximum && percent == PercentOf(maximum, Peak(equity, at))
      invariant forall j :: 0 <= j < k ==> DrawdownAt(equity, j) <= maximum
      invariant forall j :: 0 <= j < at ==> DrawdownAt(equity, j) < maximum
    {
      var (top, drawdown, share) := BalanceDrawdown(equity[k], peak);
      peak := top;
      if drawdown > maximum {
        maximum, percent := drawdown, share;
        at := k;
      }
    }
    RunningMaximum(equity, maximum);
    PercentOfIs(maximum, Peak(equity, at));
  }

  /** The loop of calculate_performance. */
  method PerformanceDrawdown(equity: seq<real>) returns (maximum: real)
    requires equity != []
    ensures IsMaxDrawdown(equity, maximum)
  {
    var peak := equity[0];
    maximum := 0.0;
    ghost var at := 0;
    for k := 0 to |equity|
      invariant peak == if k == 0 then equity[0] else Peak(equity, k - 1)
      invariant at < |equity| && DrawdownAt(equity, at) == maximum
      invariant forall j :: 0 <= j < k ==> DrawdownAt(equity, j) <= maximum
    {
      if equity[k] > peak {
        peak := equity[k];
      }
      var drawdown := peak - equity[k];
      if drawdown > maximum {
        maximum := drawdown;
        at := k;
      }
    }
    RunningMaximum(equity, maximum);
  }

  /** Running totals of the profits, from zero. */
  function Cumulative(profits: seq<real>): (c: seq<real>)
    ensures |c| == |profits| + 1
  {
    if profits == [] then [0.0] else
    var c := Cumulative(Init(profits));
    c + [Last(c) + Last(profits)]
  }

  lemma {:induction false} CumulativeAt(profits: seq<real>, k: nat)
    requires k <= |profits|
    ensures Cumulative(profits)[..k + 1] == Cumulative(profits[..k])
    ensures Cumulative(profits)[k] == Sum(profits[..k])
  {
    if k == |profits| {
      assert profits[..k] == profits;
      if k > 0 {
        CumulativeAt(Init(profits), k - 1);
        assert Init(profits)[..k - 1] == Init(profits);
      }
    } else {
      CumulativeAt(Init(profits), k);
      assert Init(profits)[..k] == profits[..k];
    }
  }

  /** _maximum_realized_drawdown: the peak starts at zero, before any profit. */
  method RealizedDrawdown(profits: seq<real>) returns (maximum: real)
    ensures IsMaxDrawdown(Cumulative(profits), maximum)
  {
    var cumulative, peak := 0.0, 0.0;
    maximum := 0.0;
    ghost var curve := Cumulative(profits);
    ghost var at := 0;
    CumulativeAt(profits, 0);
    for k := 0 to |profits|
      invariant cumulative == curve[k] && peak == Peak(curve, k)
      invariant at < |curve| && DrawdownAt(curve, at) == maximum
      invariant forall j :: 0 <= j <= k ==> DrawdownAt(curve, j) <= maximum
    {
      CumulativeAt(profits, k);
      CumulativeAt(profits, k + 1);
      assert Init(profits[..k + 1]) == profits[..k];
      cumulative := cumulative + profits[k];
      peak := Max(peak, cumulative);
      if peak - cumulative > maximum { at := k + 1; }
      maximum := Max(maximum, peak - cumulative);
    }
    RunningMaximum(curve, maximum);
  }

  lemma EquityAt(start: real, trades: seq<Trade>, equity: seq<real>, k: nat)
    requires CurveOf(start, trades, equity) && k <= |trades|
    ensures equity[k] == start + Cumulative(Nets(trades))[k]
  {
    CumulativeAt(Nets(trades), k);
    NetsTelescope(start, trades[..k], equity[..k + 1]);
    assert Nets(trades)[..k] == Nets(trades[..k]);
  }

  lemma ShiftKeepsDrawdown(a: seq<real>, b: seq<real>, shift: real, d: real)
    requires |a| == |b| && forall k :: 0 <= k < |a| ==> a[k] == shift + b[k]
    requires IsMaxDrawdown(a, d)
    ensures IsMaxDrawdown(b, d)
  {
    var i, j :| 0 <= i <= j < |a| && a[i] - a[j] == d;
    assert b[i] - b[j] == d;
    forall i, j | 0 <= i <= j < |b| ensures b[i] - b[j] <= d {
      assert a[i] - a[j] <= d;
    }
  }

  /** On every run the drawdown of the equity curve is the drawdown of the realised profits. */
  lemma DrawdownsAgree(job: Job, rows: seq<Row>, d: real)
    requires job.cfg.Valid() && job.balance > 0.0
    ensures var s := RunState(job, rows);
            IsMaxDrawdown(s.equity, d) <==> IsMaxDrawdown(Cumulative(Nets(s.trades)), d)
  {
    hide RunState, IsMaxDrawdown, Sum, CountIf;
    RunLedger(job, rows);
    var s := RunState(job, rows);
    var profits := Cumulative(Nets(s.trades));
    forall k | 0 <= k < |s.equity| ensures s.equity[k] == job.balance + profits[k] {
      EquityAt(job.balance, s.trades, s.equity, k);
    }
    if IsMaxDrawdown(s.equity, d) {
      ShiftKeepsDrawdown(s.equity, profits, job.balance, d);
    }
    if IsMaxDrawdown(profits, d) {
      ShiftKeepsDrawdown(profits, s.equity, -job.balance, d);
    }
  }

  // ---------------------------------------------------------------- streaks

  ghost predicate RunOf(xs: seq<real>, p: real -> bool, i: int, n: int) {
    0 <= i <= i + n <= |xs| && forall k :: i <= k < i + n ==> p(xs[k])
  }

  ghost predicate IsLongestRun(xs: seq<real>, p: real -> bool, n: nat) {
    && (exists i :: RunOf(xs, p, i, n))
    && (forall i, m :: RunOf(xs, p, i, m) ==> m <= n)
  }

  /** Length of the run that ends the sequence, and of the longest run anywhere in it. */
  function Trailing(xs: seq<real>, p: real -> bool): nat {
    if xs == [] || !p(Last(xs)) then 0 else Trailing(Init(xs), p) + 1
  }

  function Longest(xs: seq<real>, p: real -> bool): nat {
    if xs == [] then 0 else
    var before, now := Longest(Init(xs), p), Trailing(xs, p);
    if before >= now then before else now
  }

  lemma {:induction false} TrailingIsRun(xs: seq<real>, p: real -> bool)
    ensures RunOf(xs, p, |xs| - Trailing(xs, p), Trailing(xs, p))
    ensures forall i, m :: RunOf(xs, p, i, m) && i + m == |xs| ==> m <= Trailing(xs, p)
  {
    if xs != [] {
      TrailingIsRun(Init(xs), p);
      forall i, m | RunOf(xs, p, i, m) && i + m == |xs| ensures m <= Trailing(xs, p) {
        if m > 0 {
          assert p(xs[|xs| - 1]);
          assert RunOf(Init(xs), p, i, m - 1);
        }
      }
    }
  }

  lemma {:induction false} LongestIsLongestRun(xs: seq<real>, p: real -> bool)
    ensures IsLongestRun(xs, p, Longest(xs, p))
  {
    TrailingIsRun(xs, p);
    if xs == [] {
      assert RunOf(xs, p, 0, 0);
    } else {
      var before := Longest(Init(xs), p);
      LongestIsLongestRun(Init(xs), p);
      var at :| RunOf(Init(xs), p, at, before);
      assert RunOf(xs, p, at, before);
      forall i, m | RunOf(xs, p, i, m) ensures m <= Longest(xs, p) {
        if i + m < |xs| {
          assert RunOf(Init(xs), p, i, m);
        }
      }
    }
  }

  ghost predicate AreStreaks(pnls: seq<real>, wins: nat, losses: nat) {
    IsLongestRun(pnls, x => x > 0.0, wins) && IsLongestRun(pnls, x => x < 0.0, losses)
  }

  /** The paired updates of build_backtest_result. */
  method ResultStreaks(pnls: seq<real>) returns (maxWins: nat, maxLosses: nat)
    ensures AreStreaks(pnls, maxWins, maxLosses)
  {
    var winRun, lossRun: nat := 0, 0;
    maxWins, maxLosses := 0, 0;
    for k := 0 to |pnls|
      invariant winRun == Trailing(pnls[..k], x => x > 0.0) && lossRun == Trailing(pnls[..k], x => x < 0.0)
      invariant maxWins == Longest(pnls[..k], x => x > 0.0) && maxLosses == Longest(pnls[..k], x => x < 0.0)
    {
      assert Init(pnls[..k + 1]) == pnls[..k];
      winRun, lossRun :=
        if pnls[k] > 0.0 then winRun + 1 else 0,
        if pnls[k] > 0.0 then 0 else if pnls[k] < 0.0 then lossRun + 1 else 0;
      maxWins := if winRun > maxWins then winRun else maxWins;
      maxLosses := if lossRun > maxLosses then lossRun else maxLosses;
    }
    assert pnls[..|pnls|] == pnls;
    LongestIsLongestRun(pnls, x => x > 0.0);
    LongestIsLongestRun(pnls, x => x < 0.0);
  }

  /** The branching updates of calculate_performance. */
  method PerformanceStreaks(profits: seq<real>) returns (maxWin: nat, maxLoss: nat)
    ensures AreStreaks(profits, maxWin, maxLoss)
  {
    var win, loss: nat := 0, 0;
    maxWin, maxLoss := 0, 0;
    for k := 0 to |profits|
      invariant win == Trailing(profits[..k], x => x > 0.0) && loss == Trailing(profits[..k], x => x < 0.0)
      invariant maxWin == Longest(profits[..k], x => x > 0.0) && maxLoss == Longest(profits[..k], x => x < 0.0)
    {
      assert Init(profits[..k + 1]) == profits[..k];
      if profits[k] > 0.0 {
        win := win + 1;
        loss := 0;
      } else if profits[k] < 0.0 {
        loss := loss + 1;
        win := 0;
      } else {
        win, loss := 0, 0;
      }
      if win > maxWin { maxWin := win; }
      if loss > maxLoss { maxLoss := loss; }
    }
    assert profits[..|profits|] == profits;
    LongestIsLongestRun(profits, x => x > 0.0);
    LongestIsLongestRun(profits, x => x < 0.0);
  }

  lemma StreaksUnique(pnls: seq<real>, w1: nat, l1: nat, w2: nat, l2: nat)
    requires AreStreaks(pnls, w1, l1) && AreStreaks(pnls, w2, l2)
    ensures w1 == w2 && l1 == l2
  {
  }
}
