/**
  The indicator frame (core/indicators.py): whole-column operators in the style of pandas,
  composed into EMA50, EMA200, RSI and ATR. None is the value pandas reports as missing.
*/
module Indicators {
  import opened Prelude
  import opened Models

  type Column = seq<Option<real>>

  const WINDOW := 14

  /** The exponential moving average in its recursive, unadjusted form. */
  function Ewm(xs: seq<real>, span: nat): (ys: seq<real>)
    ensures |ys| == |xs|
  {
    if xs == [] then [] else
    var before := Ewm(Init(xs), span);
    var alpha := 2.0 / (span + 1) as real;
    before + [if before == [] then Last(xs) else (1.0 - alpha) * Last(before) + alpha * Last(xs)]
  }

  /** Difference to the previous value. */
  function Diff(xs: seq<real>): (ys: Column)
    ensures |ys| == |xs|
  {
    seq(|xs|, i requires 0 <= i < |xs| => if i == 0 then None else Some(xs[i] - xs[i - 1]))
  }

  function SumDefined(xs: Column): Option<real> {
    if xs == [] then Some(0.0) else
    match (SumDefined(Init(xs)), Last(xs))
    case (Some(sum), Some(x)) => Some(sum + x)
    case _ => None
  }

  /** Mean over the last WINDOW values: missing until the window is full of present values. */
  function RollingMean(xs: Column): (ys: Column)
    ensures |ys| == |xs|
  {
    seq(|xs|, i requires 0 <= i < |xs| => WindowMean(xs, i))
  }

  function WindowMean(xs: Column, i: nat): Option<real>
    requires i < |xs|
  {
    if i + 1 < WINDOW then None else
    match SumDefined(xs[i + 1 - WINDOW..i + 1])
    case None => None
    case Some(sum) => Some(sum / WINDOW as real)
  }

  function Gain(delta: Option<real>): Option<real> {
    if delta.None? then None else Some(Max(delta.value, 0.0))
  }

  function Loss(delta: Option<real>): Option<real> {
    if delta.None? then None else Some(-Min(delta.value, 0.0))
  }

  /** Relative strength on a scale of 100, with the float conventions for a zero average loss. */
  function RsiValue(gain: Option<real>, loss: Option<real>): Option<real> {
    match (gain, loss)
    case (Some(g), Some(l)) =>
      if l != 0.0 then (if 1.0 + g / l == 0.0 then None else Some(100.0 - 100.0 / (1.0 + g / l)))
      else if g == 0.0 then None
      else Some(100.0)
    case _ => None
  }

  function Map<A, B>(f: A -> B, xs: seq<A>): (ys: seq<B>)
    ensures |ys| == |xs|
    ensures forall i :: 0 <= i < |xs| ==> ys[i] == f(xs[i])
  {
    seq(|xs|, i requires 0 <= i < |xs| => f(xs[i]))
  }

  function Rsi(closes: seq<real>): (ys: Column)
    ensures |ys| == |closes|
  {
    var delta := Diff(closes);
    var gains := RollingMean(Map(Gain, delta));
    var losses := RollingMean(Map(Loss, delta));
    seq(|closes|, i requires 0 <= i < |closes| => RsiValue(gains[i], losses[i]))
  }

  function TrueRange(candles: seq<Candle>, i: nat): real
    requires i < |candles|
  {
    var c := candles[i];
    if i == 0 then c.high - c.low else
    var previous := candles[i - 1].close;
    Max(c.high - c.low, Max(Abs(c.high - previous), Abs(c.low - previous)))
  }

  function TrueRanges(candles: seq<Candle>): (ys: Column)
    ensures |ys| == |candles|
  {
    seq(|candles|, i requires 0 <= i < |candles| => Some(TrueRange(candles, i)))
  }

  function Closes(candles: seq<Candle>): (xs: seq<real>)
    ensures |xs| == |candles|
  {
    seq(|candles|, i requires 0 <= i < |candles| => candles[i].close)
  }

  /** calculate_indicators over the whole dataset at once. */
  function Frame(candles: seq<Candle>): (rows: seq<Row>)
    ensures |rows| == |candles|
    ensures forall i :: 0 <= i < |rows| ==> rows[i].candle == candles[i]
  {
    var closes := Closes(candles);
    var ema50, ema200 := Ewm(closes, 50), Ewm(closes, 200);
    var rsi, atr := Rsi(closes), RollingMean(TrueRanges(candles));
    seq(|candles|, i requires 0 <= i < |candles| => Row(candles[i], ema50[i], ema200[i], rsi[i], atr[i]))
  }

  // Every operator is causal: its first k outputs need only its first k inputs.

  lemma {:induction false} EwmCausal(xs: seq<real>, span: nat, k: nat)
    requires k <= |xs|
    ensures Ewm(xs, span)[..k] == Ewm(xs[..k], span)
  {
    if k == |xs| {
      assert xs[..k] == xs;
    } else {
      EwmCausal(Init(xs), span, k);
      assert Init(xs)[..k] == xs[..k];
    }
  }

  lemma RollingMeanCausal(xs: Column, k: nat)
    requires k <= |xs|
    ensures RollingMean(xs)[..k] == RollingMean(xs[..k])
  {
    forall i | 0 <= i < k ensures WindowMean(xs, i) == WindowMean(xs[..k], i) {
      if i + 1 >= WINDOW {
        assert xs[..k][i + 1 - WINDOW..i + 1] == xs[i + 1 - WINDOW..i + 1];
      }
    }
  }

  lemma RsiCausal(closes: seq<real>, k: nat)
    requires k <= |closes|
    ensures Rsi(closes)[..k] == Rsi(closes[..k])
  {
    var delta := Diff(closes);
    assert delta[..k] == Diff(closes[..k]);
    assert Map(Gain, delta)[..k] == Map(Gain, delta[..k]);
    assert Map(Loss, delta)[..k] == Map(Loss, delta[..k]);
    RollingMeanCausal(Map(Gain, delta), k);
    RollingMeanCausal(Map(Loss, delta), k);
  }

  /** Computing once on the whole dataset and slicing equals computing on the slice alone. */
  lemma FrameCausal(candles: seq<Candle>, k: nat)
    requires k <= |candles|
    ensures Frame(candles)[..k] == Frame(candles[..k])
  {
    var closes := Closes(candles);
    assert closes[..k] == Closes(candles[..k]);
    EwmCausal(closes, 50, k);
    EwmCausal(closes, 200, k);
    RsiCausal(closes, k);
    assert TrueRanges(candles)[..k] == TrueRanges(candles[..k]);
    RollingMeanCausal(TrueRanges(candles), k);
    var part := Frame(candles[..k]);
    forall i | 0 <= i < k ensures Frame(candles)[i] == part[i] {
      assert Ewm(closes, 50)[..k][i] == Ewm(closes, 50)[i];
      assert Ewm(closes, 200)[..k][i] == Ewm(closes, 200)[i];
      assert Rsi(closes)[..k][i] == Rsi(closes)[i];
      assert RollingMean(TrueRanges(candles))[..k][i] == RollingMean(TrueRanges(candles))[i];
    }
  }

  lemma {:induction false} SumDefinedTotal(xs: Column)
    requires forall i :: 0 <= i < |xs| ==> xs[i].Some?
    ensures SumDefined(xs).Some?
  {
    if xs != [] {
      SumDefinedTotal(Init(xs));
    }
  }

  /** ATR is missing exactly on the first WINDOW - 1 rows, so never where the runner evaluates. */
  lemma AtrDefined(candles: seq<Candle>, i: nat)
    requires i < |candles|
    ensures Frame(candles)[i].atr.Some? <==> i + 1 >= WINDOW
  {
    if i + 1 >= WINDOW {
      SumDefinedTotal(TrueRanges(candles)[i + 1 - WINDOW..i + 1]);
    }
  }

  // ---------------------------------------------------------------- ranges

  lemma Mix(a: real, b: real, alpha: real, lo: real, hi: real)
    requires lo <= a <= hi && lo <= b <= hi && 0.0 <= alpha <= 1.0
    ensures lo <= (1.0 - alpha) * a + alpha * b <= hi
  {
    Product(1.0 - alpha, a - lo);
    Product(alpha, b - lo);
    Product(1.0 - alpha, hi - a);
    Product(alpha, hi - b);
    assert (1.0 - alpha) * a + alpha * b - lo == (1.0 - alpha) * (a - lo) + alpha * (b - lo);
    assert hi - ((1.0 - alpha) * a + alpha * b) == (1.0 - alpha) * (hi - a) + alpha * (hi - b);
  }

  predicate Within(xs: seq<real>, lo: real, hi: real) {
    forall i :: 0 <= i < |xs| ==> lo <= xs[i] <= hi
  }

  /** A moving average never leaves the range of the prices it averages. */
  lemma {:induction false} EwmWithin(xs: seq<real>, span: nat, lo: real, hi: real)
    requires span > 0 && Within(xs, lo, hi)
    ensures Within(Ewm(xs, span), lo, hi)
  {
    if xs != [] {
      EwmWithin(Init(xs), span, lo, hi);
      var alpha := 2.0 / (span + 1) as real;
      assert 0.0 <= alpha <= 1.0;
      if |xs| > 1 {
        Mix(Last(Ewm(Init(xs), span)), Last(xs), alpha, lo, hi);
      }
    }
  }

  predicate Nonnegative(xs: Column) {
    forall i :: 0 <= i < |xs| && xs[i].Some? ==> xs[i].value >= 0.0
  }

  lemma {:induction false} SumNonnegative(xs: Column)
    requires Nonnegative(xs)
    ensures SumDefined(xs).Some? ==> SumDefined(xs).value >= 0.0
  {
    if xs != [] {
      SumNonnegative(Init(xs));
    }
  }

  lemma MeanNonnegative(xs: Column, i: nat)
    requires Nonnegative(xs) && i < |xs|
    ensures WindowMean(xs, i).Some? ==> WindowMean(xs, i).value >= 0.0
  {
    if i + 1 >= WINDOW {
      SumNonnegative(xs[i + 1 - WINDOW..i + 1]);
    }
  }

  lemma RsiValueInRange(gain: real, loss: real)
    requires gain >= 0.0 && loss >= 0.0
    ensures var r := RsiValue(Some(gain), Some(loss)); r.Some? ==> 0.0 <= r.value <= 100.0
  {
    if loss != 0.0 {
      var q := 1.0 + gain / loss;
      assert q >= 1.0;
      assert 0.0 <= 100.0 / q <= 100.0;
    }
  }

  /** RSI lies between 0 and 100 wherever it is defined. */
  lemma RsiInRange(closes: seq<real>, i: nat)
    requires i < |closes| && Rsi(closes)[i].Some?
    ensures 0.0 <= Rsi(closes)[i].value <= 100.0
  {
    var delta := Diff(closes);
    var gains, losses := Map(Gain, delta), Map(Loss, delta);
    MeanNonnegative(gains, i);
    MeanNonnegative(losses, i);
    hide WindowMean, SumDefined, RsiValue;
    var g, l := WindowMean(gains, i), WindowMean(losses, i);
    assert Rsi(closes)[i] == RsiValue(g, l);
    RsiDefined(g, l);
    RsiValueInRange(g.value, l.value);
  }

  lemma RsiDefined(gain: Option<real>, loss: Option<real>)
    requires RsiValue(gain, loss).Some?
    ensures gain.Some? && loss.Some?
  {
  }
}
