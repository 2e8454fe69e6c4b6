/** What the indicator columns mean: the equations that define each of them, from the candles alone. */
module FrameMeaning {
  import opened Prelude
  import opened Models
  import opened Indicators

  // ---------------------------------------------------------------- moving averages

  /** An unadjusted exponential average: it starts at the first value and moves by two parts in span + 1. */
  predicate IsAverage(ys: seq<real>, xs: seq<real>, span: nat) {
    && |ys| == |xs| && (xs != [] ==> ys[0] == xs[0])
    && forall i :: 1 <= i < |xs| ==> (span + 1) as real * ys[i] == 2.0 * xs[i] + (span as real - 1.0) * ys[i - 1]
  }

  lemma AverageStep(span: nat, before: real, x: real)
    ensures var alpha := 2.0 / (span + 1) as real;
            (span + 1) as real * ((1.0 - alpha) * before + alpha * x) == 2.0 * x + (span as real - 1.0) * before
  {
    var n := (span + 1) as real;
    var alpha := 2.0 / n;
    assert n * alpha == 2.0;
    assert n * ((1.0 - alpha) * before + alpha * x) == n * before - n * alpha * before + n * alpha * x;
  }

  lemma {:induction false} EwmMoves(xs: seq<real>, span: nat, i: nat)
    requires 1 <= i < |xs|
    ensures (span + 1) as real * Ewm(xs, span)[i] == 2.0 * xs[i] + (span as real - 1.0) * Ewm(xs, span)[i - 1]
  {
    var before := Ewm(Init(xs), span);
    assert Ewm(xs, span)[i - 1] == before[i - 1];
    if i < |xs| - 1 {
      EwmMoves(Init(xs), span, i);
      assert Ewm(xs, span)[i] == before[i];
    } else {
      AverageStep(span, Last(before), Last(xs));
    }
  }

  lemma {:induction false} EwmStarts(xs: seq<real>, span: nat)
    requires xs != []
    ensures Ewm(xs, span)[0] == xs[0]
  {
    if |xs| > 1 {
      EwmStarts(Init(xs), span);
    } else {
      assert Ewm(Init(xs), span) == [];
    }
  }

  lemma EwmIsAverage(xs: seq<real>, span: nat)
    ensures IsAverage(Ewm(xs, span), xs, span)
  {
    hide Ewm;
    if xs != [] {
      EwmStarts(xs, span);
    }
    forall i | 1 <= i < |xs|
      ensures (span + 1) as real * Ewm(xs, span)[i] == 2.0 * xs[i] + (span as real - 1.0) * Ewm(xs, span)[i - 1]
    {
      EwmMoves(xs, span, i);
    }
  }

  // ---------------------------------------------------------------- relative strength

  /** Sum of the rises over the n steps that end at candle i. */
  function Rises(xs: seq<real>, i: int, n: nat): real
    requires n <= i < |xs|
  {
    if n == 0 then 0.0 else Rises(xs, i - 1, n - 1) + if xs[i] > xs[i - 1] then xs[i] - xs[i - 1] else 0.0
  }

  /** Sum of the falls over the n steps that end at candle i, counted positive. */
  function Falls(xs: seq<real>, i: int, n: nat): real
    requires n <= i < |xs|
  {
    if n == 0 then 0.0 else Falls(xs, i - 1, n - 1) + if xs[i] < xs[i - 1] then xs[i - 1] - xs[i] else 0.0
  }

  lemma {:induction false} SumOfGains(xs: seq<real>, i: int, n: nat)
    requires n <= i < |xs|
    ensures SumDefined(Map(Gain, Diff(xs))[i + 1 - n..i + 1]) == Some(Rises(xs, i, n))
  {
    var column := Map(Gain, Diff(xs));
    if n > 0 {
      SumOfGains(xs, i - 1, n - 1);
      assert Init(column[i + 1 - n..i + 1]) == column[i - 1 + 1 - (n - 1)..i - 1 + 1];
    }
  }

  lemma {:induction false} SumOfLosses(xs: seq<real>, i: int, n: nat)
    requires n <= i < |xs|
    ensures SumDefined(Map(Loss, Diff(xs))[i + 1 - n..i + 1]) == Some(Falls(xs, i, n))
  {
    var column := Map(Loss, Diff(xs));
    if n > 0 {
      SumOfLosses(xs, i - 1, n - 1);
      assert Init(column[i + 1 - n..i + 1]) == column[i - 1 + 1 - (n - 1)..i - 1 + 1];
    }
  }

  lemma {:induction false} SumsNonnegative(xs: seq<real>, i: int, n: nat)
    requires n <= i < |xs|
    ensures Rises(xs, i, n) >= 0.0 && Falls(xs, i, n) >= 0.0
  {
    if n > 0 {
      SumsNonnegative(xs, i - 1, n - 1);
    }
  }

  /** Before the fourteenth step the window reaches the missing first difference. */
  lemma {:induction false} SumMissing(column: Column)
    requires column != [] && column[0].None?
    ensures SumDefined(column).None?
  {
    if |column| > 1 {
      SumMissing(Init(column));
    }
  }

  /** The relative strength of averages u / 14 and d / 14. */
  lemma StrengthOf(u: real, d: real)
    requires u >= 0.0 && d >= 0.0
    ensures var r := RsiValue(Some(u / 14.0), Some(d / 14.0));
            (r.Some? <==> u + d > 0.0) && (r.Some? ==> r.value * (u + d) == 100.0 * u)
  {
    var g, l := u / 14.0, d / 14.0;
    if d > 0.0 {
      var q := 1.0 + g / l;
      assert g == g / l * l;
      assert q * l == g + l;
      assert q >= 1.0;
      var r := 100.0 - 100.0 / q;
      assert 100.0 / q * q == 100.0;
      assert r * q == 100.0 * q - 100.0;
      assert r * (q * l) == (r * q) * l;
      assert r * (g + l) == 100.0 * g;
    }
  }

  /** RSI from closes alone: with the sums of rises and falls over the last 14 steps, 100 rises / (rises + falls). */
  predicate IsStrength(r: Option<real>, xs: seq<real>, i: int)
    requires 0 <= i < |xs|
  {
    if i < 14 then r.None?
    else
      var u, d := Rises(xs, i, 14), Falls(xs, i, 14);
      (r.Some? <==> u + d > 0.0) && (r.Some? ==> r.value * (u + d) == 100.0 * u)
  }

  lemma MeanOf(column: Column, i: nat, sum: real)
    requires 14 <= i < |column| && SumDefined(column[i + 1 - 14..i + 1]) == Some(sum)
    ensures WindowMean(column, i) == Some(sum / 14.0)
  {
    hide SumDefined;
  }

  lemma RsiIsStrength(xs: seq<real>, i: nat)
    requires i < |xs|
    ensures IsStrength(Rsi(xs)[i], xs, i)
  {
    hide SumDefined, RsiValue, Rises, Falls, WindowMean, Diff, Map;
    RsiFromMeans(xs, i);
    if i >= 14 {
      SumOfGains(xs, i, 14);
      SumOfLosses(xs, i, 14);
      SumsNonnegative(xs, i, 14);
      StrengthOf(Rises(xs, i, 14), Falls(xs, i, 14));
      MeanOf(Map(Gain, Diff(xs)), i, Rises(xs, i, 14));
      MeanOf(Map(Loss, Diff(xs)), i, Falls(xs, i, 14));
    } else {
      NoMeanYet(xs, i);
    }
  }

  lemma RsiFromMeans(xs: seq<real>, i: nat)
    requires i < |xs|
    ensures Rsi(xs)[i] == RsiValue(WindowMean(Map(Gain, Diff(xs)), i), WindowMean(Map(Loss, Diff(xs)), i))
  {
    hide WindowMean, RsiValue, Diff, Map;
  }

  /** The window is not full, or reaches the missing first difference. */
  lemma NoMeanYet(xs: seq<real>, i: nat)
    requires i < |xs| && i < 14
    ensures RsiValue(WindowMean(Map(Gain, Diff(xs)), i), WindowMean(Map(Loss, Diff(xs)), i)) == None
  {
    if i == 13 {
      SumMissing(Map(Gain, Diff(xs))[0..14]);
    }
  }

  // ---------------------------------------------------------------- true range

  /** How far a candle reaches, the previous close included. */
  function Reach(high: real, low: real, previous: real): real {
    Max(high, previous) - Min(low, previous)
  }

  /** Sum of the reaches over the n candles that end at candle i. The first candle has no previous close. */
  function Reaches(candles: seq<Candle>, i: int, n: nat): real
    requires n <= i + 1 <= |candles|
  {
    if n == 0 then 0.0 else
    Reaches(candles, i - 1, n - 1)
    + (if i == 0 then candles[0].high - candles[0].low else Reach(candles[i].high, candles[i].low, candles[i - 1].close))
  }

  lemma RangeIsReach(candles: seq<Candle>, i: nat)
    requires i < |candles| && candles[i].Valid()
    ensures TrueRange(candles, i) == if i == 0 then candles[0].high - candles[0].low
                                     else Reach(candles[i].high, candles[i].low, candles[i - 1].close)
  {
  }

  lemma {:induction false} SumOfRanges(candles: seq<Candle>, i: int, n: nat)
    requires n <= i + 1 <= |candles| && forall k :: 0 <= k < |candles| ==> candles[k].Valid()
    ensures SumDefined(TrueRanges(candles)[i + 1 - n..i + 1]) == Some(Reaches(candles, i, n))
  {
    var column := TrueRanges(candles);
    if n > 0 {
      SumOfRanges(candles, i - 1, n - 1);
      RangeIsReach(candles, i);
      hide TrueRange, Reach;
      assert Init(column[i + 1 - n..i + 1]) == column[i - 1 + 1 - (n - 1)..i - 1 + 1];
    }
  }

  // ---------------------------------------------------------------- the frame

  /** The columns of one row, each by its own equation. */
  ghost predicate Defines(candles: seq<Candle>, rows: seq<Row>) {
    && |rows| == |candles|
    && (forall i :: 0 <= i < |rows| ==> rows[i].candle == candles[i])
    && IsAverage(Fifties(rows), Closes(candles), 50)
    && IsAverage(TwoHundreds(rows), Closes(candles), 200)
    && (forall i :: 0 <= i < |rows| ==> IsStrength(rows[i].rsi, Closes(candles), i))
    && (forall i :: 0 <= i < |rows| ==> (rows[i].atr.Some? <==> i >= 13))
    && (forall i :: 13 <= i < |rows| ==> 14.0 * rows[i].atr.value == Reaches(candles, i, 14))
  }

  function Fifties(rows: seq<Row>): seq<real> {
    seq(|rows|, i requires 0 <= i < |rows| => rows[i].ema50)
  }

  function TwoHundreds(rows: seq<Row>): seq<real> {
    seq(|rows|, i requires 0 <= i < |rows| => rows[i].ema200)
  }

  lemma FrameColumns(candles: seq<Candle>)
    ensures var rows, closes := Frame(candles), Closes(candles);
            && Fifties(rows) == Ewm(closes, 50) && TwoHundreds(rows) == Ewm(closes, 200)
            && forall i :: 0 <= i < |rows| ==> rows[i].rsi == Rsi(closes)[i] && rows[i].atr == WindowMean(TrueRanges(candles), i)
  {
    hide Ewm, Rsi, WindowMean, TrueRanges;
  }

  lemma AtrIs(candles: seq<Candle>, i: nat)
    requires i < |candles| && forall k :: 0 <= k < |candles| ==> candles[k].Valid()
    ensures var atr := WindowMean(TrueRanges(candles), i);
            (atr.Some? <==> i >= 13) && (i >= 13 ==> 14.0 * atr.value == Reaches(candles, i, 14))
  {
    if i >= 13 {
      SumOfRanges(candles, i, 14);
    }
    hide SumDefined, Reaches, TrueRanges;
  }

  /** The frame's columns satisfy their defining equations. */
  lemma FrameDefines(candles: seq<Candle>)
    requires forall k :: 0 <= k < |candles| ==> candles[k].Valid()
    ensures Defines(candles, Frame(candles))
  {
    hide Frame, Fifties, TwoHundreds, IsAverage, IsStrength, Reaches, WindowMean, Ewm, Rsi, Candle.Valid;
    var rows, closes := Frame(candles), Closes(candles);
    FrameColumns(candles);
    EwmIsAverage(closes, 50);
    EwmIsAverage(closes, 200);
    forall i | 0 <= i < |rows|
      ensures IsStrength(rows[i].rsi, closes, i)
      ensures (rows[i].atr.Some? <==> i >= 13) && (i >= 13 ==> 14.0 * rows[i].atr.value == Reaches(candles, i, 14))
    {
      RsiIsStrength(closes, i);
      AtrIs(candles, i);
    }
  }

  lemma {:induction false} AverageUnique(xs: seq<real>, ys: seq<real>, zs: seq<real>, span: nat, i: nat)
    requires IsAverage(ys, xs, span) && IsAverage(zs, xs, span) && i < |xs|
    ensures ys[i] == zs[i]
  {
    if i > 0 {
      AverageUnique(xs, ys, zs, span, i - 1);
      MulCancel(ys[i], zs[i], (span + 1) as real);
    }
  }

  /** The equations leave no freedom: any two frames that satisfy them are equal. */
  lemma DefinesUnique(candles: seq<Candle>, rows: seq<Row>, others: seq<Row>)
    requires Defines(candles, rows) && Defines(candles, others)
    ensures rows == others
  {
    hide IsAverage, Rises, Falls, Reaches;
    var closes := Closes(candles);
    forall i | 0 <= i < |rows| ensures rows[i] == others[i] {
      AverageUnique(closes, Fifties(rows), Fifties(others), 50, i);
      AverageUnique(closes, TwoHundreds(rows), TwoHundreds(others), 200, i);
      StrengthUnique(closes, i, rows[i].rsi, others[i].rsi);
      assert rows[i].ema50 == Fifties(rows)[i] && others[i].ema50 == Fifties(others)[i];
      assert rows[i].ema200 == TwoHundreds(rows)[i] && others[i].ema200 == TwoHundreds(others)[i];
    }
  }

  lemma StrengthUnique(xs: seq<real>, i: nat, r: Option<real>, s: Option<real>)
    requires i < |xs| && IsStrength(r, xs, i) && IsStrength(s, xs, i)
    ensures r == s
  {
    hide Rises, Falls;
    if r.Some? && s.Some? {
      MulCancel(r.value, s.value, Rises(xs, i, 14) + Falls(xs, i, 14));
    }
  }
}
