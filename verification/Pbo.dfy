/** Probability of backtest overfitting (analytics/pbo.py): mid-ranks of the selected model, split by split. */
module Pbo {
  import opened Prelude

  type Matrix = seq<seq<real>>

  datatype PboResult = PboResult(models: nat, ranks: seq<real>, degraded: nat, pbo: real)

  predicate Shaped(m: Matrix, models: nat) {
    forall c :: 0 <= c < |m| ==> |m[c]| == models
  }

  /** The first index of the largest value. */
  function Best(row: seq<real>): (m: nat)
    requires row != []
    ensures m < |row|
    ensures forall i :: 0 <= i < |row| ==> row[i] <= row[m]
    ensures forall i :: 0 <= i < m ==> row[i] < row[m]
  {
    if |row| == 1 then 0 else
    var m := Best(Init(row));
    if Last(row) > Init(row)[m] then |row| - 1 else m
  }

  function Less(row: seq<real>, x: real): (n: nat) {
    if row == [] then 0 else Less(Init(row), x) + if Last(row) < x then 1 else 0
  }

  function Equal(row: seq<real>, x: real): (n: nat) {
    if row == [] then 0 else Equal(Init(row), x) + if Last(row) == x then 1 else 0
  }

  /** Models that did better than x; the source never counts them. */
  function Greater(row: seq<real>, x: real): (n: nat) {
    if row == [] then 0 else Greater(Init(row), x) + if Last(row) > x then 1 else 0
  }

  /** Relative mid-rank of x among the row. */
  function Omega(row: seq<real>, x: real): real {
    (Less(row, x) as real + 1.0 + 0.5 * (Equal(row, x) as real - 1.0)) / (|row| as real + 1.0)
  }

  /** Out-of-sample relative rank of the model that won in sample. */
  function Rank(isRow: seq<real>, oosRow: seq<real>): real
    requires isRow != [] && |isRow| == |oosRow|
  {
    Omega(oosRow, oosRow[Best(isRow)])
  }

  function Ranks(insample: Matrix, oos: Matrix, models: nat): (r: seq<real>)
    requires models > 0 && |insample| == |oos| && Shaped(insample, models) && Shaped(oos, models)
    ensures |r| == |oos|
  {
    seq(|oos|, c requires 0 <= c < |oos| => Rank(insample[c], oos[c]))
  }

  /** Splits whose rank satisfies omega <= 1/2. */
  function Degraded(ranks: seq<real>): nat {
    if ranks == [] then 0 else Degraded(Init(ranks)) + if Last(ranks) <= 0.5 then 1 else 0
  }

  function Halves(ranks: seq<real>): nat {
    if ranks == [] then 0 else Halves(Init(ranks)) + if Last(ranks) == 0.5 then 1 else 0
  }

  method CalculatePbo(insample: Matrix, oos: Matrix) returns (result: Result<PboResult>)
    ensures result.Ok? <==>
              |insample| > 0 && |oos| == |insample| && insample[0] != []
              && Shaped(insample, |insample[0]|) && Shaped(oos, |insample[0]|)
    ensures result.Ok? ==>
              && result.value.models == |insample[0]|
              && result.value.ranks == Ranks(insample, oos, |insample[0]|)
              && result.value.degraded == Degraded(result.value.ranks)
              && result.value.pbo == result.value.degraded as real / |insample| as real
              && 0.0 <= result.value.pbo <= 1.0
  {
    if |insample| == 0 || |oos| != |insample| {
      return Err("Dimension mismatch");
    }
    var models := |insample[0]|;
    if models == 0 {
      return Err("is_matrix must contain at least one model column");
    }
    var shaped := CheckShape(insample, oos, models);
    if !shaped {
      return Err("Split has the wrong number of models");
    }
    var ranks, degraded := RankSplits(insample, oos, models);
    DegradedBound(ranks);
    hide Ranks, Degraded, Shaped;
    Fraction(degraded, |insample|);
    return Ok(PboResult(models, ranks, degraded, degraded as real / |insample| as real));
  }

  lemma Fraction(k: nat, n: nat)
    requires k <= n && n > 0
    ensures 0.0 <= k as real / n as real <= 1.0
  {
  }

  /** The validation pass over both matrices. */
  method CheckShape(insample: Matrix, oos: Matrix, models: nat) returns (ok: bool)
    requires |insample| == |oos|
    ensures ok <==> Shaped(insample, models) && Shaped(oos, models)
  {
    for c := 0 to |insample|
      invariant forall i :: 0 <= i < c ==> |insample[i]| == models && |oos[i]| == models
    {
      if |insample[c]| != models || |oos[c]| != models {
        return false;
      }
    }
    return true;
  }

  /** The loop over splits. */
  method RankSplits(insample: Matrix, oos: Matrix, models: nat) returns (ranks: seq<real>, degraded: nat)
    requires models > 0 && |insample| == |oos| && Shaped(insample, models) && Shaped(oos, models)
    ensures ranks == Ranks(insample, oos, models) && degraded == Degraded(ranks)
  {
    ghost var all := Ranks(insample, oos, models);
    hide Rank;
    ranks, degraded := [], 0;
    for c := 0 to |insample|
      invariant ranks == all[..c]
      invariant degraded == Degraded(ranks)
    {
      var omega := Rank(insample[c], oos[c]);
      assert all[c] == omega && Init(ranks + [omega]) == ranks;
      ranks := ranks + [omega];
      if omega <= 0.5 {
        degraded := degraded + 1;
      }
    }
  }

  lemma {:induction false} DegradedBound(ranks: seq<real>)
    ensures Degraded(ranks) <= |ranks|
  {
    if ranks != [] {
      DegradedBound(Init(ranks));
    }
  }

  // ---------------------------------------------------------------- ranks

  lemma {:induction false} CountsCover(row: seq<real>, x: real)
    ensures Less(row, x) + Equal(row, x) + Greater(row, x) == |row|
    ensures x in row ==> Equal(row, x) >= 1
  {
    if row != [] {
      CountsCover(Init(row), x);
      assert row == Init(row) + [Last(row)];
    }
  }

  lemma OmegaTimes(row: seq<real>, x: real)
    ensures Omega(row, x) * (|row| as real + 1.0) == Less(row, x) as real + 0.5 + 0.5 * Equal(row, x) as real
  {
  }

  /** Every relative rank lies strictly between 0 and 1, by at least one step of the grid. */
  lemma OmegaInside(row: seq<real>, x: real)
    requires x in row
    ensures 0.0 < 1.0 / (|row| as real + 1.0) <= Omega(row, x) <= |row| as real / (|row| as real + 1.0) < 1.0
  {
    CountsCover(row, x);
    hide Less, Equal, Greater;
    var n := |row| as real + 1.0;
    var rank := Less(row, x) as real + 1.0 + 0.5 * (Equal(row, x) as real - 1.0);
    assert 1.0 <= rank <= |row| as real;
    DivideInside(rank, n);
  }

  lemma DivideInside(rank: real, n: real)
    requires n > 1.0 && 1.0 <= rank <= n - 1.0
    ensures 0.0 < 1.0 / n <= rank / n <= (n - 1.0) / n < 1.0
  {
    assert rank / n - 1.0 / n == (rank - 1.0) / n;
    assert (n - 1.0) / n - rank / n == (n - 1.0 - rank) / n;
    assert (n - 1.0) / n == 1.0 - 1.0 / n;
  }

  lemma RanksInside(insample: Matrix, oos: Matrix, models: nat, c: nat)
    requires models > 0 && |insample| == |oos| && Shaped(insample, models) && Shaped(oos, models) && c < |oos|
    ensures 0.0 < Ranks(insample, oos, models)[c] < 1.0
  {
    OmegaInside(oos[c], oos[c][Best(insample[c])]);
    hide Omega;
  }

  /** A split degrades exactly when at least as many models beat the selected one as it beats. */
  lemma DegradedIffNotAhead(row: seq<real>, x: real)
    ensures Omega(row, x) <= 0.5 <==> Less(row, x) <= Greater(row, x)
    ensures Omega(row, x) == 0.5 <==> Less(row, x) == Greater(row, x)
  {
    CountsCover(row, x);
    OmegaTimes(row, x);
    hide Less, Equal, Greater, Omega;
    CompareHalf(Omega(row, x), Less(row, x) as real, Equal(row, x) as real, Greater(row, x) as real);
  }

  lemma CompareHalf(w: real, less: real, equal: real, greater: real)
    requires less >= 0.0 && equal >= 0.0 && greater >= 0.0
    requires w * (less + equal + greater + 1.0) == less + 0.5 + 0.5 * equal
    ensures w <= 0.5 <==> less <= greater
    ensures w == 0.5 <==> less == greater
  {
    var n := less + equal + greater + 1.0;
    SignOfProduct(w - 0.5, n);
    assert (w - 0.5) * n == w * n - 0.5 * n;
    assert (w - 0.5) * n == 0.5 * less - 0.5 * greater;
  }

  lemma SignOfProduct(a: real, n: real)
    requires n > 0.0
    ensures a > 0.0 <==> a * n > 0.0
    ensures a == 0.0 <==> a * n == 0.0
  {
    if a < 0.0 { assert (-a) * n > 0.0; }
  }

  // ---------------------------------------------------------------- what a rank is

  function Below(row: seq<real>, x: real): set<int> {
    set i | 0 <= i < |row| && row[i] < x
  }

  function Level(row: seq<real>, x: real): set<int> {
    set i | 0 <= i < |row| && row[i] == x
  }

  lemma {:induction false} CountsAre(row: seq<real>, x: real)
    ensures Less(row, x) == |Below(row, x)| && Equal(row, x) == |Level(row, x)|
  {
    if row != [] {
      var n := |row| - 1;
      CountsAre(Init(row), x);
      assert Below(row, x) == Below(Init(row), x) + if row[n] < x then {n} else {};
      assert Level(row, x) == Level(Init(row), x) + if row[n] == x then {n} else {};
    }
  }

  /** The first model with the best in-sample value. */
  predicate IsFirstBest(row: seq<real>, m: int) {
    && 0 <= m < |row|
    && (forall i :: 0 <= i < |row| ==> row[i] <= row[m])
    && (forall i :: 0 <= i < m ==> row[i] < row[m])
  }

  /** The middle of the places the models with this value share, on a scale of one more than there are models. */
  predicate IsMidRank(omega: real, row: seq<real>, x: real) {
    omega * (|row| + 1) as real == |Below(row, x)| as real + (|Level(row, x)| + 1) as real / 2.0
  }

  /** Each rank is the out-of-sample mid-rank of the first model that is best in sample. */
  lemma RanksAre(insample: Matrix, oos: Matrix, models: nat, c: nat)
    requires models > 0 && |insample| == |oos| && Shaped(insample, models) && Shaped(oos, models) && c < |oos|
    ensures exists m :: IsFirstBest(insample[c], m) && IsMidRank(Ranks(insample, oos, models)[c], oos[c], oos[c][m])
  {
    var m := Best(insample[c]);
    OmegaIsMidRank(oos[c], oos[c][m]);
    hide Omega, IsMidRank;
    assert IsFirstBest(insample[c], m);
    assert Ranks(insample, oos, models)[c] == Omega(oos[c], oos[c][m]);
  }

  lemma OmegaIsMidRank(row: seq<real>, x: real)
    ensures IsMidRank(Omega(row, x), row, x)
  {
    CountsAre(row, x);
    OmegaTimes(row, x);
    hide Less, Equal, Omega, Below, Level;
    var n := |row| as real + 1.0;
    assert (|row| + 1) as real == n;
    assert (|Level(row, x)| + 1) as real / 2.0 == 0.5 + 0.5 * |Level(row, x)| as real;
  }

  /** Splits ranked at the median or below. */
  function AtMostMedian(ranks: seq<real>): set<int> {
    set c | 0 <= c < |ranks| && ranks[c] <= 0.5
  }

  /** The degraded splits, as a set. */
  lemma {:induction false} DegradedAre(ranks: seq<real>)
    ensures Degraded(ranks) == |AtMostMedian(ranks)|
  {
    if ranks != [] {
      var n := |ranks| - 1;
      DegradedAre(Init(ranks));
      assert AtMostMedian(ranks) == AtMostMedian(Init(ranks)) + if ranks[n] <= 0.5 then {n} else {};
    }
  }

  // ---------------------------------------------------------------- reflection

  function Negated(row: seq<real>): (r: seq<real>)
    ensures |r| == |row|
  {
    seq(|row|, i requires 0 <= i < |row| => -row[i])
  }

  function NegatedMatrix(m: Matrix): (r: Matrix)
    ensures |r| == |m|
  {
    seq(|m|, c requires 0 <= c < |m| => Negated(m[c]))
  }

  lemma {:induction false} NegatedCounts(row: seq<real>, x: real)
    ensures Less(Negated(row), -x) == Greater(row, x)
    ensures Equal(Negated(row), -x) == Equal(row, x)
  {
    if row != [] {
      NegatedCounts(Init(row), x);
      assert Init(Negated(row)) == Negated(Init(row));
    }
  }

  /** Negating the out-of-sample row turns a rank omega into 1 - omega. */
  lemma OmegaReflects(row: seq<real>, x: real)
    ensures Omega(Negated(row), -x) == 1.0 - Omega(row, x)
  {
    NegatedCounts(row, x);
    CountsCover(row, x);
    OmegaTimes(row, x);
    OmegaTimes(Negated(row), -x);
    hide Less, Equal, Greater, Omega, Negated;
    var n := |row| as real + 1.0;
    MulCancel(Omega(Negated(row), -x), 1.0 - Omega(row, x), n);
  }

  lemma RanksReflect(insample: Matrix, oos: Matrix, models: nat, c: nat)
    requires models > 0 && |insample| == |oos| && Shaped(insample, models) && Shaped(oos, models) && c < |oos|
    ensures Shaped(NegatedMatrix(oos), models)
    ensures Ranks(insample, NegatedMatrix(oos), models)[c] == 1.0 - Ranks(insample, oos, models)[c]
  {
    OmegaReflects(oos[c], oos[c][Best(insample[c])]);
    hide Omega;
  }

  predicate Reflected(a: seq<real>, b: seq<real>) {
    |a| == |b| && forall c :: 0 <= c < |a| ==> b[c] == 1.0 - a[c]
  }

  lemma {:induction false} DegradedReflects(a: seq<real>, b: seq<real>)
    requires Reflected(a, b)
    ensures Degraded(a) + Degraded(b) == |a| + Halves(a)
  {
    if a != [] {
      DegradedReflects(Init(a), Init(b));
    }
  }

  /** The two degraded counts sum to the number of splits plus the splits that sit exactly at the median. */
  lemma PboReflection(insample: Matrix, oos: Matrix, models: nat)
    requires models > 0 && |insample| == |oos| && Shaped(insample, models) && Shaped(oos, models)
    ensures Shaped(NegatedMatrix(oos), models)
    ensures var ranks := Ranks(insample, oos, models);
            Degraded(ranks) + Degraded(Ranks(insample, NegatedMatrix(oos), models)) == |oos| + Halves(ranks)
  {
    hide Rank;
    var a := Ranks(insample, oos, models);
    var b := Ranks(insample, NegatedMatrix(oos), models);
    forall c | 0 <= c < |a| ensures b[c] == 1.0 - a[c] {
      RanksReflect(insample, oos, models, c);
    }
    DegradedReflects(a, b);
  }
}
