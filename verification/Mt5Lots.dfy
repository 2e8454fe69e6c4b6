/** Lot sizing (broker/mt5_demo.py, authorize_account_currency_risk) and submit-time normalisation. */
module Mt5Lots {
  import opened Prelude

  const SLACK := 0.000000000001
  const DIGITS := 100000000.0
  const UNIT := 1.0 / DIGITS

  datatype Volumes = Volumes(minimum: real, maximum: real, step: real)

  /** Rounding to eight decimals: nearest multiple of 1e-8, ties to the even one. */
  function Round8(x: real): real {
    var below := (x * DIGITS).Floor;
    var rest := x * DIGITS - below as real;
    (if rest < 0.5 || (rest == 0.5 && below % 2 == 0) then below else below + 1) as real / DIGITS
  }

  /** Whole steps that fit into x, the slack included. */
  function StepsDown(x: real, step: real): real
    requires step > 0.0
  {
    ((x + SLACK) / step).Floor as real * step
  }

  function NormalizeVolume(requested: real, v: Volumes): Result<real> {
    if requested <= 0.0 || v.minimum <= 0.0 || v.maximum < v.minimum || v.step <= 0.0 then
      Err("Invalid MT5 volume specification")
    else if requested + SLACK < v.minimum then
      Err("MT5 volume is below the symbol minimum")
    else if requested > v.maximum + SLACK then
      Err("MT5 volume exceeds the symbol maximum")
    else
      var normalized := Round8(StepsDown(requested, v.step));
      if normalized + SLACK < v.minimum then Err("MT5 normalized volume is below the symbol minimum")
      else Ok(normalized)
  }

  /** Lots before rounding: the risk in lots, stepped down and capped. */
  function CappedLots(risk: real, loss: real, v: Volumes): real
    requires loss > 0.0
  {
    var lots := if v.step > 0.0 then StepsDown(risk / loss, v.step) else 0.0;
    if v.maximum > 0.0 then Min(lots, v.maximum) else lots
  }

  function Tolerance(risk: real): real {
    Max(0.01, risk * 0.000001)
  }

  /** What the terminal computes for the order: profit at the stop and margin, as functions of the volume. */
  datatype Quote = Quote(profit: real -> Option<real>, margin: real -> Option<real>, freeMargin: real)

  function OneLotLoss(q: Quote): real {
    if q.profit(1.0).Some? then Abs(q.profit(1.0).value) else 0.0
  }

  predicate Verified(q: Quote, lots: real, risk: real) {
    && q.profit(lots).Some? && q.profit(lots).value < 0.0
    && Abs(q.profit(lots).value) <= risk + Tolerance(risk)
    && q.margin(lots).Some? && 0.0 < q.margin(lots).value <= q.freeMargin
  }

  function AuthorizeRisk(q: Quote, v: Volumes, balance: real, riskPercent: real): Result<real> {
    LotsFor(q, v, Share(balance, riskPercent))
  }

  /** Lots for an authorised risk in account currency. */
  function LotsFor(q: Quote, v: Volumes, risk: real): Result<real> {
    var loss := OneLotLoss(q);
    if v.minimum <= 0.0 then Err("MT5 instrument risk preflight contains invalid specifications")
    else if loss <= 0.0 || risk <= 0.0 then Err("MT5 account-currency stop loss could not be verified")
    else if CappedLots(risk, loss, v) + SLACK < v.minimum then
      Err("MT5 authorized risk is below the broker minimum lot risk")
    else
      var lots := Round8(CappedLots(risk, loss, v));
      if Verified(q, lots, risk) then Ok(lots)
      else Err("MT5 computed quantity failed stop-risk or margin verification")
  }

  // ---------------------------------------------------------------- the step grid

  function Steps(k: int, step: real): real {
    k as real * step
  }

  ghost predicate OnGrid(x: real, step: real) {
    exists k :: x == Steps(k, step)
  }

  /** A broker's volume table: minimum and maximum on the step grid, the step a whole number of 1e-8. */
  ghost predicate Regular(v: Volumes) {
    && v.step > 0.0 && OnGrid(v.step, UNIT)
    && 0.0 < v.minimum <= v.maximum && OnGrid(v.minimum, v.step) && OnGrid(v.maximum, v.step)
  }

  lemma StepsMonotone(j: int, k: int, step: real)
    requires step > 0.0
    ensures j <= k <==> Steps(j, step) <= Steps(k, step)
  {
    assert Steps(k, step) - Steps(j, step) == (k - j) as real * step;
    if j > k {
      assert (j - k) as real * step > 0.0;
    } else {
      assert (k - j) as real * step >= 0.0;
    }
  }

  lemma FloorSteps(q: real, step: real)
    requires step > 0.0
    ensures Steps(q.Floor, step) <= q * step < Steps(q.Floor + 1, step)
  {
    MulMonotone(q.Floor as real, q, step);
    MulStrict(q, (q.Floor + 1) as real, step);
  }

  lemma FloorBounds(x: real, step: real)
    requires step > 0.0
    ensures Steps((x / step).Floor, step) <= x < Steps((x / step).Floor + 1, step)
  {
    FloorSteps(x / step, step);
    assert x / step * step == x;
  }

  /** Stepping down gives the largest grid volume not above x + 1e-12. */
  lemma StepsDownIsLargest(x: real, step: real, j: int)
    requires step > 0.0
    ensures OnGrid(StepsDown(x, step), step) && StepsDown(x, step) <= x + SLACK < StepsDown(x, step) + step
    ensures Steps(j, step) <= x + SLACK <==> Steps(j, step) <= StepsDown(x, step)
  {
    var k := ((x + SLACK) / step).Floor;
    FloorBounds(x + SLACK, step);
    assert StepsDown(x, step) == Steps(k, step) && Steps(k + 1, step) == Steps(k, step) + step;
    StepsMonotone(k + 1, j, step);
    StepsMonotone(j, k, step);
  }

  /** Rounding to eight decimals changes nothing on a multiple of 1e-8. */
  lemma RoundFixes(n: int)
    ensures Round8(Steps(n, UNIT)) == Steps(n, UNIT)
  {
    assert Steps(n, UNIT) * DIGITS == n as real;
  }

  lemma RoundLandsOnGrid(x: real)
    ensures OnGrid(Round8(x), UNIT)
  {
    var below := (x * DIGITS).Floor;
    var rest := x * DIGITS - below as real;
    var n := if rest < 0.5 || (rest == 0.5 && below % 2 == 0) then below else below + 1;
    assert Round8(x) == Steps(n, UNIT);
  }

  lemma GridOfGrid(k: int, n: int, unit: real)
    ensures Steps(k, Steps(n, unit)) == Steps(k * n, unit)
  {
    assert k as real * (n as real * unit) == (k * n) as real * unit;
  }

  /** Rounding leaves every grid volume alone exactly when the step is a whole number of 1e-8. */
  lemma RoundingHarmlessIff(step: real)
    ensures (forall k :: Round8(Steps(k, step)) == Steps(k, step)) <==> OnGrid(step, UNIT)
  {
    if OnGrid(step, UNIT) {
      var n :| step == Steps(n, UNIT);
      forall k ensures Round8(Steps(k, step)) == Steps(k, step) {
        GridOfGrid(k, n, UNIT);
        RoundFixes(k * n);
      }
    }
    if forall k :: Round8(Steps(k, step)) == Steps(k, step) {
      assert Steps(1, step) == step;
      RoundLandsOnGrid(step);
    }
  }

  /** Two different volumes of a regular grid are further apart than the slack. */
  lemma GridGap(a: real, b: real, step: real)
    requires step > 0.0 && OnGrid(step, UNIT) && OnGrid(a, step) && OnGrid(b, step) && a < b
    ensures a + SLACK < b
  {
    var n :| step == Steps(n, UNIT);
    StepsMonotone(n, 0, UNIT);
    StepsMonotone(1, n, UNIT);
    var j :| a == Steps(j, step);
    var k :| b == Steps(k, step);
    StepsMonotone(k, j, step);
    StepsMonotone(j + 1, k, step);
    assert Steps(j + 1, step) == Steps(j, step) + step;
  }

  lemma RoundFixesGrid(x: real, step: real)
    requires OnGrid(step, UNIT) && OnGrid(x, step)
    ensures Round8(x) == x
  {
    hide Round8;
    RoundingHarmlessIff(step);
    var k :| x == Steps(k, step);
    assert Round8(Steps(k, step)) == Steps(k, step);
  }

  /** Stepping down from below a grid volume, in grid terms. */
  lemma StepsDownReaches(x: real, step: real, g: real)
    requires step > 0.0 && OnGrid(g, step)
    ensures g <= x + SLACK <==> g <= StepsDown(x, step)
  {
    var j :| g == Steps(j, step);
    hide StepsDown;
    StepsDownIsLargest(x, step, j);
  }

  // ---------------------------------------------------------------- rounding off the grid

  /** Rounding moves a volume by at most half a unit. */
  lemma RoundNear(x: real)
    ensures OnGrid(Round8(x), UNIT) && x - UNIT / 2.0 <= Round8(x) <= x + UNIT / 2.0
  {
    RoundLandsOnGrid(x);
    assert x * DIGITS / DIGITS == x;
  }

  /** A volume less than half a unit above a multiple of 1e-8 rounds back to it. */
  lemma RoundBack(n: int, x: real)
    requires Steps(n, UNIT) <= x <= Steps(n, UNIT) + SLACK
    ensures Round8(x) == Steps(n, UNIT)
  {
    assert Steps(n, UNIT) * DIGITS == n as real;
    assert n as real <= x * DIGITS <= n as real + 0.5;
    assert (x * DIGITS).Floor == n;
  }

  /** The scaled volume rounds up: more than half way, or half way above an odd number. */
  predicate RoundsUp(z: real) {
    Part(z) > 0.5 || (Part(z) == 0.5 && z.Floor % 2 == 1)
  }

  lemma RoundsUpRaises(x: real)
    requires RoundsUp(x * DIGITS)
    ensures Round8(x) > x
  {
    var z := x * DIGITS;
    assert Round8(x) == (z.Floor + 1) as real / DIGITS;
    assert z / DIGITS == x && z < (z.Floor + 1) as real;
  }

  /** Distance above the next lower whole number. */
  function Part(z: real): real {
    z - z.Floor as real
  }

  lemma PartIs(z: real, n: int)
    requires n as real <= z < n as real + 1.0
    ensures z.Floor == n && Part(z) == z - n as real
  {
  }

  /** Half of a number above two has a smaller whole part. */
  lemma HalvedFloor(f: real)
    requires 0.0 < f < 0.5
    ensures 0 <= (1.0 / (2.0 * f)).Floor < (1.0 / f).Floor
  {
    var a, b := 1.0 / f, 1.0 / (2.0 * f);
    assert a * f == 1.0 && b * (2.0 * f) == 1.0;
    MulCancel(a, 2.0 * b, f);
    AboveOne(b, 2.0 * f);
  }

  lemma AboveOne(b: real, g: real)
    requires b * g == 1.0 && 0.0 < g < 1.0
    ensures b > 1.0
  {
    if b <= 1.0 {
      MulMonotone(b, 1.0, g);
      assert false;
    }
  }

  /** Doubling a number less than half way above a whole one doubles the distance. */
  lemma Doubled(y: real)
    requires 0.0 < Part(y) < 0.5
    ensures Part(2.0 * y) == 2.0 * Part(y)
  {
    PartIs(2.0 * y, 2 * y.Floor);
  }

  lemma Regroup(j: int, y: real)
    ensures Steps(2 * j, y) == Steps(j, 2.0 * y)
  {
  }

  /** A number that is not whole has a multiple at least half way to the next whole number. */
  lemma {:induction false} HalfWay(y: real) returns (k: int)
    requires Part(y) > 0.0
    ensures k >= 1 && Part(Steps(k, y)) >= 0.5
    decreases (1.0 / Part(y)).Floor
  {
    if Part(y) >= 0.5 {
      k := 1;
      assert Steps(1, y) == y;
    } else {
      Doubled(y);
      HalvedFloor(Part(y));
      hide Part, Steps;
      var j := HalfWay(2.0 * y);
      k := 2 * j;
      Regroup(j, y);
    }
  }

  /** Exactly half way above an even number, three times as much is half way above an odd one. */
  lemma Tripled(z: real, n: int)
    requires Part(z) == 0.5 && z.Floor == 2 * n
    ensures Part(3.0 * z) == 0.5 && (3.0 * z).Floor == 6 * n + 1
  {
    PartIs(3.0 * z, 6 * n + 1);
  }

  /** A positive number that is not whole has a multiple that rounds up. */
  lemma SomeMultipleRoundsUp(y: real) returns (k: int)
    requires y > 0.0 && Part(y) > 0.0
    ensures k >= 1 && Steps(k, y) >= 0.5 && RoundsUp(Steps(k, y))
  {
    k := HalfWay(y);
    var z := Steps(k, y);
    MulStrict(0.0, k as real, y);
    hide Steps;
    if z.Floor % 2 == 0 && Part(z) == 0.5 {
      Tripled(z, z.Floor / 2);
      Thrice(k, y);
      k := 3 * k;
    }
  }

  lemma Thrice(k: int, y: real)
    ensures Steps(3 * k, y) == 3.0 * Steps(k, y)
  {
  }

  // ---------------------------------------------------------------- normalisation

  /** The largest grid volume not above the request by more than the slack. */
  ghost predicate IsLargest(g: real, requested: real, step: real) {
    && OnGrid(g, step) && g <= requested + SLACK < g + step
    && forall other :: OnGrid(other, step) && other <= requested + SLACK ==> other <= g
  }

  lemma StepsDownIs(requested: real, step: real)
    requires step > 0.0
    ensures IsLargest(StepsDown(requested, step), requested, step)
  {
    StepsDownIsLargest(requested, step, 0);
    hide StepsDown;
    forall g | OnGrid(g, step) && g <= requested + SLACK ensures g <= StepsDown(requested, step) {
      StepsDownReaches(requested, step, g);
    }
  }

  /** The table and the request that normalisation looks at before stepping down. */
  predicate WithinLimits(requested: real, v: Volumes) {
    && requested > 0.0 && 0.0 < v.minimum <= v.maximum && v.step > 0.0
    && v.minimum <= requested + SLACK && requested <= v.maximum + SLACK
  }

  /**
    Whatever the table: the volume is the largest grid volume for the request, rounded to eight
    decimals, so within half a unit of 1e-8 of it; and it is refused exactly outside the limits or
    when the rounded volume falls below the minimum.
  */
  lemma NormalizeIsLargest(requested: real, v: Volumes)
    ensures NormalizeVolume(requested, v).Ok? <==>
              WithinLimits(requested, v) && exists g :: IsLargest(g, requested, v.step) && v.minimum <= Round8(g) + SLACK
    ensures NormalizeVolume(requested, v).Ok? ==>
              exists g ::
                && IsLargest(g, requested, v.step) && NormalizeVolume(requested, v).value == Round8(g)
                && g - UNIT / 2.0 <= Round8(g) <= g + UNIT / 2.0
                && (OnGrid(v.step, UNIT) ==> Round8(g) == g)
  {
    if WithinLimits(requested, v) {
      var g := StepsDown(requested, v.step);
      StepsDownIs(requested, v.step);
      RoundNear(g);
      if OnGrid(v.step, UNIT) {
        RoundFixesGrid(g, v.step);
      }
      hide StepsDown, Round8, OnGrid;
    }
  }

  /** A grid volume within the limits passes through unchanged exactly when it has at most eight decimals. */
  lemma NormalizeFixesIff(x: real, v: Volumes)
    requires 0.0 < v.minimum <= x <= v.maximum && v.step > 0.0 && OnGrid(x, v.step)
    ensures NormalizeVolume(x, v) == Ok(x) <==> OnGrid(x, UNIT)
  {
    var g := StepsDown(x, v.step);
    StepsDownIsLargest(x, v.step, 0);
    StepsDownReaches(x, v.step, x);
    RoundLandsOnGrid(g);
    if OnGrid(x, UNIT) {
      var n :| x == Steps(n, UNIT);
      RoundBack(n, g);
    }
    hide StepsDown, Round8;
  }

  /** The request comes back larger than it was, beyond the slack. */
  predicate Raises(requested: real, v: Volumes) {
    NormalizeVolume(requested, v).Ok? && NormalizeVolume(requested, v).value > requested + SLACK
  }

  /** A step that is not a whole number of 1e-8 has a table on its own grid and a request that comes back larger. */
  lemma OffGridRaises(step: real) returns (requested: real, v: Volumes)
    requires step > 0.0 && !OnGrid(step, UNIT)
    ensures v.step == step && v.minimum == v.maximum > 0.0 && OnGrid(v.minimum, step) && Raises(requested, v)
  {
    var y := step * DIGITS;
    NotWhole(step);
    var k := SomeMultipleRoundsUp(y);
    var x := Steps(k, step);
    assert x * DIGITS == Steps(k, y);
    assert x > SLACK;
    RoundsUpRaises(x);
    requested, v := x - SLACK, Volumes(x, x, step);
    StepsDownExactly(k, step);
    hide Round8, StepsDown;
  }

  lemma NotWhole(step: real)
    requires !OnGrid(step, UNIT)
    ensures Part(step * DIGITS) > 0.0
  {
    var n := (step * DIGITS).Floor;
    assert step == Steps(n, UNIT) || step * DIGITS != n as real;
  }

  lemma StepsDownExactly(k: int, step: real)
    requires step > 0.0
    ensures StepsDown(Steps(k, step) - SLACK, step) == Steps(k, step)
  {
    assert Steps(k, step) / step == k as real;
  }

  /**
    Normalising down never increases a request beyond the slack, for every table of a step, if and
    only if the step is a whole number of 1e-8.
  */
  lemma NeverRaisesIff(step: real)
    requires step > 0.0
    ensures (forall requested: real, v: Volumes :: v.step == step ==> !Raises(requested, v)) <==> OnGrid(step, UNIT)
  {
    if OnGrid(step, UNIT) {
      forall requested: real, v: Volumes | v.step == step ensures !Raises(requested, v) {
        NormalizeIsLargest(requested, v);
        hide NormalizeVolume, OnGrid, Round8;
      }
    } else {
      var requested, v := OffGridRaises(step);
      assert v.step == step && Raises(requested, v);
    }
  }

  // ---------------------------------------------------------------- sizing

  /** Loss at the stop proportional to the volume. */
  ghost predicate Linear(q: Quote, loss: real) {
    loss > 0.0 && forall lots :: q.profit(lots) == Some(-(lots * loss))
  }

  /** Within the authorised risk, up to the slack in lots. */
  predicate Affordable(lots: real, risk: real, loss: real) {
    lots * loss <= risk + SLACK * loss
  }

  lemma AffordableIff(lots: real, risk: real, loss: real)
    requires loss > 0.0
    ensures Affordable(lots, risk, loss) <==> lots <= risk / loss + SLACK
  {
    var raw := risk / loss;
    assert (raw + SLACK) * loss == raw * loss + SLACK * loss == risk + SLACK * loss;
    if lots <= raw + SLACK {
      MulMonotone(lots, raw + SLACK, loss);
    } else {
      MulStrict(raw + SLACK, lots, loss);
    }
  }

  /** The maximum caps a volume when the table has one. */
  function CapTo(v: Volumes, g: real): real {
    if v.maximum > 0.0 then Min(g, v.maximum) else g
  }

  /** The largest affordable grid volume. */
  ghost predicate LargestAffordable(g: real, risk: real, loss: real, step: real) {
    && OnGrid(g, step) && Affordable(g, risk, loss)
    && forall other :: OnGrid(other, step) && Affordable(other, risk, loss) ==> other <= g
  }

  /** The lots before rounding are the largest affordable grid volume, capped at the maximum. */
  lemma CappedIsLargest(risk: real, loss: real, v: Volumes)
    requires v.step > 0.0 && loss > 0.0
    ensures exists g :: LargestAffordable(g, risk, loss, v.step) && CappedLots(risk, loss, v) == CapTo(v, g)
    ensures Affordable(CappedLots(risk, loss, v), risk, loss)
  {
    var raw := risk / loss;
    var g := StepsDown(raw, v.step);
    StepsDownIs(raw, v.step);
    AffordableIff(g, risk, loss);
    AffordableIff(CappedLots(risk, loss, v), risk, loss);
    forall other | OnGrid(other, v.step) && Affordable(other, risk, loss) ensures other <= g {
      AffordableIff(other, risk, loss);
      hide Affordable, StepsDown, OnGrid;
    }
    assert LargestAffordable(g, risk, loss, v.step);
  }

  lemma LinearLoss(q: Quote, loss: real)
    requires Linear(q, loss)
    ensures OneLotLoss(q) == loss
  {
    assert q.profit(1.0) == Some(-(1.0 * loss));
  }

  predicate MarginMet(q: Quote, lots: real) {
    q.margin(lots).Some? && 0.0 < q.margin(lots).value <= q.freeMargin
  }

  predicate Tolerated(lots: real, risk: real, loss: real) {
    lots * loss <= risk + Tolerance(risk)
  }

  lemma VerifiedIff(q: Quote, loss: real, lots: real, risk: real)
    requires Linear(q, loss)
    ensures Verified(q, lots, risk) <==> lots > 0.0 && Tolerated(lots, risk, loss) && MarginMet(q, lots)
  {
    assert q.profit(lots) == Some(-(lots * loss));
    if lots > 0.0 {
      assert lots * loss > 0.0;
    } else {
      Product(-lots, loss);
      assert -lots * loss == -(lots * loss);
    }
  }

  /** A table without a positive step sizes nothing. */
  lemma NoStepNoLots(q: Quote, v: Volumes, risk: real, loss: real)
    requires Linear(q, loss) && LotsFor(q, v, risk).Ok?
    ensures v.step > 0.0
  {
    LinearLoss(q, loss);
    VerifiedIff(q, loss, LotsFor(q, v, risk).value, risk);
    assert Steps(0, UNIT) == 0.0;
    RoundFixes(0);
    hide Round8, OneLotLoss, Verified, Tolerated, MarginMet, StepsDown;
  }

  /**
    Sizing against a linear loss, whatever the table: the lots are the largest affordable grid volume,
    capped at the maximum and rounded to eight decimals.
  */
  lemma AuthorizedIsLargest(q: Quote, v: Volumes, balance: real, riskPercent: real, loss: real)
    requires Linear(q, loss) && AuthorizeRisk(q, v, balance, riskPercent).Ok?
    ensures v.step > 0.0
    ensures exists g ::
              && LargestAffordable(g, Share(balance, riskPercent), loss, v.step)
              && AuthorizeRisk(q, v, balance, riskPercent).value == Round8(CapTo(v, g))
              && CapTo(v, g) - UNIT / 2.0 <= Round8(CapTo(v, g)) <= CapTo(v, g) + UNIT / 2.0
              && v.minimum <= CapTo(v, g) + SLACK
  {
    var risk := Share(balance, riskPercent);
    hide Share, LargestAffordable, Round8, CappedLots, CapTo, OneLotLoss, Verified;
    NoStepNoLots(q, v, risk, loss);
    LinearLoss(q, loss);
    CappedIsLargest(risk, loss, v);
    RoundNear(CappedLots(risk, loss, v));
  }

  /**
    Sizing succeeds exactly when there is risk to spend, some affordable grid volume reaches the
    minimum, and the rounded lots are positive, pass the final loss check and meet the margin.
  */
  lemma AuthorizedIff(q: Quote, v: Volumes, balance: real, riskPercent: real, loss: real)
    requires Linear(q, loss)
    ensures var risk := Share(balance, riskPercent);
            var lots := Round8(CappedLots(risk, loss, v));
            AuthorizeRisk(q, v, balance, riskPercent).Ok? <==>
              && v.step > 0.0 && v.minimum > 0.0 && risk > 0.0 && ReachesMinimum(v, risk, loss)
              && lots > 0.0 && Tolerated(lots, risk, loss) && MarginMet(q, lots)
  {
    var risk := Share(balance, riskPercent);
    var lots := Round8(CappedLots(risk, loss, v));
    hide Share, Round8, CappedLots, OneLotLoss, Verified, Tolerated, MarginMet, ReachesMinimum;
    LinearLoss(q, loss);
    VerifiedIff(q, loss, lots, risk);
    if LotsFor(q, v, risk).Ok? {
      NoStepNoLots(q, v, risk, loss);
    }
    if v.step > 0.0 {
      MinimumTest(v, risk, loss);
    }
  }

  /** Some affordable grid volume, capped, reaches the minimum up to the slack. */
  ghost predicate ReachesMinimum(v: Volumes, risk: real, loss: real) {
    exists g :: OnGrid(g, v.step) && Affordable(g, risk, loss) && v.minimum <= CapTo(v, g) + SLACK
  }

  lemma MinimumTest(v: Volumes, risk: real, loss: real)
    requires v.step > 0.0 && loss > 0.0
    ensures CappedLots(risk, loss, v) + SLACK < v.minimum <==> !ReachesMinimum(v, risk, loss)
  {
    CappedIsLargest(risk, loss, v);
    var g :| LargestAffordable(g, risk, loss, v.step) && CappedLots(risk, loss, v) == CapTo(v, g);
    hide CappedLots, Affordable, OnGrid;
    if other :| OnGrid(other, v.step) && Affordable(other, risk, loss) && v.minimum <= CapTo(v, other) + SLACK {
      assert other <= g;
    }
  }

  /** The final loss check refuses nothing more while one lot loses at most 1e10 at the stop. */
  lemma LossCheckIsCovered(lots: real, risk: real, loss: real)
    requires 0.0 < loss <= 10000000000.0 && Affordable(lots, risk, loss)
    ensures Tolerated(lots, risk, loss)
  {
  }

  // ---------------------------------------------------------------- regular tables

  lemma RegularCapped(risk: real, loss: real, v: Volumes)
    requires Regular(v) && loss > 0.0
    ensures var lots := CappedLots(risk, loss, v);
            && OnGrid(lots, v.step) && lots <= v.maximum && OnGrid(lots, UNIT) && Round8(lots) == lots
            && forall g :: OnGrid(g, v.step) && g <= v.maximum && Affordable(g, risk, loss) ==> g <= lots
  {
    var lots := CappedLots(risk, loss, v);
    CappedIsLargest(risk, loss, v);
    var g :| LargestAffordable(g, risk, loss, v.step) && lots == CapTo(v, g);
    hide CappedLots, Affordable, Round8;
    assert OnGrid(lots, v.step);
    RoundFixesGrid(lots, v.step);
    RoundLandsOnGrid(lots);
  }

  /**
    On a regular table the authorised lots are the largest grid volume up to the maximum whose loss at
    the stop stays within the authorised risk (to the slack), between the limits, and submit-time
    normalisation returns them unchanged.
  */
  lemma RegularLotsPassUnchanged(q: Quote, v: Volumes, balance: real, riskPercent: real, loss: real)
    requires Regular(v) && Linear(q, loss) && AuthorizeRisk(q, v, balance, riskPercent).Ok?
    ensures var lots, risk := AuthorizeRisk(q, v, balance, riskPercent).value, Share(balance, riskPercent);
            && OnGrid(lots, v.step) && v.minimum <= lots <= v.maximum && Affordable(lots, risk, loss)
            && (forall g :: OnGrid(g, v.step) && g <= v.maximum && Affordable(g, risk, loss) ==> g <= lots)
            && NormalizeVolume(lots, v) == Ok(lots)
  {
    var risk := Share(balance, riskPercent);
    hide Share, Round8, CappedLots, OneLotLoss, Verified, Affordable, NormalizeVolume;
    LinearLoss(q, loss);
    CappedIsLargest(risk, loss, v);
    RegularCapped(risk, loss, v);
    var lots := CappedLots(risk, loss, v);
    if lots < v.minimum {
      GridGap(lots, v.minimum, v.step);
      assert false;
    }
    NormalizeFixesIff(lots, v);
  }

  // ---------------------------------------------------------------- what happens to authorised lots at submission

  /** A volume at most the slack above a multiple of 1e-8 does not round beyond it. */
  lemma RoundNotAbove(n: int, x: real)
    requires x <= Steps(n, UNIT) + SLACK
    ensures Round8(x) <= Steps(n, UNIT)
  {
    var z := x * DIGITS;
    assert Steps(n, UNIT) * DIGITS == n as real;
    assert z <= n as real + 0.0001;
    assert z.Floor < n || (z.Floor == n && z - n as real < 0.5);
  }

  /**
    Authorised lots never come back larger from submit-time normalisation, whatever the table and
    whatever the terminal quotes.
  */
  lemma NeverLargerAtSubmit(q: Quote, v: Volumes, balance: real, riskPercent: real)
    requires AuthorizeRisk(q, v, balance, riskPercent).Ok?
    requires NormalizeVolume(AuthorizeRisk(q, v, balance, riskPercent).value, v).Ok?
    ensures var lots := AuthorizeRisk(q, v, balance, riskPercent).value;
            NormalizeVolume(lots, v).value <= lots
  {
    var lots := AuthorizeRisk(q, v, balance, riskPercent).value;
    RoundLandsOnGrid(CappedLots(Share(balance, riskPercent), OneLotLoss(q), v));
    var n :| lots == Steps(n, UNIT);
    StepsDownIsLargest(lots, v.step, 0);
    RoundNotAbove(n, StepsDown(lots, v.step));
    hide Round8, StepsDown;
  }

  /** Minimum and maximum on the step grid. */
  ghost predicate OnOwnGrid(v: Volumes) {
    v.step > 0.0 && 0.0 < v.minimum <= v.maximum && OnGrid(v.minimum, v.step) && OnGrid(v.maximum, v.step)
  }

  /** The lots this call authorises, if any, pass normalisation unchanged. */
  ghost predicate PassesUnchanged(q: Quote, v: Volumes, balance: real, riskPercent: real) {
    var lots := AuthorizeRisk(q, v, balance, riskPercent);
    lots.Ok? ==> NormalizeVolume(lots.value, v) == lots
  }

  /** Well between two whole numbers, and not rounded to zero. */
  predicate Clear(z: real) {
    z > 0.5 && 0.0001 < Part(z) < 0.9999
  }

  /** Distance to the nearest whole number. */
  function Off(z: real): real {
    if Part(z) <= 0.5 then Part(z) else 1.0 - Part(z)
  }

  lemma DoubledOff(y: real)
    requires 0.0 < Off(y) < 0.25
    ensures Off(2.0 * y) == 2.0 * Off(y)
  {
    if Part(y) <= 0.5 {
      PartIs(2.0 * y, 2 * y.Floor);
    } else {
      PartIs(2.0 * y, 2 * y.Floor + 1);
    }
  }

  /** A number that is not whole has a multiple at least a quarter away from every whole number. */
  lemma {:induction false} Midway(y: real) returns (k: int)
    requires Off(y) > 0.0
    ensures k >= 1 && Off(Steps(k, y)) >= 0.25
    decreases (1.0 / Off(y)).Floor
  {
    if Off(y) >= 0.25 {
      k := 1;
      assert Steps(1, y) == y;
    } else {
      DoubledOff(y);
      HalvedFloor(Off(y));
      hide Off, Steps;
      var j := Midway(2.0 * y);
      k := 2 * j;
      Regroup(j, y);
    }
  }

  /** Below one half, twice or three times a midway number is clear. */
  lemma ClearSoon(z: real)
    requires 0.25 <= z <= 0.5
    ensures Clear(2.0 * z) || Clear(3.0 * z)
  {
    if 0.25 < z < 0.4999 {
      PartIs(2.0 * z, 0);
    } else if z == 0.25 {
      PartIs(3.0 * z, 0);
    } else {
      PartIs(3.0 * z, 1);
    }
  }

  lemma SomeMultipleIsClear(y: real) returns (k: int)
    requires y > 0.0 && Part(y) > 0.0
    ensures k >= 1 && Clear(Steps(k, y))
  {
    k := Midway(y);
    var z := Steps(k, y);
    MulStrict(0.0, k as real, y);
    Twice(k, y);
    Thrice(k, y);
    hide Steps;
    if z <= 0.5 {
      PartIs(z, 0);
      ClearSoon(z);
      k := if Clear(2.0 * z) then 2 * k else 3 * k;
    }
  }

  lemma Twice(k: int, y: real)
    ensures Steps(2 * k, y) == 2.0 * Steps(k, y)
  {
  }

  /** A clear volume rounds to something positive that differs from it by more than the slack. */
  lemma ClearIsMoved(x: real)
    requires Clear(x * DIGITS)
    ensures Round8(x) > 0.0 && (Round8(x) + SLACK < x || Round8(x) > x + SLACK)
  {
    var z := x * DIGITS;
    assert z / DIGITS == x;
    assert Part(z) == z - z.Floor as real;
    if Part(z) < 0.5 || (Part(z) == 0.5 && z.Floor % 2 == 0) {
      assert Round8(x) == z.Floor as real / DIGITS;
    } else {
      assert Round8(x) == (z.Floor + 1) as real / DIGITS;
    }
  }

  /** A terminal that loses one unit of currency per lot and asks a margin of one. */
  function PlainQuote(): Quote {
    Quote((lots: real) => Some(-(lots * 1.0)), (_) => Some(1.0), 1.0)
  }

  lemma PlainIsLinear()
    ensures Linear(PlainQuote(), 1.0)
  {
  }

  /** With a one-volume table and a risk worth that volume, the lots are that volume rounded. */
  lemma OneVolumeLots(x: real, step: real)
    requires step > 0.0 && OnGrid(x, step) && x > 0.0 && Round8(x) > 0.0
    ensures AuthorizeRisk(PlainQuote(), Volumes(x, x, step), x, 100.0) == Ok(Round8(x))
  {
    var v, q := Volumes(x, x, step), PlainQuote();
    assert Share(x, 100.0) == x && x / 1.0 == x;
    StepsDownReaches(x, step, x);
    PlainIsLinear();
    LinearLoss(q, 1.0);
    RoundNear(x);
    assert CappedLots(x, 1.0, v) == x by { hide StepsDown; }
    assert Tolerated(Round8(x), x, 1.0) && MarginMet(q, Round8(x)) by { hide Round8; }
    hide Round8, CappedLots, Tolerated, MarginMet, OneLotLoss, Verified, Share;
    VerifiedIff(q, 1.0, Round8(x), x);
  }

  /**
    Every step that is not a whole number of 1e-8 has a table on its own grid, a linear quote and a risk
    whose authorised lots are then refused by normalisation.
  */
  lemma OffGridRefused(step: real) returns (v: Volumes, balance: real)
    requires step > 0.0 && !OnGrid(step, UNIT)
    ensures v.step == step && OnOwnGrid(v) && Linear(PlainQuote(), 1.0)
    ensures var lots := AuthorizeRisk(PlainQuote(), v, balance, 100.0);
            lots.Ok? && NormalizeVolume(lots.value, v).Err?
  {
    var y := step * DIGITS;
    NotWhole(step);
    var k := SomeMultipleIsClear(y);
    var x := Steps(k, step);
    assert x * DIGITS == Steps(k, y);
    ClearIsMoved(x);
    assert x > 0.0;
    v, balance := Volumes(x, x, step), x;
    OneVolumeLots(x, step);
    PlainIsLinear();
    hide AuthorizeRisk, Round8, StepsDown, PlainQuote;
  }

  /**
    The exact condition for authorised lots to pass unchanged: over all tables of a step with their limits
    on its grid, all linear quotes and all risks, it holds if and only if the step is a whole number of 1e-8.
  */
  lemma UnchangedIff(step: real)
    requires step > 0.0
    ensures (forall v: Volumes, q: Quote, loss: real, balance: real, riskPercent: real ::
               v.step == step && OnOwnGrid(v) && Linear(q, loss) ==> PassesUnchanged(q, v, balance, riskPercent))
            <==> OnGrid(step, UNIT)
  {
    hide AuthorizeRisk, NormalizeVolume, Linear, PlainQuote;
    if OnGrid(step, UNIT) {
      forall v: Volumes, q: Quote, loss: real, balance: real, riskPercent: real
        | v.step == step && OnOwnGrid(v) && Linear(q, loss)
        ensures PassesUnchanged(q, v, balance, riskPercent)
      {
        if AuthorizeRisk(q, v, balance, riskPercent).Ok? {
          RegularLotsPassUnchanged(q, v, balance, riskPercent, loss);
        }
      }
    } else {
      var v, balance := OffGridRefused(step);
      assert !PassesUnchanged(PlainQuote(), v, balance, 100.0);
    }
  }
}
