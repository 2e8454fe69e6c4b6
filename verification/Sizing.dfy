/**
  Quantity authorisation for the simulation broker (risk/position_sizing.py and
  risk/simulation_contract.py), over exact arithmetic.
*/
module Sizing {
  import opened Prelude

  const INCREMENT := 0.000000000001
  const MINIMUM := 0.000000000001

  datatype Sizing = Authorized(quantity: real, expectedLoss: real) | Refused(reason: string)

  function Grid(n: int): real {
    n as real * INCREMENT
  }

  /** The source's floor_synthetic_quantity_exact, its defensive decrement included. */
  function FloorQuantity(risk: real, stopRisk: real): (r: Option<real>)
    requires stopRisk > 0.0
  {
    if risk <= 0.0 then None else
    var quantity := Grid((risk / stopRisk / INCREMENT).Floor);
    if quantity < MINIMUM then None
    else if quantity * stopRisk > risk then
      var lower := quantity - INCREMENT;
      if lower < MINIMUM || lower * stopRisk > risk then None else Some(lower)
    else Some(quantity)
  }

  function AuthorizeCash(risk: real, distance: real): Sizing {
    if risk <= 0.0 || distance <= 0.0 then Refused("Risk amount or stop distance is invalid") else
    match FloorQuantity(risk, distance)
    case None => Refused("Authorized risk is below the synthetic minimum quantity")
    case Some(quantity) =>
      if quantity * distance > risk then Refused("Synthetic quantity exceeds the exact authorized risk")
      else Authorized(quantity, quantity * distance)
  }

  function Authorize(balance: real, riskPercent: real, entry: real, stopLoss: real): Sizing {
    AuthorizeCash(Share(balance, riskPercent), Abs(entry - stopLoss))
  }

  /** Losing n increments over this distance stays within the authorised cash. */
  predicate Safe(n: int, risk: real, distance: real) {
    Grid(n) * distance <= risk
  }

  function Top(risk: real, distance: real): int
    requires distance > 0.0
  {
    (risk / distance / INCREMENT).Floor
  }

  lemma SafeUpToTop(n: int, risk: real, distance: real)
    requires distance > 0.0
    ensures Safe(n, risk, distance) <==> n <= Top(risk, distance)
  {
    var raw := risk / distance;
    assert raw * distance == risk;
    assert raw / INCREMENT * INCREMENT == raw;
    if n as real <= raw / INCREMENT {
      MulMonotone(Grid(n), raw, distance);
    } else {
      assert (Grid(n) - raw) * distance > 0.0;
    }
  }

  lemma AuthorizeIsTop(risk: real, distance: real)
    requires risk > 0.0 && distance > 0.0
    ensures var top := Top(risk, distance);
            if top < 1 then AuthorizeCash(risk, distance).Refused?
            else AuthorizeCash(risk, distance) == Authorized(Grid(top), Grid(top) * distance)
  {
    SafeUpToTop(Top(risk, distance), risk, distance);
  }

  /** The quantity is the largest grid point whose loss at the stop stays within the authorised cash. */
  lemma AuthorizeIsLargestSafeQuantity(risk: real, distance: real)
    ensures match AuthorizeCash(risk, distance)
            case Authorized(quantity, loss) =>
              && quantity > 0.0 && distance > 0.0 && loss == quantity * distance <= risk
              && exists n: int :: quantity == Grid(n) && forall m: int :: Safe(m, risk, distance) <==> m <= n
            case Refused(_) =>
              risk <= 0.0 || distance <= 0.0 || forall n: int :: n >= 1 ==> !Safe(n, risk, distance)
  {
    if risk > 0.0 && distance > 0.0 {
      var top := Top(risk, distance);
      AuthorizeIsTop(risk, distance);
      forall m: int ensures Safe(m, risk, distance) <==> m <= top {
        SafeUpToTop(m, risk, distance);
      }
      assert Safe(top, risk, distance);
    }
  }
}
