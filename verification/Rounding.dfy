// Decimal rounding.

module Rounding {

  /** `quantize(Decimal(1), ROUND_HALF_UP)`: to the nearest integer, ties away from zero. */
  function HalfUp(x: real): (r: int)
    ensures -0.5 <= r as real - x <= 0.5
    ensures r as real - x == 0.5 ==> x > 0.0
    ensures r as real - x == -0.5 ==> x < 0.0
  {
    if x >= 0.0 then (x + 0.5).Floor else -((0.5 - x).Floor)
  }

  lemma HalfUpMonotone(x: real, y: real)
    ensures x <= y ==> HalfUp(x) <= HalfUp(y)
  {
  }

  /** `int(x)`: truncation toward zero. */
  function Truncate(x: real): (r: int)
    ensures x >= 0.0 ==> 0.0 <= r as real <= x < r as real + 1.0
    ensures x <= 0.0 ==> r as real - 1.0 < x <= r as real <= 0.0
  {
    if x >= 0.0 then x.Floor else -((-x).Floor)
  }
}
