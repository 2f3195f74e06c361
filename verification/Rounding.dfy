/** `round` and `quantize` as the money code uses them: ties go to the even neighbour. */
module Rounding {

  function RoundHalfEven(x: real): (n: int)
    ensures -0.5 <= n as real - x <= 0.5
    ensures n as real - x == 0.5 || n as real - x == -0.5 ==> n % 2 == 0
  {
    var f := x.Floor;
    var d := x - f as real;
    if d < 0.5 then f else if d > 0.5 then f + 1 else if f % 2 == 0 then f else f + 1
  }

  /** To paise: `round(x, 2)`. */
  function RoundPaise(x: real): (r: real)
    ensures -0.005 <= r - x <= 0.005
  {
    RoundHalfEven(x * 100.0) as real / 100.0
  }

  /** To four decimals: `x.quantize(Decimal("0.0001"))`. */
  function RoundFour(x: real): (r: real)
    ensures -0.00005 <= r - x <= 0.00005
  {
    RoundHalfEven(x * 10000.0) as real / 10000.0
  }

  /** Rounding to paise never takes a price of a paisa or more to zero. */
  lemma RoundingKeepsPaisa(x: real)
    requires x >= 0.01
    ensures RoundPaise(x) >= 0.01
  {
    assert x * 100.0 >= 1.0;
    assert (x * 100.0).Floor >= 1;
  }
}
