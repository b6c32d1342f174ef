/** Comparing reals. */
module Tolerance {

  function Abs(x: real): real {
    if x < 0.0 then -x else x
  }

  function Larger(x: real, y: real): real {
    if x < y then y else x
  }

  /** `math.isclose` with its default relative and this absolute tolerance. */
  predicate Close(a: real, b: real) {
    Abs(a - b) <= Larger(0.000000001 * Larger(Abs(a), Abs(b)), 0.000000000001)
  }
}
