/** Whole-number division as C++ has it. */
module Truncation {

  /** Division that rounds toward zero, and its remainder. */
  function Quotient(a: int, b: int): int
    requires b > 0
  {
    if a >= 0 then a / b else -((-a) / b)
  }

  function Remainder(a: int, b: int): int
    requires b > 0
  {
    if a >= 0 then a % b else -((-a) % b)
  }

  lemma Truncates(a: int, b: int)
    requires b > 0
    ensures a == b * Quotient(a, b) + Remainder(a, b)
    ensures -b < Remainder(a, b) < b && (a >= 0 ==> Remainder(a, b) >= 0) && (a <= 0 ==> Remainder(a, b) <= 0)
  {
    if a < 0 {
      assert -a == b * ((-a) / b) + (-a) % b;
      assert b * -((-a) / b) == -(b * ((-a) / b));
    }
  }
}
