/** Small facts about real numbers that several loops share. */
module Reals {

  function Abs(x: real): real {
    if x < 0.0 then -x else x
  }

  // Products and quotients by name, so that equal ones are seen to be equal without multiplying out.

  function Mul(x: real, k: real): real {
    x * k
  }

  function Over(x: real, y: real): real
    requires y != 0.0
  {
    x / y
  }

  lemma MulByZero(x: real)
    ensures Mul(x, 0.0) == 0.0 && Mul(0.0, x) == 0.0 && Mul(x, 1.0) == x && Mul(1.0, x) == x
  {
  }

  lemma MulIsZero(x: real, y: real)
    requires Mul(x, y) == 0.0
    ensures x == 0.0 || y == 0.0
  {
  }

  lemma MulOfSum(x: real, y: real, k: real)
    ensures Mul(x + y, k) == Mul(x, k) + Mul(y, k)
    ensures Mul(k, x + y) == Mul(k, x) + Mul(k, y)
  {
  }

  lemma MulOfDifference(k: real, x: real, y: real)
    ensures Mul(k, x - y) == Mul(k, x) - Mul(k, y)
  {
  }

  lemma PositiveQuotient(a: real, b: real)
    requires a > 0.0 && b > 0.0
    ensures Over(a, b) > 0.0
  {
  }
}
