/** Small facts about multiplication that the solver does not find on its own. */
module Arith {
  lemma MulMonotone(a: int, b: int, m: int)
    requires a <= b && m >= 0
    ensures a * m <= b * m
  {
  }

  lemma MulCancel(a: int, b: int, m: int)
    requires m > 0 && a * m < b * m
    ensures a < b
  {
    if a >= b {
      MulMonotone(b, a, m);
    }
  }

  lemma MulSucc(n: nat, x: nat)
    ensures (n + 1) * x == x + n * x
  {
  }
}
