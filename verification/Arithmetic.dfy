/** Multiplying and dividing natural numbers: the few facts the solver needs told. */
module Arithmetic {

  lemma Scale(a: int, b: int, d: nat)
    ensures a <= b ==> a * d <= b * d
    ensures a < b ==> a * d + d <= b * d
  {
    if a < b {
      assert (b - a - 1) * d >= 0;
    }
  }

  lemma FloorAtLeast(a: nat, d: nat, bound: nat)
    requires d > 0
    ensures a / d >= bound <==> a >= bound * d
  {
    assert a == (a / d) * d + a % d;
    Scale(bound, a / d, d);
    Scale(a / d, bound, d);
  }
}
