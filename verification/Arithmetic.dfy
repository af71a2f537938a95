/** The one fact about products that the layouts and divisions need. */
module Arithmetic {

  lemma {:induction false} MulMonotone(a: nat, b: nat, n: nat)
    requires a < b
    ensures a * n + n <= b * n
    decreases b
  {
    assert b * n == (b - 1) * n + n;
    if a < b - 1 {
      MulMonotone(a, b - 1, n);
    }
  }
}
