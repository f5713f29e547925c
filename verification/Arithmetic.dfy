/** Facts about products the solver does not find by itself. */
module Arithmetic {
  lemma Scaled(a: nat, b: nat, x: nat)
    requires a <= b
    ensures a * x <= b * x
  {
  }

  lemma Larger(x: nat, a: nat, b: nat)
    requires a <= b
    ensures x * a <= x * b
  {
  }

  lemma Reorder(x: nat, c: nat, k: nat)
    ensures x * c * k == x * (k * c)
  {
  }

  lemma Commutes(a: nat, b: nat)
    ensures a * b == b * a
  {
  }

  lemma Expand(b: nat, x: nat)
    ensures (b + 1) * x == b * x + x
  {
  }

  lemma Cancel(a: nat, b: nat, x: nat)
    requires x > 0 && a * x <= b * x
    ensures a <= b
  {
    Expand(b, x);
    if a > b {
      Scaled(b + 1, a, x);
    }
  }
}
