/** Division and products of natural numbers. */
module Arithmetic {

  lemma MulAtMost(x: nat, y: nat, b: nat)
    requires x <= y
    ensures x * b <= y * b
  {
  }

  lemma DivIs(a: nat, b: nat, q: nat, r: nat)
    requires 0 < b && r < b && a == q * b + r
    ensures a / b == q && a % b == r
  {
    var d := a / b - q;
    assert d * b + a % b == r;
    if 0 < d {
      MulAtMost(1, d, b);
    }
  }

  lemma DivBelow(a: nat, b: nat, n: nat)
    requires 0 < b && a < n * b
    ensures a / b < n
  {
    if n <= a / b {
      MulAtMost(n, a / b, b);
    }
  }

  lemma Distribute(x: nat, y: nat, b: nat)
    ensures (x + y) * b == x * b + y * b
  {
  }
}
