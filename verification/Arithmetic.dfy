/** Products and quotients of variables, which the solver does not find by itself. */
module Arithmetic {

  lemma MulAtLeast(a: nat, b: nat, n: nat)
    requires a <= b
    ensures a * n <= b * n
  {
  }

  lemma Quotient(a: nat, b: nat, n: nat)
    requires b < n
    ensures (a * n + b) / n == a && (a * n + b) % n == b
  {
    var q, m := (a * n + b) / n, (a * n + b) % n;
    assert q * n + m == a * n + b;
    if q < a {
      MulAtLeast(q + 1, a, n);
    } else if q > a {
      MulAtLeast(a + 1, q, n);
    }
  }

  lemma MulStep(a: nat, n: nat)
    ensures (a + 1) * n == a * n + n
  {
  }
}
