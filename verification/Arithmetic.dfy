/** Division by a variable, which the solver does not do by itself. */
module Arithmetic {
  // n is a whole number of units of d.
  predicate Aligned(n: nat, d: nat)
    requires d > 0
  {
    n % d == 0
  }

  lemma AlignedSum(a: nat, b: nat, d: nat)
    requires d > 0 && Aligned(a, d)
    ensures Aligned(a + b, d) <==> Aligned(b, d)
  {
    var q, p := a / d, b / d;
    assert a == d * q && b == d * p + b % d;
    assert d * (q + p) == d * q + d * p;
    DivModUnique(a + b, d, q + p, b % d);
  }

  lemma AlignedSmall(n: nat, d: nat)
    requires 0 < n <= d
    ensures Aligned(n, d) <==> n == d
  {
  }

  lemma AlignedZero(d: nat)
    requires d > 0
    ensures Aligned(0, d)
  {
  }

  lemma AlignedMultiple(f: nat, k: nat, d: nat)
    requires d > 0 && Aligned(f, d)
    ensures Aligned(f * k, d)
  {
    var q := f / d;
    assert f == d * q;
    assert f * k == d * (q * k);
    DivModUnique(f * k, d, q * k, 0);
  }

  // Quotient and remainder are the only numbers that fit.
  lemma DivModUnique(n: int, d: int, q: int, r: int)
    requires d > 0 && 0 <= r < d && n == d * q + r
    ensures n / d == q && n % d == r
  {
    var q', r' := n / d, n % d;
    Scale(d, q - q');
    Distribute(d, q, q');
  }

  lemma Distribute(d: int, q: int, p: int)
    ensures d * (q - p) == d * q - d * p
  {
  }

  lemma Scale(d: int, k: int)
    requires d > 0
    ensures k >= 1 ==> d * k >= d
    ensures k <= -1 ==> d * k <= -d
  {
    if k >= 1 {
      assert d * k == d * (k - 1) + d;
    } else if k <= -1 {
      assert d * k == d * (k + 1) - d;
    }
  }
}
