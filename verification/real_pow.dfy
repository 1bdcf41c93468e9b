/** Natural powers of reals: the `x ** k` of the lattice formulas. */
module RealPow {

  /** `x` raised to the natural power `k`; `Pow(x, 0) == 1` even for `x == 0`. */
  function Pow(x: real, k: nat): real
  {
    if k == 0 then 1.0 else x * Pow(x, k - 1)
  }

  /** One factor of a power: `x^k == x * x^(k-1)`, with `k - 1` named `k1`. */
  lemma PowStep(x: real, k: nat, k1: nat)
    requires k == k1 + 1
    ensures Pow(x, k) == x * Pow(x, k1)
  {
  }

  /** `x^0 == 1`. */
  lemma PowZero(x: real)
    ensures Pow(x, 0) == 1.0
  {
  }

  /** Exponents add under multiplication. */
  lemma {:induction false} PowAdd(x: real, a: nat, b: nat)
    ensures Pow(x, a + b) == Pow(x, a) * Pow(x, b)
  {
    if a > 0 {
      PowAdd(x, a - 1, b);
      assert Pow(x, a + b) == x * Pow(x, (a - 1) + b);
    }
  }

  /** `x^(n-j) == x^(n-m) * x^(m-j)` for `j <= m <= n`. */
  lemma PowSplit(x: real, n: nat, m: nat, j: nat)
    requires j <= m <= n
    ensures Pow(x, n - j) == Pow(x, n - m) * Pow(x, m - j)
  {
    PowAdd(x, n - m, m - j);
  }

  /** A power of a product is the product of the powers. */
  lemma {:induction false} PowOfProduct(x: real, y: real, k: nat)
    ensures Pow(x * y, k) == Pow(x, k) * Pow(y, k)
  {
    if k > 0 {
      PowOfProduct(x, y, k - 1);
      var a, b := Pow(x, k - 1), Pow(y, k - 1);
      assert Pow(x * y, k) == (x * y) * (a * b);
      assert (x * y) * (a * b) == (x * a) * (y * b);
    }
  }

  /** Powers of reciprocal factors cancel: if `u * d == 1` then `d^k * u^k == 1`. */
  lemma {:induction false} PowReciprocal(d: real, u: real, k: nat)
    requires u * d == 1.0
    ensures Pow(d, k) * Pow(u, k) == 1.0
  {
    if k > 0 {
      PowReciprocal(d, u, k - 1);
      var a, b := Pow(d, k - 1), Pow(u, k - 1);
      assert Pow(d, k) * Pow(u, k) == (d * a) * (u * b);
      assert (d * a) * (u * b) == (u * d) * (a * b);
    }
  }

  /** Every power of 1 is 1. */
  lemma {:induction false} PowOne(k: nat)
    ensures Pow(1.0, k) == 1.0
  {
    if k > 0 {
      PowOne(k - 1);
    }
  }

  /** A power of a non-negative real is non-negative. */
  lemma {:induction false} PowNonNegative(x: real, k: nat)
    requires x >= 0.0
    ensures Pow(x, k) >= 0.0
  {
    if k > 0 {
      PowNonNegative(x, k - 1);
      var a := Pow(x, k - 1);
      assert x * a >= 0.0;
    }
  }
}
