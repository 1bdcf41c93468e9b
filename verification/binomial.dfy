/** Factorials over `real` and binomial coefficients over `nat`.
    The collapse mode of the lattice pricer accumulates `log(k!)` as a cumulative sum of
    `log(1..n)`; this module states the same table in exponential form (cumulative products)
    and connects the factorial ratio it yields to the Pascal-rule coefficient `C(n, k)`. */
module Binomial {

  /** `n!` as a real, never below one. */
  function Fact(n: nat): (r: real)
    ensures r >= 1.0
  {
    if n == 0 then 1.0 else (n as real) * Fact(n - 1)
  }

  /** The binomial coefficient `C(n, k)` by Pascal's rule; zero when `k > n`. */
  function Choose(n: nat, k: nat): nat
  {
    if k == 0 then 1
    else if n == 0 then 0
    else Choose(n - 1, k - 1) + Choose(n - 1, k)
  }

  /** Choosing more items than there are gives no ways. */
  lemma {:induction false} ChooseBeyond(n: nat, k: nat)
    requires n < k
    ensures Choose(n, k) == 0
  {
    if n > 0 {
      ChooseBeyond(n - 1, k - 1);
      ChooseBeyond(n - 1, k);
    }
  }

  /** There is exactly one way to choose all `n` items. */
  lemma {:induction false} ChooseAll(n: nat)
    ensures Choose(n, n) == 1
  {
    if n > 0 {
      ChooseAll(n - 1);
      ChooseBeyond(n - 1, n);
    }
  }

  /** The Pascal-rule coefficient is the factorial ratio `n! / (k! (n-k)!)`. */
  lemma ChooseFactorial(n: nat, k: nat)
    requires k <= n
    ensures (Choose(n, k) as real) * Fact(k) * Fact(n - k) == Fact(n)
  {
    hide Fact;
    FactorialIdentity(n, k, n - k);
  }

  /** `ChooseFactorial` with `n - k` named `j`, so that the induction meets the same terms it
      produces. */
  lemma {:induction false} FactorialIdentity(n: nat, k: nat, j: nat)
    requires k + j == n
    ensures (Choose(n, k) as real) * Fact(k) * Fact(j) == Fact(n)
  {
    hide Fact, Choose;
    FactZero();
    if k == 0 {
      ChooseNone(n);
    } else if j == 0 {
      ChooseAll(n);
    } else {
      FactStep(k);
      FactStep(j);
      FactStep(n);
      ChooseStep(n, k);
      FactorialIdentity(n - 1, k - 1, j);
      FactorialIdentity(n - 1, k, j - 1);
      PascalFactorialStep(Choose(n - 1, k - 1) as real, Choose(n - 1, k) as real, Choose(n, k) as real,
                          k as real, j as real, n as real,
                          Fact(k), Fact(k - 1), Fact(j), Fact(j - 1), Fact(n - 1), Fact(n));
    }
  }

  /** There is exactly one way to choose nothing. */
  lemma ChooseNone(n: nat)
    ensures Choose(n, 0) == 1
  {
  }

  /** `0! == 1`. */
  lemma FactZero()
    ensures Fact(0) == 1.0
  {
  }

  /** One factor of a factorial. */
  lemma FactStep(n: nat)
    requires n >= 1
    ensures Fact(n) == (n as real) * Fact(n - 1)
  {
  }

  /** Pascal's rule, over the reals. */
  lemma ChooseStep(n: nat, k: nat)
    requires n >= 1 && k >= 1
    ensures (Choose(n, k) as real) == (Choose(n - 1, k - 1) as real) + (Choose(n - 1, k) as real)
  {
  }

  /** The arithmetic of one Pascal step: if both smaller coefficients satisfy the factorial
      identity, so does their sum. */
  lemma PascalFactorialStep(a: real, b: real, c: real, k: real, j: real, n: real,
                            fk: real, fk1: real, fj: real, fj1: real, f: real, fn: real)
    requires a * fk1 * fj == f && b * fk * fj1 == f
    requires c == a + b && fk == k * fk1 && fj == j * fj1 && k + j == n && fn == n * f
    ensures c * fk * fj == fn
  {
    assert a * fk * fj == k * (a * fk1 * fj);
    assert b * fk * fj == j * (b * fk * fj1);
  }

  /** The table `[0!, 1!, ..., n!]`, built as a running product over `1..n`: the
      exponential image of the cumulative-log table `(0, log 1, log 1 + log 2, ...)` of the
      collapse mode. */
  function FactorialTable(n: nat): (t: seq<real>)
    ensures |t| == n + 1
    ensures forall k :: 0 <= k <= n ==> t[k] == Fact(k)
  {
    if n == 0 then [1.0]
    else
      var prev := FactorialTable(n - 1);
      prev + [prev[n - 1] * (n as real)]
  }

  /** The factorial ratio read from the table is the binomial coefficient. */
  lemma {:induction false} FactorialRatio(n: nat, k: nat)
    requires k <= n
    ensures FactorialTable(n)[n] / (FactorialTable(n)[k] * FactorialTable(n)[n - k])
      == Choose(n, k) as real
  {
    hide Fact, FactorialTable;
    ChooseFactorial(n, k);
    var t := FactorialTable(n);
    DivideOut(t[n], Choose(n, k) as real, t[k], t[n - k]);
  }

  /** If `f == c * a * b` with `a, b >= 1` then `f / (a * b) == c`. */
  lemma DivideOut(f: real, c: real, a: real, b: real)
    requires f == c * a * b && a >= 1.0 && b >= 1.0
    ensures f / (a * b) == c
  {
    assert a * b >= 1.0;
    assert f == c * (a * b);
  }
}
