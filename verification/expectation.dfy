/** The risk-neutral expectation over the terminal level of a binomial lattice, and the
    theorem that ties the two pricing modes together: backward induction over `n` levels
    computes `df_dt^n` times the binomially weighted sum of the terminal payoffs, which is
    what the collapse computes with `df_T` in place of `df_dt^n`.

    Several proofs below `hide` the recursive definitions they do not need and use the
    one-step lemmas instead: the solver then meets only the products it has to reason about. */
module Expectation {
  import opened Wrappers
  import opened RealPow
  import opened Binomial
  import opened Lattice

  /** The probability of reaching terminal node `i` of an `n`-step lattice,
      `C(n, i) * p^i * (1-p)^(n-i)`. */
  function Weight(n: nat, i: nat, p: real): real
    requires i <= n
  {
    (Choose(n, i) as real) * Pow(p, i) * Pow(1.0 - p, n - i)
  }

  /** The first `k` terms of the weighted sum `sum_i Weight(n, i, p) * o[i]`. */
  function PartialSum(o: seq<real>, n: nat, p: real, k: nat): real
    requires k <= |o| && k <= n + 1
  {
    if k == 0 then 0.0 else PartialSum(o, n, p, k - 1) + Weight(n, k - 1, p) * o[k - 1]
  }

  /** The expectation of the terminal values `o` of an `(|o|-1)`-step lattice. */
  function Expect(o: seq<real>, p: real): real
    requires |o| >= 1
  {
    PartialSum(o, |o| - 1, p, |o|)
  }

  /** A level of `n` ones. */
  function Ones(n: nat): (r: seq<real>)
    ensures |r| == n
  {
    seq(n, i requires 0 <= i < n => 1.0)
  }

  /** The empty weighted sum. */
  lemma PartialSumZero(o: seq<real>, n: nat, p: real)
    ensures PartialSum(o, n, p, 0) == 0.0
  {
  }

  /** One more term of the weighted sum. */
  lemma PartialSumStep(o: seq<real>, n: nat, p: real, k: nat)
    requires 1 <= k <= |o| && k <= n + 1
    ensures PartialSum(o, n, p, k) == PartialSum(o, n, p, k - 1) + Weight(n, k - 1, p) * o[k - 1]
  {
  }

  // ---------------------------------------------------------------------------------------
  // Pascal's rule for the weights

  /** Reaching the lowest node of an `m`-step lattice takes a down move after reaching the
      lowest node of the `(m-1)`-step lattice. */
  lemma WeightFirst(m: nat, p: real)
    requires m >= 1
    ensures Weight(m, 0, p) == (1.0 - p) * Weight(m - 1, 0, p)
  {
    hide Pow, Choose;
    ChooseNone(m);
    ChooseNone(m - 1);
    PowStep(1.0 - p, m, m - 1);
    FirstArith(Weight(m, 0, p), Weight(m - 1, 0, p), Pow(p, 0), Pow(1.0 - p, m), Pow(1.0 - p, m - 1), 1.0 - p);
  }

  /** Reaching inner node `i` of an `m`-step lattice takes a down move from node `i` or an up
      move from node `i - 1` of the `(m-1)`-step lattice. */
  lemma WeightPascal(m: nat, i: nat, p: real)
    requires 1 <= i < m
    ensures Weight(m, i, p) == (1.0 - p) * Weight(m - 1, i, p) + p * Weight(m - 1, i - 1, p)
  {
    hide Pow, Choose;
    ChooseStep(m, i);
    PowStep(p, i, i - 1);
    PowStep(1.0 - p, m - i, m - 1 - i);
    PascalArith(Weight(m, i, p), Weight(m - 1, i, p), Weight(m - 1, i - 1, p),
                Choose(m, i) as real, Choose(m - 1, i - 1) as real, Choose(m - 1, i) as real,
                Pow(p, i), Pow(p, i - 1), Pow(1.0 - p, m - i), Pow(1.0 - p, m - 1 - i), p, 1.0 - p);
  }

  /** Reaching the top node of an `m`-step lattice takes an up move after reaching the top node
      of the `(m-1)`-step lattice. */
  lemma WeightLast(m: nat, p: real)
    requires m >= 1
    ensures Weight(m, m, p) == p * Weight(m - 1, m - 1, p)
  {
    hide Pow, Choose;
    ChooseAll(m);
    ChooseAll(m - 1);
    PowStep(p, m, m - 1);
    FirstArith(Weight(m, m, p), Weight(m - 1, m - 1, p), Pow(1.0 - p, 0), Pow(p, m), Pow(p, m - 1), p);
  }

  /** The arithmetic of `WeightFirst` and `WeightLast`. */
  lemma FirstArith(w: real, w0: real, c: real, x: real, x1: real, q: real)
    requires w == 1.0 * x * c || w == 1.0 * c * x
    requires w0 == 1.0 * x1 * c || w0 == 1.0 * c * x1
    requires x == q * x1
    ensures w == q * w0
  {
  }

  /** The arithmetic of `WeightPascal`. */
  lemma PascalArith(w: real, w0: real, w1: real, c: real, a: real, b: real,
                    pk: real, pk1: real, qr: real, qr1: real, p: real, q: real)
    requires w == c * pk * qr && w0 == b * pk * qr1 && w1 == a * pk1 * qr
    requires c == a + b && pk == p * pk1 && qr == q * qr1
    ensures w == q * w0 + p * w1
  {
    assert c * pk * qr == a * (p * pk1) * qr + b * pk * (q * qr1);
  }

  // ---------------------------------------------------------------------------------------
  // One backward step leaves the expectation unchanged up to the discount

  /** The weighted sum over the first `k` nodes of the mixed level `Mix(o, p)` (an
      `(m-1)`-step level) equals the weighted sum over the first `k` nodes of `o` (an `m`-step
      level) plus the carry `p * Weight(m-1, k-1) * o[k]` still owed to node `k`. */
  lemma {:induction false} PrefixMix(o: seq<real>, p: real, m: nat, k: nat)
    requires |o| == m + 1 && 1 <= k <= m
    ensures PartialSum(Mix(o, p), m - 1, p, k)
      == PartialSum(o, m, p, k) + p * Weight(m - 1, k - 1, p) * o[k]
  {
    hide PartialSum, Mix, Pow, Choose;
    MixAt(o, p, k - 1, k);
    PartialSumStep(Mix(o, p), m - 1, p, k);
    PartialSumStep(o, m, p, k);
    if k == 1 {
      PartialSumZero(Mix(o, p), m - 1, p);
      PartialSumZero(o, m, p);
      WeightFirst(m, p);
      MixArith(PartialSum(Mix(o, p), m - 1, p, k), PartialSum(Mix(o, p), m - 1, p, k - 1),
               PartialSum(o, m, p, k), PartialSum(o, m, p, k - 1), 0.0, Weight(m, k - 1, p),
               Weight(m - 1, k - 1, p), 0.0, Mix(o, p)[k - 1], o[k - 1], o[k], p);
    } else {
      PrefixMix(o, p, m, k - 1);
      WeightPascal(m, k - 1, p);
      MixArith(PartialSum(Mix(o, p), m - 1, p, k), PartialSum(Mix(o, p), m - 1, p, k - 1),
               PartialSum(o, m, p, k), PartialSum(o, m, p, k - 1),
               p * Weight(m - 1, k - 1 - 1, p) * o[k - 1], Weight(m, k - 1, p),
               Weight(m - 1, k - 1, p), Weight(m - 1, k - 1 - 1, p), Mix(o, p)[k - 1], o[k - 1], o[k], p);
    }
  }

  /** The arithmetic of one `PrefixMix` step. */
  lemma MixArith(l: real, l1: real, r: real, r1: real, carry: real, wm: real, w0: real, w1: real,
                 mj: real, a: real, b: real, p: real)
    requires l == l1 + w0 * mj && r == r1 + wm * a && mj == a * (1.0 - p) + b * p
    requires l1 == r1 + carry && carry == p * w1 * a
    requires wm == (1.0 - p) * w0 + p * w1
    ensures l == r + p * w0 * b
  {
    assert w0 * mj == (1.0 - p) * w0 * a + p * w0 * b;
  }

  /** Mixing neighbouring values does not change the expectation: the expectation over an
      `m`-step level equals the expectation over the `(m-1)`-step level one step back. */
  lemma ExpectMix(o: seq<real>, p: real)
    requires |o| >= 2
    ensures Expect(Mix(o, p), p) == Expect(o, p)
  {
    hide PartialSum, Pow, Choose;
    var m := |o| - 1;
    PrefixMix(o, p, m, m);
    PartialSumStep(o, m, p, m + 1);
    WeightLast(m, p);
    LastArith(Expect(Mix(o, p), p), PartialSum(o, m, p, m), Expect(o, p),
              Weight(m, m, p), Weight(m - 1, m - 1, p), o[m], p);
  }

  /** The arithmetic of `ExpectMix`. */
  lemma LastArith(l: real, x: real, r: real, wm: real, w: real, a: real, p: real)
    requires l == x + p * w * a && r == x + wm * a && wm == p * w
    ensures l == r
  {
  }

  /** Scaling every value by `c` scales the weighted sum by `c`. */
  lemma {:induction false} PartialSumScale(a: seq<real>, b: seq<real>, c: real, n: nat, p: real, k: nat)
    requires |a| == |b| && k <= |a| && k <= n + 1
    requires forall i :: 0 <= i < |a| ==> a[i] == b[i] * c
    ensures PartialSum(a, n, p, k) == c * PartialSum(b, n, p, k)
  {
    hide PartialSum, Pow, Choose;
    if k == 0 {
      PartialSumZero(a, n, p);
      PartialSumZero(b, n, p);
    } else {
      PartialSumScale(a, b, c, n, p, k - 1);
      PartialSumStep(a, n, p, k);
      PartialSumStep(b, n, p, k);
      ScaleArith(PartialSum(a, n, p, k), PartialSum(a, n, p, k - 1), PartialSum(b, n, p, k),
                 PartialSum(b, n, p, k - 1), Weight(n, k - 1, p), a[k - 1], b[k - 1], c);
    }
  }

  /** The arithmetic of one `PartialSumScale` step. */
  lemma ScaleArith(l: real, l1: real, r: real, r1: real, w: real, x: real, y: real, c: real)
    requires l == l1 + w * x && r == r1 + w * y && l1 == c * r1 && x == y * c
    ensures l == c * r
  {
  }

  /** The weighted sum of node-wise differences is the difference of the weighted sums. */
  lemma {:induction false} PartialSumDiff(a: seq<real>, b: seq<real>, c: seq<real>, n: nat, p: real, k: nat)
    requires |a| == |b| == |c| && k <= |a| && k <= n + 1
    requires forall i :: 0 <= i < |a| ==> a[i] == b[i] - c[i]
    ensures PartialSum(a, n, p, k) == PartialSum(b, n, p, k) - PartialSum(c, n, p, k)
  {
    hide PartialSum, Pow, Choose;
    if k == 0 {
      PartialSumZero(a, n, p);
      PartialSumZero(b, n, p);
      PartialSumZero(c, n, p);
    } else {
      PartialSumDiff(a, b, c, n, p, k - 1);
      PartialSumStep(a, n, p, k);
      PartialSumStep(b, n, p, k);
      PartialSumStep(c, n, p, k);
      DiffArith(PartialSum(a, n, p, k), PartialSum(a, n, p, k - 1), PartialSum(b, n, p, k),
                PartialSum(b, n, p, k - 1), PartialSum(c, n, p, k), PartialSum(c, n, p, k - 1),
                Weight(n, k - 1, p), a[k - 1], b[k - 1], c[k - 1]);
    }
  }

  /** The arithmetic of one `PartialSumDiff` step. */
  lemma DiffArith(l: real, l1: real, r: real, r1: real, s: real, s1: real, w: real, x: real, y: real, z: real)
    requires l == l1 + w * x && r == r1 + w * y && s == s1 + w * z
    requires l1 == r1 - s1 && x == y - z
    ensures l == r - s
  {
  }

  /** Each node of a discounted step back is the mixed value times `df_dt`. */
  lemma BackStepIsDiscountedMix(o: seq<real>, p: real, dfDt: real)
    requires |o| >= 2
    ensures |BackStep(o, p, dfDt)| == |Mix(o, p)| == |o| - 1
    ensures forall i :: 0 <= i < |o| - 1 ==> BackStep(o, p, dfDt)[i] == Mix(o, p)[i] * dfDt
  {
  }

  /** One discounted step back multiplies the expectation by `df_dt`. */
  lemma {:induction false} ExpectBackStep(o: seq<real>, p: real, dfDt: real)
    requires |o| >= 2
    ensures Expect(BackStep(o, p, dfDt), p) == dfDt * Expect(o, p)
  {
    BackStepIsDiscountedMix(o, p, dfDt);
    hide PartialSum, Mix, BackStep, Pow, Choose;
    PartialSumScale(BackStep(o, p, dfDt), Mix(o, p), dfDt, |o| - 2, p, |o| - 1);
    ExpectMix(o, p);
  }

  /** `k` steps of backward induction multiply the expectation by `df_dt^k`. */
  lemma {:induction false} RollbackExpect(o: seq<real>, k: nat, p: real, dfDt: real)
    requires k < |o|
    ensures Expect(Rollback(o, k, p, dfDt), p) == Pow(dfDt, k) * Expect(o, p)
  {
    hide Expect, Pow, BackStep;
    if k == 0 {
      PowZero(dfDt);
    } else {
      RollbackExpect(o, k - 1, p, dfDt);
      ExpectBackStep(Rollback(o, k - 1, p, dfDt), p, dfDt);
      PowStep(dfDt, k, k - 1);
      ChainArith(Expect(Rollback(o, k, p, dfDt), p), Expect(Rollback(o, k - 1, p, dfDt), p),
                 Expect(o, p), Pow(dfDt, k), Pow(dfDt, k - 1), dfDt);
    }
  }

  /** The arithmetic of one `RollbackExpect` step. */
  lemma ChainArith(l: real, l1: real, e: real, x: real, x1: real, c: real)
    requires l == c * l1 && l1 == x1 * e && x == c * x1
    ensures l == x * e
  {
  }

  /** The expectation over a single node is that node. */
  lemma ExpectSingleton(o: seq<real>, p: real)
    requires |o| == 1
    ensures Expect(o, p) == o[0]
  {
    hide PartialSum, Pow, Choose;
    PartialSumStep(o, 0, p, 1);
    PartialSumZero(o, 0, p);
    ChooseNone(0);
    PowZero(p);
    PowZero(1.0 - p);
    assert Weight(0, 0, p) == 1.0;
  }

  /** The root of the value tree is the `df_dt^n`-discounted expectation of the terminal
      values: what the full-history mode returns. */
  lemma RootIsDiscountedExpectation(o: seq<real>, p: real, dfDt: real)
    requires |o| >= 1
    ensures ValueTree(o, p, dfDt)[0][0] == Pow(dfDt, |o| - 1) * Expect(o, p)
  {
    var n := |o| - 1;
    assert ValueTree(o, p, dfDt)[0] == Rollback(o, n, p, dfDt);
    hide Expect, Pow, Rollback;
    RollbackExpect(o, n, p, dfDt);
    ExpectSingleton(Rollback(o, n, p, dfDt), p);
  }

  // ---------------------------------------------------------------------------------------
  // The collapse

  /** The collapse weight read from the factorial table is the binomial weight. */
  lemma CollapseWeightIsBinomial(n: nat, i: nat, p: real)
    requires i <= n
    ensures CollapseWeight(n, i, p) == Weight(n, i, p)
  {
    hide Pow, Choose, Fact, FactorialTable;
    FactorialRatio(n, i);
  }

  /** The empty collapse sum. */
  lemma CollapseSumZero(o: seq<real>, p: real, dfT: real)
    requires 1 <= |o|
    ensures CollapseSum(o, p, dfT, 0) == 0.0
  {
  }

  /** One more collapse term. */
  lemma CollapseSumStep(o: seq<real>, p: real, dfT: real, k: nat)
    requires 1 <= k <= |o|
    ensures CollapseSum(o, p, dfT, k)
      == CollapseSum(o, p, dfT, k - 1) + CollapseWeight(|o| - 1, k - 1, p) * dfT * o[k - 1]
  {
  }

  /** The first `k` collapse terms are `df_T` times the first `k` terms of the expectation. */
  lemma {:induction false} CollapseSumIsScaledPartialSum(o: seq<real>, p: real, dfT: real, k: nat)
    requires 1 <= |o| && k <= |o|
    ensures CollapseSum(o, p, dfT, k) == dfT * PartialSum(o, |o| - 1, p, k)
  {
    hide CollapseSum, CollapseWeight, PartialSum, Pow, Choose;
    if k == 0 {
      PartialSumZero(o, |o| - 1, p);
      CollapseSumZero(o, p, dfT);
    } else {
      CollapseSumIsScaledPartialSum(o, p, dfT, k - 1);
      CollapseSumStep(o, p, dfT, k);
      PartialSumStep(o, |o| - 1, p, k);
      CollapseWeightIsBinomial(|o| - 1, k - 1, p);
      CollapseArith(CollapseSum(o, p, dfT, k), CollapseSum(o, p, dfT, k - 1), PartialSum(o, |o| - 1, p, k),
                    PartialSum(o, |o| - 1, p, k - 1), CollapseWeight(|o| - 1, k - 1, p),
                    Weight(|o| - 1, k - 1, p), o[k - 1], dfT);
    }
  }

  /** The arithmetic of one `CollapseSumIsScaledPartialSum` step. */
  lemma CollapseArith(l: real, l1: real, r: real, r1: real, cw: real, w: real, x: real, c: real)
    requires l == l1 + cw * c * x && r == r1 + w * x && l1 == c * r1 && cw == w
    ensures l == c * r
  {
  }

  /** The collapse computes `df_T` times the expectation of the terminal values. */
  lemma CollapseIsDiscountedExpectation(o: seq<real>, p: real, dfT: real)
    requires |o| >= 1
    ensures CollapsePrice(o, p, dfT) == dfT * Expect(o, p)
  {
    CollapseSumIsScaledPartialSum(o, p, dfT, |o|);
  }

  /** The two modes agree: when `df_T == df_dt^n` the collapse returns the root of the value
      tree that the full-history mode returns. */
  lemma ModesAgree(o: seq<real>, p: real, dfDt: real, dfT: real)
    requires |o| >= 1
    requires dfT == Pow(dfDt, |o| - 1)
    ensures CollapsePrice(o, p, dfT) == ValueTree(o, p, dfDt)[0][0]
  {
    hide Expect, Pow, CollapsePrice, ValueTree;
    CollapseIsDiscountedExpectation(o, p, dfT);
    RootIsDiscountedExpectation(o, p, dfDt);
  }

  /** The collapse as written fails for every `p` outside `(0, 1)`, whatever the payoffs; when
      it succeeds its price is the `df_T`-discounted binomial expectation, and it is the root
      of the value tree when `df_T == df_dt^n`. */
  lemma AsWrittenIsDiscountedExpectation(o: seq<real>, p: real, dfT: real, dfDt: real, onLogError: CollapseError)
    requires |o| >= 1
    ensures !(0.0 < p < 1.0) ==> CollapseAsWritten(o, p, dfT, onLogError) == Failure(onLogError)
    ensures CollapseAsWritten(o, p, dfT, onLogError).Success? ==>
      CollapseAsWritten(o, p, dfT, onLogError).value == dfT * Expect(o, p)
    ensures CollapseAsWritten(o, p, dfT, onLogError).Success? && dfT == Pow(dfDt, |o| - 1) ==>
      CollapseAsWritten(o, p, dfT, onLogError).value == ValueTree(o, p, dfDt)[0][0]
  {
    CollapseIsDiscountedExpectation(o, p, dfT);
    if dfT == Pow(dfDt, |o| - 1) {
      ModesAgree(o, p, dfDt, dfT);
    }
  }

  // ---------------------------------------------------------------------------------------
  // Properties of the weights

  /** The weights of an `n`-step lattice sum to one, whatever `p` is. */
  lemma {:induction false} WeightsSumToOne(n: nat, p: real)
    ensures Expect(Ones(n + 1), p) == 1.0
  {
    if n == 0 {
      ExpectSingleton(Ones(1), p);
    } else {
      assert Mix(Ones(n + 1), p) == Ones(n);
      hide Expect;
      WeightsSumToOne(n - 1, p);
      ExpectMix(Ones(n + 1), p);
    }
  }

  /** With `0 <= p <= 1` the expectation of non-negative values is non-negative. */
  lemma ExpectNonNegative(o: seq<real>, p: real)
    requires |o| >= 1 && NonNegative(o) && 0.0 <= p <= 1.0
    ensures Expect(o, p) >= 0.0
  {
    hide Expect, Pow, ValueTree;
    RootIsDiscountedExpectation(o, p, 1.0);
    PowOne(|o| - 1);
    ValueTreeNonNegative(o, p, 1.0);
    assert NonNegative(ValueTree(o, p, 1.0)[0]);
  }

  /** The expectation of node-wise differences is the difference of the expectations. */
  lemma ExpectDifference(a: seq<real>, b: seq<real>, c: seq<real>, p: real)
    requires |a| == |b| == |c| >= 1
    requires forall i :: 0 <= i < |a| ==> a[i] == b[i] - c[i]
    ensures Expect(a, p) == Expect(b, p) - Expect(c, p)
  {
    hide PartialSum, Pow, Choose;
    PartialSumDiff(a, b, c, |a| - 1, p, |a|);
  }

  /** The expectation of the values less a constant `c` is the expectation less `c`. */
  lemma ExpectLessConstant(a: seq<real>, b: seq<real>, c: real, p: real)
    requires |a| == |b| >= 1
    requires forall i :: 0 <= i < |a| ==> a[i] == b[i] - c
    ensures Expect(a, p) == Expect(b, p) - c
  {
    var n := |a| - 1;
    var cs := seq(|a|, i requires 0 <= i < |a| => c);
    assert forall i :: 0 <= i < |a| ==> cs[i] == Ones(|a|)[i] * c;
    hide PartialSum, Pow, Choose;
    PartialSumDiff(a, b, cs, n, p, |a|);
    PartialSumScale(cs, Ones(|a|), c, n, p, |a|);
    WeightsSumToOne(n, p);
  }

  // ---------------------------------------------------------------------------------------
  // The expected terminal price

  /** Mixing neighbouring terminal prices of an `n`-step lattice gives node `j` of the terminal
      level of an `(n-1)`-step lattice whose spot is scaled by `g == p*u + (1-p)*d`. */
  lemma MixTerminalNode(s0: real, u: real, d: real, p: real, n: nat, j: nat)
    requires j < n
    ensures Mix(TerminalPrices(s0, u, d, n), p)[j]
      == TerminalPrices(s0 * (p * u + (1.0 - p) * d), u, d, n - 1)[j]
  {
    hide Pow, Mix, TerminalPrices;
    TerminalPriceAt(s0, u, d, n, j);
    TerminalPriceAt(s0, u, d, n, j + 1);
    MixAt(TerminalPrices(s0, u, d, n), p, j, j + 1);
    TerminalPriceAt(s0 * (p * u + (1.0 - p) * d), u, d, n - 1, j);
    PowStep(d, n - j, n - 1 - j);
    PowStep(u, j + 1, j);
    GrowthArith(Mix(TerminalPrices(s0, u, d, n), p)[j], TerminalPrices(s0, u, d, n)[j],
                TerminalPrices(s0, u, d, n)[j + 1],
                TerminalPrices(s0 * (p * u + (1.0 - p) * d), u, d, n - 1)[j], s0,
                Pow(d, n - j), Pow(d, n - 1 - j), Pow(u, j + 1), Pow(u, j), u, d, p);
  }

  /** The arithmetic of `MixTerminalNode`. */
  lemma GrowthArith(v: real, x: real, y: real, z: real, s0: real, dk: real, dk1: real,
                    uj1: real, uj: real, u: real, d: real, p: real)
    requires v == x * (1.0 - p) + y * p
    requires x == s0 * dk * uj && y == s0 * dk1 * uj1 && z == s0 * (p * u + (1.0 - p) * d) * dk1 * uj
    requires dk == d * dk1 && uj1 == u * uj
    ensures v == z
  {
  }

  /** Mixing the terminal prices of an `n`-step lattice gives the terminal prices of an
      `(n-1)`-step lattice from the spot scaled by `g == p*u + (1-p)*d`. */
  lemma MixTerminalPrices(s0: real, u: real, d: real, p: real, n: nat)
    requires n >= 1
    ensures Mix(TerminalPrices(s0, u, d, n), p)
      == TerminalPrices(s0 * (p * u + (1.0 - p) * d), u, d, n - 1)
  {
    forall j | 0 <= j < n
      ensures Mix(TerminalPrices(s0, u, d, n), p)[j]
        == TerminalPrices(s0 * (p * u + (1.0 - p) * d), u, d, n - 1)[j]
    {
      MixTerminalNode(s0, u, d, p, n, j);
    }
  }

  /** The expected terminal price of an `n`-step lattice is `S0 * (p*u + (1-p)*d)^n`. */
  lemma {:induction false} ExpectTerminalPrices(s0: real, u: real, d: real, p: real, n: nat)
    ensures Expect(TerminalPrices(s0, u, d, n), p) == s0 * Pow(p * u + (1.0 - p) * d, n)
    decreases n
  {
    hide Expect, Pow, Mix, TerminalPrices;
    if n == 0 {
      TerminalPriceAt(s0, u, d, 0, 0);
      ExpectSingleton(TerminalPrices(s0, u, d, 0), p);
      PowZero(d);
      PowZero(u);
      PowZero(p * u + (1.0 - p) * d);
    } else {
      MixTerminalPrices(s0, u, d, p, n);
      ExpectTerminalPrices(s0 * (p * u + (1.0 - p) * d), u, d, p, n - 1);
      ExpectMix(TerminalPrices(s0, u, d, n), p);
      PowStep(p * u + (1.0 - p) * d, n, n - 1);
      GrowthChain(Expect(TerminalPrices(s0, u, d, n), p), s0, p * u + (1.0 - p) * d,
                  Pow(p * u + (1.0 - p) * d, n), Pow(p * u + (1.0 - p) * d, n - 1));
    }
  }

  /** The arithmetic of one `ExpectTerminalPrices` step. */
  lemma GrowthChain(l: real, s0: real, g: real, x: real, x1: real)
    requires l == s0 * g * x1 && x == g * x1
    ensures l == s0 * x
  {
  }
}
