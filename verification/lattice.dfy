/** The binomial lattice engine shared by the European and the low-exercise-price pricers:
    the terminal level of the tree, the floored payoffs, the backward induction that keeps
    every level, and the one-step collapse to a binomially weighted sum. */
module Lattice {
  import opened Wrappers
  import opened RealPow
  import opened Binomial

  /** Every element of `s` is at least zero. */
  predicate NonNegative(s: seq<real>)
  {
    forall i :: 0 <= i < |s| ==> s[i] >= 0.0
  }

  /** The product of two non-negative reals is non-negative. */
  lemma ProductNonNegative(a: real, b: real)
    requires a >= 0.0 && b >= 0.0
    ensures a * b >= 0.0
  {
  }

  // ---------------------------------------------------------------------------------------
  // Terminal level

  /** Underlying prices at maturity of an `n`-step lattice, `d ** (n..0) * u ** (0..n) * S0`:
      node `k` has seen `k` up moves and `n - k` down moves, so neighbouring nodes differ by
      trading one down move for one up move. */
  function TerminalPrices(s0: real, u: real, d: real, n: nat): (s: seq<real>)
    ensures |s| == n + 1
    ensures forall k :: 0 <= k < n ==> s[k + 1] * d == s[k] * u
  {
    var s := seq(n + 1, k requires 0 <= k <= n => s0 * Pow(d, n - k) * Pow(u, k));
    assert forall k :: 0 <= k < n ==> s[k + 1] * d == s[k] * u by {
      forall k | 0 <= k < n
        ensures s[k + 1] * d == s[k] * u
      {
        NeighbourArith(s[k + 1], s[k], s0, Pow(d, n - k - 1), Pow(d, n - k), Pow(u, k), Pow(u, k + 1), u, d);
      }
    }
    s
  }

  /** The arithmetic of neighbouring terminal nodes. */
  lemma NeighbourArith(hi: real, lo: real, s0: real, a: real, da: real, b: real, ub: real, u: real, d: real)
    requires hi == s0 * a * ub && lo == s0 * da * b && da == d * a && ub == u * b
    ensures hi * d == lo * u
  {
    assert hi * d == (s0 * a * b) * (u * d);
  }

  /** Node `k` of the terminal level. */
  lemma TerminalPriceAt(s0: real, u: real, d: real, n: nat, k: nat)
    requires k <= n
    ensures |TerminalPrices(s0, u, d, n)| == n + 1
    ensures TerminalPrices(s0, u, d, n)[k] == s0 * Pow(d, n - k) * Pow(u, k)
  {
  }

  /** In a recombining lattice with an even number of steps, the middle terminal node is the
      spot price. */
  lemma TerminalMiddleIsSpot(s0: real, u: real, d: real, m: nat)
    requires u * d == 1.0
    ensures TerminalPrices(s0, u, d, 2 * m)[m] == s0
  {
    PowOfProduct(d, u, m);
    PowOne(m);
    assert d * u == 1.0;
  }

  /** The payoff at one node, `max((S - K) * signCP, 0)`: the signed intrinsic value when it
      is positive, zero otherwise. */
  function Payoff(s: real, k: real, signCP: real): (o: real)
    ensures o >= 0.0
    ensures o >= (s - k) * signCP
    ensures o == 0.0 || o == (s - k) * signCP
  {
    var x := (s - k) * signCP;
    if x > 0.0 then x else 0.0
  }

  /** The payoffs at every terminal node; none is negative. */
  function TerminalPayoffs(s: seq<real>, k: real, signCP: real): (o: seq<real>)
    ensures |o| == |s|
    ensures NonNegative(o)
  {
    seq(|s|, i requires 0 <= i < |s| => Payoff(s[i], k, signCP))
  }

  // ---------------------------------------------------------------------------------------
  // Backward induction

  /** The undiscounted risk-neutral mix of neighbouring values, `O[:i]*(1-p) + O[1:]*p`. */
  function Mix(o: seq<real>, p: real): seq<real>
    requires |o| >= 1
  {
    seq(|o| - 1, j requires 0 <= j < |o| - 1 => o[j] * (1.0 - p) + o[j + 1] * p)
  }

  /** Node `j` of the mixed level. */
  lemma MixAt(o: seq<real>, p: real, j: nat, j1: nat)
    requires j1 == j + 1 && j1 < |o|
    ensures |Mix(o, p)| == |o| - 1
    ensures Mix(o, p)[j] == o[j] * (1.0 - p) + o[j1] * p
  {
  }

  /** One step back in time on the value level, `(O[:i]*(1-p) + O[1:]*p) * df_dt`: a level of
      `i + 1` values becomes a level of `i` values. */
  function BackStep(o: seq<real>, p: real, dfDt: real): (r: seq<real>)
    requires |o| >= 1
    ensures |r| == |o| - 1
  {
    seq(|o| - 1, j requires 0 <= j < |o| - 1 => (o[j] * (1.0 - p) + o[j + 1] * p) * dfDt)
  }

  /** The weighted average of two non-negative values, discounted by a non-negative factor,
      is non-negative. */
  lemma MixNonNegative(a: real, b: real, p: real, dfDt: real)
    requires a >= 0.0 && b >= 0.0 && 0.0 <= p <= 1.0 && dfDt >= 0.0
    ensures (a * (1.0 - p) + b * p) * dfDt >= 0.0
  {
    ProductNonNegative(a, 1.0 - p);
    ProductNonNegative(b, p);
    ProductNonNegative(a * (1.0 - p) + b * p, dfDt);
  }

  /** With a probability `p` and a non-negative discount, a step back keeps values
      non-negative. */
  lemma BackStepNonNegative(o: seq<real>, p: real, dfDt: real)
    requires |o| >= 1 && NonNegative(o)
    requires 0.0 <= p <= 1.0 && dfDt >= 0.0
    ensures NonNegative(BackStep(o, p, dfDt))
  {
    var r := BackStep(o, p, dfDt);
    forall j | 0 <= j < |r|
      ensures r[j] >= 0.0
    {
      MixNonNegative(o[j], o[j + 1], p, dfDt);
    }
  }

  /** One step back in time on the price level, `S[1:i+1] * d`: node `j` becomes `d` times
      node `j + 1`. */
  function PriceStep(s: seq<real>, d: real): (r: seq<real>)
    requires |s| >= 1
    ensures |r| == |s| - 1
    ensures d >= 0.0 && NonNegative(s) ==> NonNegative(r)
  {
    seq(|s| - 1, j requires 0 <= j < |s| - 1 => s[j + 1] * d)
  }

  /** The value level reached after `k` steps back from `o`. */
  function Rollback(o: seq<real>, k: nat, p: real, dfDt: real): (r: seq<real>)
    requires k < |o|
    ensures |r| == |o| - k
  {
    if k == 0 then o else BackStep(Rollback(o, k - 1, p, dfDt), p, dfDt)
  }

  /** The price level reached after `k` steps back from `s`. */
  function PriceRollback(s: seq<real>, k: nat, d: real): (r: seq<real>)
    requires k < |s|
    ensures |r| == |s| - k
  {
    if k == 0 then s else PriceStep(PriceRollback(s, k - 1, d), d)
  }

  /** Every value level of the backward induction is non-negative when the terminal one is. */
  lemma {:induction false} RollbackNonNegative(o: seq<real>, k: nat, p: real, dfDt: real)
    requires k < |o| && NonNegative(o)
    requires 0.0 <= p <= 1.0 && dfDt >= 0.0
    ensures NonNegative(Rollback(o, k, p, dfDt))
  {
    if k > 0 {
      RollbackNonNegative(o, k - 1, p, dfDt);
      BackStepNonNegative(Rollback(o, k - 1, p, dfDt), p, dfDt);
    }
  }

  // ---------------------------------------------------------------------------------------
  // Full-history trees

  /** The option-value tree, valuation date first: level `m` holds `m + 1` values. */
  function ValueTree(o: seq<real>, p: real, dfDt: real): (t: seq<seq<real>>)
    requires |o| >= 1
    ensures |t| == |o|
    ensures forall m :: 0 <= m < |t| ==> |t[m]| == m + 1
  {
    seq(|o|, m requires 0 <= m < |o| => Rollback(o, |o| - 1 - m, p, dfDt))
  }

  /** The price tree, laid out like the value tree. */
  function PriceTree(s: seq<real>, d: real): (t: seq<seq<real>>)
    requires |s| >= 1
    ensures |t| == |s|
    ensures forall m :: 0 <= m < |t| ==> |t[m]| == m + 1
  {
    seq(|s|, m requires 0 <= m < |s| => PriceRollback(s, |s| - 1 - m, d))
  }

  /** The value tree ends at the terminal payoffs and each earlier level is one step back
      from the next; the price tree likewise with the price step. */
  lemma TreeRecurrence(s: seq<real>, o: seq<real>, p: real, d: real, dfDt: real)
    requires |s| == |o| >= 1
    ensures ValueTree(o, p, dfDt)[|o| - 1] == o
    ensures PriceTree(s, d)[|s| - 1] == s
    ensures forall m :: 0 <= m < |o| - 1 ==>
      ValueTree(o, p, dfDt)[m] == BackStep(ValueTree(o, p, dfDt)[m + 1], p, dfDt)
    ensures forall m :: 0 <= m < |s| - 1 ==>
      PriceTree(s, d)[m] == PriceStep(PriceTree(s, d)[m + 1], d)
  {
    var vt, pt := ValueTree(o, p, dfDt), PriceTree(s, d);
    var n := |o| - 1;
    assert vt[n] == Rollback(o, 0, p, dfDt);
    assert pt[n] == PriceRollback(s, 0, d);
    forall m | 0 <= m < n
      ensures vt[m] == BackStep(vt[m + 1], p, dfDt)
      ensures pt[m] == PriceStep(pt[m + 1], d)
    {
      assert vt[m] == Rollback(o, n - m, p, dfDt);
      assert vt[m + 1] == Rollback(o, n - m - 1, p, dfDt);
      assert pt[m] == PriceRollback(s, n - m, d);
      assert pt[m + 1] == PriceRollback(s, n - m - 1, d);
    }
  }

  /** With non-negative payoffs, a probability `p` and a non-negative discount, no node of the
      value tree is negative. */
  lemma ValueTreeNonNegative(o: seq<real>, p: real, dfDt: real)
    requires |o| >= 1 && NonNegative(o)
    requires 0.0 <= p <= 1.0 && dfDt >= 0.0
    ensures forall m :: 0 <= m < |o| ==> NonNegative(ValueTree(o, p, dfDt)[m])
  {
    forall m | 0 <= m < |o|
      ensures NonNegative(ValueTree(o, p, dfDt)[m])
    {
      assert ValueTree(o, p, dfDt)[m] == Rollback(o, |o| - 1 - m, p, dfDt);
      RollbackNonNegative(o, |o| - 1 - m, p, dfDt);
    }
  }

  /** In a recombining lattice (`u * d == 1`) one price step back from the terminal level of
      an `n`-step lattice is the terminal level of an `n - 1`-step lattice. */
  lemma RecombiningPriceStep(s0: real, u: real, d: real, n: nat)
    requires u * d == 1.0 && n >= 1
    ensures PriceStep(TerminalPrices(s0, u, d, n), d) == TerminalPrices(s0, u, d, n - 1)
  {
    var s, r := TerminalPrices(s0, u, d, n), TerminalPrices(s0, u, d, n - 1);
    var step := PriceStep(s, d);
    forall j | 0 <= j < n
      ensures step[j] == r[j]
    {
      var a, b := Pow(d, n - 1 - j), Pow(u, j);
      assert n - (j + 1) == n - 1 - j;
      assert s[j + 1] == s0 * a * (u * b);
      DownUpCancel(step[j], s0, a, b, u, d);
    }
  }

  /** If `v == (x * a * (u * b)) * d` and `u * d == 1` then `v == x * a * b`. */
  lemma DownUpCancel(v: real, x: real, a: real, b: real, u: real, d: real)
    requires v == (x * a * (u * b)) * d && u * d == 1.0
    ensures v == x * a * b
  {
    assert (x * a * (u * b)) * d == x * a * b * (u * d);
  }

  /** In a recombining lattice, `k` price steps back from the terminal level of an `n`-step
      lattice give the terminal level of an `n - k`-step lattice. */
  lemma {:induction false} RecombiningPriceRollback(s0: real, u: real, d: real, n: nat, k: nat)
    requires u * d == 1.0 && k <= n
    ensures PriceRollback(TerminalPrices(s0, u, d, n), k, d) == TerminalPrices(s0, u, d, n - k)
  {
    if k > 0 {
      RecombiningPriceRollback(s0, u, d, n, k - 1);
      RecombiningPriceStep(s0, u, d, n - (k - 1));
    }
  }

  /** In a recombining lattice level `m` of the price tree is the terminal level of an
      `m`-step lattice, so node `j` of level `m` is `S0 * d^(m-j) * u^j` and the root is the
      spot price. */
  lemma RecombiningPriceTree(s0: real, u: real, d: real, n: nat)
    requires u * d == 1.0
    ensures forall m :: 0 <= m <= n ==>
      PriceTree(TerminalPrices(s0, u, d, n), d)[m] == TerminalPrices(s0, u, d, m)
    ensures PriceTree(TerminalPrices(s0, u, d, n), d)[0][0] == s0
  {
    var s := TerminalPrices(s0, u, d, n);
    forall m | 0 <= m <= n
      ensures PriceTree(s, d)[m] == TerminalPrices(s0, u, d, m)
    {
      assert PriceTree(s, d)[m] == PriceRollback(s, n - m, d);
      RecombiningPriceRollback(s0, u, d, n, n - m);
    }
    assert PriceTree(s, d)[0] == TerminalPrices(s0, u, d, 0);
  }

  /** The value levels `K, K-1, .., 0` steps back from `o`, the latest last: the part of the
      value tree the backward induction has built after `K` steps. */
  function ValueLevels(o: seq<real>, p: real, dfDt: real, K: nat): (t: seq<seq<real>>)
    requires K < |o|
    ensures |t| == K + 1 && t[0] == Rollback(o, K, p, dfDt)
  {
    seq(K + 1, m requires 0 <= m <= K => Rollback(o, K - m, p, dfDt))
  }

  /** The price levels `K, .., 0` steps back from `s`, laid out like `ValueLevels`. */
  function PriceLevels(s: seq<real>, d: real, K: nat): (t: seq<seq<real>>)
    requires K < |s|
    ensures |t| == K + 1 && t[0] == PriceRollback(s, K, d)
  {
    seq(K + 1, m requires 0 <= m <= K => PriceRollback(s, K - m, d))
  }

  /** Prepending one step back from the earliest built level extends the value levels by
      one. */
  lemma ValueLevelsStep(o: seq<real>, p: real, dfDt: real, K: nat)
    requires K + 1 < |o|
    ensures [BackStep(ValueLevels(o, p, dfDt, K)[0], p, dfDt)] + ValueLevels(o, p, dfDt, K)
      == ValueLevels(o, p, dfDt, K + 1)
  {
    var t, t' := ValueLevels(o, p, dfDt, K), ValueLevels(o, p, dfDt, K + 1);
    assert t[0] == Rollback(o, K, p, dfDt);
    forall m | 0 <= m < K + 2
      ensures ([BackStep(t[0], p, dfDt)] + t)[m] == t'[m]
    {
      if m > 0 {
        assert t[m - 1] == Rollback(o, K - (m - 1), p, dfDt);
      }
    }
  }

  /** `ValueLevelsStep` for the price levels. */
  lemma PriceLevelsStep(s: seq<real>, d: real, K: nat)
    requires K + 1 < |s|
    ensures [PriceStep(PriceLevels(s, d, K)[0], d)] + PriceLevels(s, d, K) == PriceLevels(s, d, K + 1)
  {
    var t, t' := PriceLevels(s, d, K), PriceLevels(s, d, K + 1);
    assert t[0] == PriceRollback(s, K, d);
    forall m | 0 <= m < K + 2
      ensures ([PriceStep(t[0], d)] + t)[m] == t'[m]
    {
      if m > 0 {
        assert t[m - 1] == PriceRollback(s, K - (m - 1), d);
      }
    }
  }

  /** Full-history backward induction from the terminal prices `s` and payoffs `o`: walks from
      maturity to the valuation date, prepending each new level to both trees, and returns
      the root value with the two trees. */
  method FullHistory(s: seq<real>, o: seq<real>, p: real, d: real, dfDt: real)
    returns (px: real, sTree: seq<seq<real>>, oTree: seq<seq<real>>)
    requires |s| == |o| >= 1
    ensures sTree == PriceTree(s, d)
    ensures oTree == ValueTree(o, p, dfDt)
    ensures px == oTree[0][0]
  {
    var n := |o| - 1;
    sTree, oTree := [s], [o];
    assert oTree == ValueLevels(o, p, dfDt, 0);
    assert sTree == PriceLevels(s, d, 0);
    var i := n;
    while i > 0
      invariant 0 <= i <= n
      invariant oTree == ValueLevels(o, p, dfDt, n - i)
      invariant sTree == PriceLevels(s, d, n - i)
    {
      ValueLevelsStep(o, p, dfDt, n - i);
      PriceLevelsStep(s, d, n - i);
      sTree, oTree := [PriceStep(sTree[0], d)] + sTree, [BackStep(oTree[0], p, dfDt)] + oTree;
      i := i - 1;
    }
    assert oTree == ValueTree(o, p, dfDt);
    assert sTree == PriceTree(s, d);
    px := oTree[0][0];
  }

  // ---------------------------------------------------------------------------------------
  // Collapse

  /** The weight of terminal node `i` in the collapse, `exp(tmp[i])` of the log-space
      computation: the factorial ratio `n! / (i! (n-i)!)` read from the factorial table,
      times `p^i (1-p)^(n-i)`. */
  function CollapseWeight(n: nat, i: nat, p: real): (w: real)
    requires i <= n
    ensures 0.0 <= p <= 1.0 ==> w >= 0.0
  {
    var t := FactorialTable(n);
    var w := t[n] / (t[i] * t[n - i]) * Pow(p, i) * Pow(1.0 - p, n - i);
    assert 0.0 <= p <= 1.0 ==> w >= 0.0 by {
      if 0.0 <= p <= 1.0 {
        PowNonNegative(p, i);
        PowNonNegative(1.0 - p, n - i);
        ProductNonNegative(t[n] / (t[i] * t[n - i]), Pow(p, i));
        ProductNonNegative(t[n] / (t[i] * t[n - i]) * Pow(p, i), Pow(1.0 - p, n - i));
      }
    }
    w
  }

  /** The sum of the first `k` collapse terms `exp(tmp[i]) * df_T * O[i]`. */
  function CollapseSum(o: seq<real>, p: real, dfT: real, k: nat): (r: real)
    requires 1 <= |o| && k <= |o|
    ensures 0.0 <= p <= 1.0 && dfT >= 0.0 && NonNegative(o) ==> r >= 0.0
  {
    if k == 0 then 0.0
    else
      var term := CollapseWeight(|o| - 1, k - 1, p) * dfT * o[k - 1];
      assert 0.0 <= p <= 1.0 && dfT >= 0.0 && NonNegative(o) ==> term >= 0.0 by {
        if 0.0 <= p <= 1.0 && dfT >= 0.0 && NonNegative(o) {
          ProductNonNegative(CollapseWeight(|o| - 1, k - 1, p), dfT);
          ProductNonNegative(CollapseWeight(|o| - 1, k - 1, p) * dfT, o[k - 1]);
        }
      }
      CollapseSum(o, p, dfT, k - 1) + term
  }

  /** The collapse-mode price from the terminal payoffs `o` of an `(|o|-1)`-step lattice; with
      a probability `p` and a non-negative discount it is never negative. */
  function CollapsePrice(o: seq<real>, p: real, dfT: real): (r: real)
    requires |o| >= 1
    ensures 0.0 <= p <= 1.0 && dfT >= 0.0 && NonNegative(o) ==> r >= 0.0
  {
    CollapseSum(o, p, dfT, |o|)
  }

  /** How the collapse, as written, fails when a logarithm is taken of a non-positive number:
      `math.log` raises a domain error, `numpy.log` yields `-inf` or NaN and the sum is NaN. */
  datatype CollapseError = MathDomainError | NotANumber

  /** The collapse as the source computes it: it takes `log(p)` and `log(1 - p)` whatever the
      step count and whatever the payoffs, so it yields a price only when `0 < p < 1`, and
      fails with `onLogError` otherwise. */
  function CollapseAsWritten(o: seq<real>, p: real, dfT: real, onLogError: CollapseError)
    : (r: Result<real, CollapseError>)
    requires |o| >= 1
    ensures r.Success? <==> 0.0 < p < 1.0
    ensures r.Success? ==> r.value == CollapsePrice(o, p, dfT)
    ensures r.Failure? ==> r.error == onLogError
  {
    if 0.0 < p && p < 1.0 then Success(CollapsePrice(o, p, dfT)) else Failure(onLogError)
  }
}
