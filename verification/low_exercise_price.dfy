/** The low exercise price option (LEPO): a European call whose strike is fixed at one cent.
    Its pricer overrides the strike and the right, then prices on the same binomial lattice
    as the European pricer. It writes the payoff, the backward step, the price step and the
    collapse its own way; each spelling is proved equal to the shared engine's, the payoff
    and the collapse are computed in its own spelling, and the full-history loop runs the
    shared engine's steps. */
module LowExercisePrice {
  import opened Wrappers
  import opened RealPow
  import opened Lattice
  import opened Expectation
  import opened Valuation
  import European

  /** The fixed strike of a low exercise price option. */
  const LowStrike: real := 0.01

  /** The sub-method label recorded with every lattice price. */
  const SubMethod: string := "Binomial tree with the strike price is $0.01; Hull Ch.135"

  /** The contract actually priced: whatever strike and right the caller set, the pricer
      overrides them with the one-cent strike and a call. */
  function Overridden(c: Contract): (priced: Contract)
    ensures priced.s0 == c.s0 && priced.k == LowStrike && priced.right == Call
  {
    c.(k := LowStrike, right := Call)
  }

  /** The terminal payoffs `maximum(S - 0.01, 0)`. */
  function LowPayoffs(s: seq<real>): (o: seq<real>)
    ensures |o| == |s| && NonNegative(o)
    ensures forall i :: 0 <= i < |s| ==> o[i] >= s[i] - LowStrike
    ensures forall i :: 0 <= i < |s| && s[i] <= LowStrike ==> o[i] == 0.0
  {
    seq(|s|, i requires 0 <= i < |s| => if s[i] - LowStrike > 0.0 then s[i] - LowStrike else 0.0)
  }

  /** One step back on the value level as this pricer writes it,
      `df_dt * ((1 - p) * O[:i] + p * O[1:])`. */
  function LowBackStep(o: seq<real>, p: real, dfDt: real): (r: seq<real>)
    requires |o| >= 1
    ensures |r| == |o| - 1
  {
    seq(|o| - 1, j requires 0 <= j < |o| - 1 => dfDt * ((1.0 - p) * o[j] + p * o[j + 1]))
  }

  /** One step back on the price level as this pricer writes it, `d * S[1:i+1]`. */
  function LowPriceStep(s: seq<real>, d: real): (r: seq<real>)
    requires |s| >= 1
    ensures |r| == |s| - 1
  {
    seq(|s| - 1, j requires 0 <= j < |s| - 1 => d * s[j + 1])
  }

  /** The collapse as this pricer writes it: `df_T` times the sum of the undiscounted terms
      `exp(tmp[i]) * O[i]`. */
  function LowCollapsePrice(o: seq<real>, p: real, dfT: real): (r: real)
    requires |o| >= 1
    ensures 0.0 <= p <= 1.0 && dfT >= 0.0 && NonNegative(o) ==> r >= 0.0
  {
    dfT * CollapseSum(o, p, 1.0, |o|)
  }

  /** The one-cent payoffs are the call payoffs of the shared engine at strike `0.01`. */
  lemma LowPayoffsAreCallPayoffs(s0: real, sp: LatticeSpecs, n: nat)
    ensures LowPayoffs(TerminalPrices(s0, sp.u, sp.d, n))
      == European.TerminalValues(Contract(s0, LowStrike, Call), sp, n)
  {
    var s := TerminalPrices(s0, sp.u, sp.d, n);
    assert LowPayoffs(s) == TerminalPayoffs(s, LowStrike, SignCP(Call));
  }

  /** This pricer's backward step is the shared engine's. */
  lemma LowBackStepIsBackStep(o: seq<real>, p: real, dfDt: real)
    requires |o| >= 1
    ensures LowBackStep(o, p, dfDt) == BackStep(o, p, dfDt)
  {
    forall j | 0 <= j < |o| - 1
      ensures LowBackStep(o, p, dfDt)[j] == BackStep(o, p, dfDt)[j]
    {
      StepArith(o[j], o[j + 1], p, dfDt);
    }
  }

  /** The arithmetic of `LowBackStepIsBackStep`. */
  lemma StepArith(a: real, b: real, p: real, df: real)
    ensures df * ((1.0 - p) * a + p * b) == (a * (1.0 - p) + b * p) * df
  {
  }

  /** This pricer's price step is the shared engine's. */
  lemma LowPriceStepIsPriceStep(s: seq<real>, d: real)
    requires |s| >= 1
    ensures LowPriceStep(s, d) == PriceStep(s, d)
  {
  }

  /** Discounting the sum once at the end gives the shared engine's collapse, which discounts
      every term. */
  lemma LowCollapseIsCollapse(o: seq<real>, p: real, dfT: real)
    requires |o| >= 1
    ensures LowCollapsePrice(o, p, dfT) == CollapsePrice(o, p, dfT)
  {
    CollapseIsDiscountedExpectation(o, p, 1.0);
    CollapseIsDiscountedExpectation(o, p, dfT);
    hide CollapseSum, CollapsePrice, Expect;
    assert CollapsePrice(o, p, 1.0) == CollapseSum(o, p, 1.0, |o|);
  }

  /** Prices a low exercise price option on spot `s0` on an `n`-step lattice, `n` being the
      caller's step count or three: exactly the European lattice price of a call struck at
      `0.01`, with or without the trees. */
  method CalcLT(s0: real, sp: LatticeSpecs, nsteps: Option<nat>, keepHist: bool)
    returns (r: LatticeResult)
    ensures r.subMethod == SubMethod
    ensures r.refTree.Some? == keepHist && r.optTree.Some? == keepHist
    ensures keepHist ==>
      r.refTree.value == PriceTree(TerminalPrices(s0, sp.u, sp.d, Steps(nsteps)), sp.d) &&
      r.optTree.value
        == ValueTree(European.TerminalValues(Contract(s0, LowStrike, Call), sp, Steps(nsteps)), sp.p, sp.dfDt) &&
      r.px == r.optTree.value[0][0]
    ensures keepHist ==>
      r.px == Pow(sp.dfDt, Steps(nsteps))
        * Expect(European.TerminalValues(Contract(s0, LowStrike, Call), sp, Steps(nsteps)), sp.p)
    ensures !keepHist ==>
      r.px == sp.dfT * Expect(European.TerminalValues(Contract(s0, LowStrike, Call), sp, Steps(nsteps)), sp.p)
    ensures ConsistentDiscount(sp, Steps(nsteps)) ==>
      r.px == ValueTree(European.TerminalValues(Contract(s0, LowStrike, Call), sp, Steps(nsteps)), sp.p, sp.dfDt)[0][0]
    ensures ValidProbability(sp) && NonNegativeDiscounts(sp) ==> r.px >= 0.0
    ensures keepHist && Recombining(sp) ==> r.refTree.value[0][0] == s0
  {
    European.ModeFacts(Contract(s0, LowStrike, Call), sp, Steps(nsteps));
    LowPayoffsAreCallPayoffs(s0, sp, Steps(nsteps));
    if keepHist {
      var px, sTree, oTree := FullHistory(TerminalPrices(s0, sp.u, sp.d, Steps(nsteps)),
                                          LowPayoffs(TerminalPrices(s0, sp.u, sp.d, Steps(nsteps))),
                                          sp.p, sp.d, sp.dfDt);
      r := LatticeResult(px, SubMethod, Some(sTree), Some(oTree));
    } else {
      LowCollapseIsCollapse(LowPayoffs(TerminalPrices(s0, sp.u, sp.d, Steps(nsteps))), sp.p, sp.dfT);
      var px := LowCollapsePrice(LowPayoffs(TerminalPrices(s0, sp.u, sp.d, Steps(nsteps))), sp.p, sp.dfT);
      r := LatticeResult(px, SubMethod, None, None);
    }
  }

  /** The pricing entry point for the lattice method: overrides the strike with `0.01` and the
      right with a call, then prices on the lattice. The price is the European lattice price
      of the overridden contract. */
  method CalcPx(c: Contract, sp: LatticeSpecs, nsteps: Option<nat>, keepHist: bool)
    returns (priced: Contract, r: LatticeResult)
    ensures priced == Contract(c.s0, LowStrike, Call)
    ensures keepHist ==>
      r.px == Pow(sp.dfDt, Steps(nsteps)) * Expect(European.TerminalValues(priced, sp, Steps(nsteps)), sp.p)
    ensures !keepHist ==>
      r.px == sp.dfT * Expect(European.TerminalValues(priced, sp, Steps(nsteps)), sp.p)
    ensures r.refTree.Some? == keepHist && r.optTree.Some? == keepHist
  {
    priced := Overridden(c);
    r := CalcLT(priced.s0, sp, nsteps, keepHist);
  }

  /** When every terminal price is at least the one-cent strike the option is always
      exercised, and its collapse price is the discounted expected terminal price less the
      discounted strike, `df_T * (S0 * g^n - 0.01)` with `g == p*u + (1-p)*d`. */
  lemma {:induction false} DeepInTheMoney(s0: real, sp: LatticeSpecs, n: nat)
    requires Exercised(TerminalPrices(s0, sp.u, sp.d, n))
    ensures CollapsePrice(LowPayoffs(TerminalPrices(s0, sp.u, sp.d, n)), sp.p, sp.dfT)
      == sp.dfT * (s0 * Pow(sp.p * sp.u + (1.0 - sp.p) * sp.d, n) - LowStrike)
  {
    hide Expect, CollapsePrice, Pow, LowPayoffs, TerminalPrices, Exercised;
    ExercisedExpectation(s0, sp, n);
    CollapseIsDiscountedExpectation(LowPayoffs(TerminalPrices(s0, sp.u, sp.d, n)), sp.p, sp.dfT);
    ExerciseArith(CollapsePrice(LowPayoffs(TerminalPrices(s0, sp.u, sp.d, n)), sp.p, sp.dfT),
                  Expect(LowPayoffs(TerminalPrices(s0, sp.u, sp.d, n)), sp.p),
                  s0, sp.p * sp.u + (1.0 - sp.p) * sp.d, n, sp.dfT);
  }

  /** When every terminal price is at least the strike, the expected payoff is the expected
      terminal price less the strike, `S0 * g^n - 0.01`. */
  lemma ExercisedExpectation(s0: real, sp: LatticeSpecs, n: nat)
    requires Exercised(TerminalPrices(s0, sp.u, sp.d, n))
    ensures Expect(LowPayoffs(TerminalPrices(s0, sp.u, sp.d, n)), sp.p)
      == s0 * Pow(sp.p * sp.u + (1.0 - sp.p) * sp.d, n) - LowStrike
  {
    ExpectTerminalPrices(s0, sp.u, sp.d, sp.p, n);
    ExercisedLessStrike(TerminalPrices(s0, sp.u, sp.d, n), sp.p);
  }

  /** On a level where every price is at least the strike, the expected payoff is the
      expected price less the strike. */
  lemma ExercisedLessStrike(s: seq<real>, p: real)
    requires |s| >= 1 && Exercised(s)
    ensures Expect(LowPayoffs(s), p) == Expect(s, p) - LowStrike
  {
    ExpectLessConstant(LowPayoffs(s), s, LowStrike, p);
  }

  /** Every price of the level is at least the strike, so every payoff is exercised. */
  predicate Exercised(s: seq<real>)
  {
    forall k :: 0 <= k < |s| ==> s[k] >= LowStrike
  }

  /** The arithmetic of `DeepInTheMoney`. */
  lemma ExerciseArith(cp: real, eo: real, s0: real, g: real, n: nat, df: real)
    requires cp == df * eo && eo == s0 * Pow(g, n) - LowStrike
    ensures cp == df * (s0 * Pow(g, n) - LowStrike)
  {
  }

  /** The two-step reference tree of a recombining lattice: three levels of one, two and
      three prices, with the spot price at the root and again at the middle of the terminal
      level. */
  lemma TwoStepReferenceTree(s0: real, sp: LatticeSpecs)
    requires Recombining(sp)
    ensures |PriceTree(TerminalPrices(s0, sp.u, sp.d, 2), sp.d)| == 3
    ensures PriceTree(TerminalPrices(s0, sp.u, sp.d, 2), sp.d)[0] == [s0]
    ensures PriceTree(TerminalPrices(s0, sp.u, sp.d, 2), sp.d)[1] == [s0 * sp.d, s0 * sp.u]
    ensures PriceTree(TerminalPrices(s0, sp.u, sp.d, 2), sp.d)[2] == [s0 * sp.d * sp.d, s0, s0 * sp.u * sp.u]
  {
    RecombiningPriceTree(s0, sp.u, sp.d, 2);
    TerminalMiddleIsSpot(s0, sp.u, sp.d, 1);
    assert TerminalPrices(s0, sp.u, sp.d, 0)[0] == s0;
    assert TerminalPrices(s0, sp.u, sp.d, 1)[0] == s0 * sp.d;
    assert TerminalPrices(s0, sp.u, sp.d, 1)[1] == s0 * sp.u;
    assert TerminalPrices(s0, sp.u, sp.d, 2)[0] == s0 * sp.d * sp.d;
    assert TerminalPrices(s0, sp.u, sp.d, 2)[2] == s0 * sp.u * sp.u;
  }

  /** The collapse as written takes `numpy.log(p)` and `numpy.log(1 - p)`: at `p == 1` the
      second is `-inf`, its product with the zero exponent of the top node is NaN, and the
      price is NaN, while the tree and the corrected collapse price the option. */
  lemma CollapseNotANumberWhereTreePrices()
    ensures ValueTree([0.0, 1.0], 1.0, 1.0)[0][0] == 1.0
    ensures CollapseAsWritten([0.0, 1.0], 1.0, 1.0, NotANumber) == Failure(NotANumber)
    ensures LowCollapsePrice([0.0, 1.0], 1.0, 1.0) == 1.0
  {
    European.CollapseFailsWhereTreePrices();
    LowCollapseIsCollapse([0.0, 1.0], 1.0, 1.0);
  }
}
