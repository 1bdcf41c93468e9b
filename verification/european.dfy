/** The lattice pricer of a European option: the terminal level of an `n`-step binomial tree,
    the floored payoffs `max((S - K) * signCP, 0)`, and either the full-history backward
    induction or the one-step collapse to a binomially weighted sum. */
module European {
  import opened Wrappers
  import opened RealPow
  import opened Lattice
  import opened Expectation
  import opened Valuation

  /** The sub-method label recorded with every lattice price. */
  const SubMethod: string := "binary tree; Hull p.135"

  /** The terminal payoffs of the `n`-step lattice of contract `c`. */
  function TerminalValues(c: Contract, sp: LatticeSpecs, n: nat): (o: seq<real>)
    ensures |o| == n + 1 && NonNegative(o)
  {
    TerminalPayoffs(TerminalPrices(c.s0, sp.u, sp.d, n), c.k, SignCP(c.right))
  }

  /** Prices contract `c` on an `n`-step lattice, `n` being the caller's step count or three.
      With `keepHist` the backward induction keeps both trees and returns the root of the
      value tree; without it the collapse returns `df_T` times the binomially weighted sum of
      the terminal payoffs and no tree is recorded. */
  method CalcLT(c: Contract, sp: LatticeSpecs, nsteps: Option<nat>, keepHist: bool)
    returns (r: LatticeResult)
    ensures r.subMethod == SubMethod
    ensures r.refTree.Some? == keepHist && r.optTree.Some? == keepHist
    ensures keepHist ==>
      r.refTree.value == PriceTree(TerminalPrices(c.s0, sp.u, sp.d, Steps(nsteps)), sp.d) &&
      r.optTree.value == ValueTree(TerminalValues(c, sp, Steps(nsteps)), sp.p, sp.dfDt) &&
      r.px == r.optTree.value[0][0]
    ensures keepHist ==> r.px == Pow(sp.dfDt, Steps(nsteps)) * Expect(TerminalValues(c, sp, Steps(nsteps)), sp.p)
    ensures !keepHist ==> r.px == sp.dfT * Expect(TerminalValues(c, sp, Steps(nsteps)), sp.p)
    ensures ConsistentDiscount(sp, Steps(nsteps)) ==>
      r.px == ValueTree(TerminalValues(c, sp, Steps(nsteps)), sp.p, sp.dfDt)[0][0]
    ensures ValidProbability(sp) && NonNegativeDiscounts(sp) ==> r.px >= 0.0
    ensures keepHist && Recombining(sp) ==> r.refTree.value[0][0] == c.s0
  {
    ModeFacts(c, sp, Steps(nsteps));
    if keepHist {
      var px, sTree, oTree := FullHistory(TerminalPrices(c.s0, sp.u, sp.d, Steps(nsteps)),
                                          TerminalValues(c, sp, Steps(nsteps)), sp.p, sp.d, sp.dfDt);
      r := LatticeResult(px, SubMethod, Some(sTree), Some(oTree));
    } else {
      var px := CollapsePrice(TerminalValues(c, sp, Steps(nsteps)), sp.p, sp.dfT);
      r := LatticeResult(px, SubMethod, None, None);
    }
  }

  /** What either mode returns for contract `c` on an `n`-step lattice: the tree root is the
      `df_dt^n`-discounted expectation and the collapse the `df_T`-discounted one, the two
      agree when `df_T == df_dt^n`, neither is negative under the lattice assumptions, and a
      recombining price tree has the spot price at its root. */
  lemma ModeFacts(c: Contract, sp: LatticeSpecs, n: nat)
    ensures ValueTree(TerminalValues(c, sp, n), sp.p, sp.dfDt)[0][0]
      == Pow(sp.dfDt, n) * Expect(TerminalValues(c, sp, n), sp.p)
    ensures CollapsePrice(TerminalValues(c, sp, n), sp.p, sp.dfT)
      == sp.dfT * Expect(TerminalValues(c, sp, n), sp.p)
    ensures ConsistentDiscount(sp, n) ==>
      CollapsePrice(TerminalValues(c, sp, n), sp.p, sp.dfT)
        == ValueTree(TerminalValues(c, sp, n), sp.p, sp.dfDt)[0][0]
    ensures ValidProbability(sp) && NonNegativeDiscounts(sp) ==>
      ValueTree(TerminalValues(c, sp, n), sp.p, sp.dfDt)[0][0] >= 0.0 &&
      CollapsePrice(TerminalValues(c, sp, n), sp.p, sp.dfT) >= 0.0
    ensures Recombining(sp) ==> PriceTree(TerminalPrices(c.s0, sp.u, sp.d, n), sp.d)[0][0] == c.s0
  {
    var o := TerminalValues(c, sp, n);
    hide Expect, Pow, ValueTree, PriceTree, CollapsePrice, TerminalValues, TerminalPrices;
    RootIsDiscountedExpectation(o, sp.p, sp.dfDt);
    CollapseIsDiscountedExpectation(o, sp.p, sp.dfT);
    if ConsistentDiscount(sp, n) {
      ModesAgree(o, sp.p, sp.dfDt, sp.dfT);
    }
    if ValidProbability(sp) && NonNegativeDiscounts(sp) {
      ExpectNonNegative(o, sp.p);
      PowNonNegative(sp.dfDt, n);
      ProductNonNegative(Pow(sp.dfDt, n), Expect(o, sp.p));
      ProductNonNegative(sp.dfT, Expect(o, sp.p));
    }
    if Recombining(sp) {
      RecombiningPriceTree(c.s0, sp.u, sp.d, n);
    }
  }

  /** With zero steps the loop does not run: the full-history price is the undiscounted payoff
      at the spot price, while the collapse discounts it once by `df_T`. */
  lemma ZeroSteps(c: Contract, sp: LatticeSpecs)
    ensures ValueTree(TerminalValues(c, sp, 0), sp.p, sp.dfDt)[0][0] == Payoff(c.s0, c.k, SignCP(c.right))
    ensures CollapsePrice(TerminalValues(c, sp, 0), sp.p, sp.dfT) == sp.dfT * Payoff(c.s0, c.k, SignCP(c.right))
  {
    TerminalPriceAt(c.s0, sp.u, sp.d, 0, 0);
    ExpectSingleton(TerminalValues(c, sp, 0), sp.p);
    ModeFacts(c, sp, 0);
  }

  /** Put-call parity on the lattice: the call price less the put price is the discounted
      expected terminal price less the discounted strike, `df_T * (S0 * g^n - K)` with
      `g == p*u + (1-p)*d`. */
  lemma {:induction false} PutCallParity(s0: real, k: real, sp: LatticeSpecs, n: nat)
    ensures CollapsePrice(TerminalValues(Contract(s0, k, Call), sp, n), sp.p, sp.dfT)
      - CollapsePrice(TerminalValues(Contract(s0, k, Put), sp, n), sp.p, sp.dfT)
      == sp.dfT * (s0 * Pow(sp.p * sp.u + (1.0 - sp.p) * sp.d, n) - k)
  {
    hide Expect, CollapsePrice, Pow, TerminalValues, TerminalPrices;
    ExpectCallLessPut(s0, k, sp, n);
    ExpectTerminalPrices(s0, sp.u, sp.d, sp.p, n);
    CollapseIsDiscountedExpectation(TerminalValues(Contract(s0, k, Call), sp, n), sp.p, sp.dfT);
    CollapseIsDiscountedExpectation(TerminalValues(Contract(s0, k, Put), sp, n), sp.p, sp.dfT);
    ParityArith(CollapsePrice(TerminalValues(Contract(s0, k, Call), sp, n), sp.p, sp.dfT),
                CollapsePrice(TerminalValues(Contract(s0, k, Put), sp, n), sp.p, sp.dfT),
                Expect(TerminalValues(Contract(s0, k, Call), sp, n), sp.p),
                Expect(TerminalValues(Contract(s0, k, Put), sp, n), sp.p),
                Expect(TerminalPrices(s0, sp.u, sp.d, n), sp.p),
                s0, sp.p * sp.u + (1.0 - sp.p) * sp.d, n, k, sp.dfT);
  }

  /** The expected call payoff less the expected put payoff is the expected terminal price
      less the strike. */
  lemma ExpectCallLessPut(s0: real, k: real, sp: LatticeSpecs, n: nat)
    ensures Expect(TerminalValues(Contract(s0, k, Call), sp, n), sp.p)
      - Expect(TerminalValues(Contract(s0, k, Put), sp, n), sp.p)
      == Expect(TerminalPrices(s0, sp.u, sp.d, n), sp.p) - k
  {
    var s := TerminalPrices(s0, sp.u, sp.d, n);
    var call, put := TerminalValues(Contract(s0, k, Call), sp, n), TerminalValues(Contract(s0, k, Put), sp, n);
    var intrinsic := seq(n + 1, i requires 0 <= i <= n => s[i] - k);
    ParityNodes(s0, k, sp, n);
    hide Expect, TerminalValues, TerminalPrices;
    ExpectDifference(intrinsic, call, put, sp.p);
    ExpectLessConstant(intrinsic, s, k, sp.p);
  }

  /** Node by node, the call payoff less the put payoff is the intrinsic value `S - K`. */
  lemma ParityNodes(s0: real, k: real, sp: LatticeSpecs, n: nat)
    ensures forall i :: 0 <= i <= n ==>
      TerminalValues(Contract(s0, k, Call), sp, n)[i] - TerminalValues(Contract(s0, k, Put), sp, n)[i]
        == TerminalPrices(s0, sp.u, sp.d, n)[i] - k
  {
    forall i | 0 <= i <= n
      ensures TerminalValues(Contract(s0, k, Call), sp, n)[i] - TerminalValues(Contract(s0, k, Put), sp, n)[i]
        == TerminalPrices(s0, sp.u, sp.d, n)[i] - k
    {
      PayoffParity(TerminalPrices(s0, sp.u, sp.d, n)[i], k);
    }
  }

  /** A call payoff less a put payoff at the same strike is the intrinsic value `S - K`. */
  lemma PayoffParity(s: real, k: real)
    ensures Payoff(s, k, SignCP(Call)) - Payoff(s, k, SignCP(Put)) == s - k
  {
  }

  /** The arithmetic of `PutCallParity`. */
  lemma ParityArith(cp: real, pp: real, ec: real, ep: real, es: real, s0: real, g: real, n: nat,
                    k: real, df: real)
    requires cp == df * ec && pp == df * ep && ec - ep == es - k && es == s0 * Pow(g, n)
    ensures cp - pp == df * (s0 * Pow(g, n) - k)
  {
  }

  /** The collapse as written takes `math.log(p)` and `math.log(1 - p)`, which raise a domain
      error unless `0 < p < 1`. With a certain up move (`p == 1`), a one-step call at the
      money has terminal payoffs `[0, 1]`: the tree prices it at `1`, the collapse as written
      raises, and the corrected collapse agrees with the tree. */
  lemma CollapseFailsWhereTreePrices()
    ensures TerminalValues(Contract(1.0, 1.0, Call), LatticeSpecs(2.0, 0.5, 1.0, 1.0, 1.0), 1) == [0.0, 1.0]
    ensures ValueTree([0.0, 1.0], 1.0, 1.0)[0][0] == 1.0
    ensures CollapseAsWritten([0.0, 1.0], 1.0, 1.0, MathDomainError) == Failure(MathDomainError)
    ensures CollapsePrice([0.0, 1.0], 1.0, 1.0) == 1.0
  {
    var sp := LatticeSpecs(2.0, 0.5, 1.0, 1.0, 1.0);
    var s := TerminalPrices(1.0, 2.0, 0.5, 1);
    assert s[0] == 0.5 && s[1] == 2.0;
    assert TerminalValues(Contract(1.0, 1.0, Call), sp, 1) == [0.0, 1.0];
    assert ValueTree([0.0, 1.0], 1.0, 1.0)[0] == Rollback([0.0, 1.0], 1, 1.0, 1.0);
    ModesAgree([0.0, 1.0], 1.0, 1.0, 1.0);
  }
}
