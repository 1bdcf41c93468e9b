/** The inputs and outputs a lattice pricer shares with its option base class: the contract
    terms, the lattice constants, and the recorded result. The base class that derives the
    constants and stores the result is not part of this model; here they are plain values. */
module Valuation {
  import opened Wrappers
  import opened RealPow

  /** The right of the option holder. */
  datatype Right = Call | Put

  /** `+1` for a call and `-1` for a put, so one payoff formula serves both rights. */
  function SignCP(right: Right): real
  {
    match right
    case Call => 1.0
    case Put => -1.0
  }

  /** The terms the lattice pricer reads: spot price of the underlying, strike, right. */
  datatype Contract = Contract(s0: real, k: real, right: Right)

  /** The constants of an `n`-step lattice: up and down factors, risk-neutral up probability,
      per-step discount factor and whole-horizon discount factor. */
  datatype LatticeSpecs = LatticeSpecs(u: real, d: real, p: real, dfDt: real, dfT: real)

  /** `p` is a probability. */
  predicate ValidProbability(sp: LatticeSpecs)
  {
    0.0 <= sp.p <= 1.0
  }

  /** Discount factors are non-negative. */
  predicate NonNegativeDiscounts(sp: LatticeSpecs)
  {
    sp.dfDt >= 0.0 && sp.dfT >= 0.0
  }

  /** An up move followed by a down move returns to the same price. */
  predicate Recombining(sp: LatticeSpecs)
  {
    sp.u * sp.d == 1.0
  }

  /** Discounting over the horizon equals discounting `n` times by one step. */
  predicate ConsistentDiscount(sp: LatticeSpecs, n: nat)
  {
    sp.dfT == Pow(sp.dfDt, n)
  }

  /** What a pricing call records: the price, a label of the sub-method, and, in full-history
      mode only, the price tree and the option-value tree (valuation date first). */
  datatype LatticeResult = LatticeResult(
    px: real,
    subMethod: string,
    refTree: Option<seq<seq<real>>>,
    optTree: Option<seq<seq<real>>>)

  /** The number of steps used when the caller gave none. */
  const DefaultSteps: nat := 3

  /** The step count actually used: the caller's, or the default. */
  function Steps(nsteps: Option<nat>): nat
  {
    nsteps.GetOr(DefaultSteps)
  }
}
