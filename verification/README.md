# Binomial-lattice pricing of European and low exercise price options

A Dafny model of the lattice pricer of the qfrm option library. The `European` option prices
on an `n`-step binomial tree (`n` defaults to 3):

- The terminal level holds the prices `S[k] = S0 * d^(n-k) * u^k` for `k = 0..n`.
- The floored payoffs are `max((S[k] - K) * signCP, 0)`, where `signCP` is `+1` for a call and
  `-1` for a put.
- The price then comes from one of two modes.
  - Full-history mode (`keep_hist`) steps back one level at a time. Each step gives
    `O'[j] = df_dt * ((1-p) * O[j] + p * O[j+1])` and `S'[j] = d * S[j+1]`. The mode keeps
    both trees and returns the root `O_tree[0][0]`.
  - Collapse mode prices in one step, as `df_T` times the binomially weighted sum of the
    terminal payoffs. The weights are computed through logarithms of factorials.

The `LowExercisePrice` option (LEPO) overrides the strike with `0.01` and the right with a call.
It then prices on the same lattice. Its code writes the payoff, the backward step, the price
step and the collapse its own way. The model proves each of these spellings equal to the
shared engine's. It computes the payoff and the collapse in the LEPO spelling, and runs the
full-history loop with the shared engine's steps.

The model is one generic engine over `real`, parameterised by the strike and `signCP`:

| module | file | holds |
|---|---|---|
| `Wrappers` | `wrappers.dfy` | `Option` and `Result` |
| `RealPow` | `real_pow.dfy` | natural powers of reals |
| `Binomial` | `binomial.dfy` | factorials, Pascal's binomial coefficients, and the factorial table that the log table encodes |
| `Valuation` | `valuation.dfy` | contract, lattice constants, their assumptions, and the result record |
| `Lattice` | `lattice.dfy` | terminal level, payoffs, backward steps, trees, the full-history loop, the collapse |
| `Expectation` | `expectation.dfy` | the binomial expectation and the theorems relating both modes to it |
| `European` | `european.dfy` | the European lattice entry point and its properties |
| `LowExercisePrice` | `low_exercise_price.dfy` | the LEPO entry points and their agreement with the European engine |

The lattice constants `u, d, p, df_dt, df_T` are inputs; the routine that computes them is not
part of this model. The pricer never checks any assumption about them, so the operations take
none. The lemmas state what holds under the usual assumptions:

- `0 <= p <= 1` and non-negative discounts give non-negative prices;
- `u * d == 1` gives a recombining price tree with `S0` at its root;
- `df_T == df_dt^n` makes the two modes agree.

The central theorem proves by induction on the levels that backward induction over `n`
levels is `df_dt^n * sum_i C(n,i) p^i (1-p)^(n-i) O[i]` (`Expectation.RootIsDiscountedExpectation`).
The collapse is `df_T` times the same sum (`Expectation.CollapseIsDiscountedExpectation`).
The two modes therefore agree whenever `df_T == df_dt^n`, for every `p` (`Expectation.ModesAgree`).

The log-space weights are modelled by their exponential image:
- The cumulative sums of logarithms `csl[k] = log k!` become the table `k!` (`Binomial.FactorialTable`).
- `exp(csl[n] - csl[i] - csl[n-i] + i log p + (n-i) log(1-p))` becomes
  `n!/(i!(n-i)!) * p^i * (1-p)^(n-i)` (`Lattice.CollapseWeight`).
- That weight is proved equal to Pascal's `C(n,i) p^i (1-p)^(n-i)` (`Expectation.CollapseWeightIsBinomial`).

Where the exponential image stops being faithful is recorded under "## Findings". The logarithm
of `p` or `1 - p` fails at the edge probabilities.

With `n = 0`, `_calc_LT` runs no loop iteration: full-history mode returns `O[0]`, the
undiscounted payoff at `S0`, and collapse mode returns `df_T * O[0]` (`European.ZeroSteps`).

## Model

| member | source | states |
|---|---|---|
| Lattice.TerminalPrices | qfrm/options/European.py:126-128 | the terminal level of an `n`-step lattice has `n + 1` prices, and neighbouring nodes differ by trading one down move for one up move: `S[k+1] * d == S[k] * u` |
| Lattice.TerminalMiddleIsSpot | qfrm/options/LowExercisePrice.py:64-65 | with `u * d == 1` the middle node of a `2m`-step terminal level is the spot price |
| Lattice.Payoff | qfrm/options/European.py:129 | the payoff is non-negative, at least the signed intrinsic value `(S - K) * signCP`, and equal to one of `0` and that value |
| Lattice.TerminalPayoffs | qfrm/options/European.py:129 | one payoff per terminal node, every one non-negative |
| Lattice.BackStep | qfrm/options/European.py:136 | one backward step maps a value level of `i + 1` entries to one of `i` entries |
| Lattice.BackStepNonNegative | qfrm/options/European.py:136 | with `0 <= p <= 1` and `df_dt >= 0` one backward step keeps a non-negative level non-negative |
| Lattice.PriceStep | qfrm/options/European.py:137 | one price step maps a level of `i + 1` prices to one of `i` prices, and keeps non-negative prices non-negative when `d >= 0` |
| Lattice.Rollback | qfrm/options/European.py:135-136 | `k` backward steps from a level of `n + 1` values leave `n + 1 - k` values |
| Lattice.PriceRollback | qfrm/options/European.py:135-137 | `k` price steps from a level of `n + 1` prices leave `n + 1 - k` prices |
| Lattice.RollbackNonNegative | qfrm/options/European.py:135-136 | every level the backward induction reaches is non-negative when the payoffs are |
| Lattice.ValueTree | qfrm/options/European.py:133-138 | the value tree has `n + 1` levels and level `m` has `m + 1` entries |
| Lattice.PriceTree | qfrm/options/European.py:133-138 | the price tree has `n + 1` levels and level `m` has `m + 1` entries |
| Lattice.TreeRecurrence | qfrm/options/European.py:133-138 | the last level of each tree is the terminal level, and every earlier level is one backward step (value) or one price step (price) from the next |
| Lattice.ValueTreeNonNegative | qfrm/options/European.py:135-138 | under `0 <= p <= 1` and `df_dt >= 0` every level of the value tree is non-negative |
| Lattice.RecombiningPriceStep | qfrm/options/European.py:137 | with `u * d == 1` the price step of the `n`-step terminal level is the `(n-1)`-step terminal level |
| Lattice.RecombiningPriceRollback | qfrm/options/European.py:135-137 | with `u * d == 1` stepping back `k` levels from the `n`-step terminal level gives the `(n-k)`-step terminal level |
| Lattice.RecombiningPriceTree | qfrm/options/European.py:73-75 | with `u * d == 1` level `m` of the price tree is `S0 * d^(m-j) * u^j` and the root is `S0` |
| Lattice.ValueLevelsStep | qfrm/options/European.py:138 | prepending one backward step of the earliest value level extends the levels built so far by one |
| Lattice.PriceLevelsStep | qfrm/options/European.py:138 | prepending one price step of the earliest price level extends the levels built so far by one |
| Lattice.FullHistory | qfrm/options/European.py:132-140 | the loop builds exactly the price and value trees, from valuation date to maturity, and returns the root `O_tree[0][0]` |
| Lattice.CollapseWeight | qfrm/options/European.py:142-143 | the weight `exp(tmp[i])` of terminal node `i` is non-negative when `0 <= p <= 1` |
| Lattice.CollapseSum | qfrm/options/European.py:144 | every partial sum of the discounted weighted payoffs is non-negative when `0 <= p <= 1`, `df_T >= 0` and the payoffs are non-negative |
| Lattice.CollapsePrice | qfrm/options/European.py:141-144 | the collapse price is non-negative when `0 <= p <= 1`, `df_T >= 0` and the payoffs are non-negative |
| Expectation.AsWrittenIsDiscountedExpectation | qfrm/options/European.py:141-144 | the collapse as written fails for every `p` outside `(0, 1)`; when it succeeds its price is `df_T * sum_i C(n,i) p^i (1-p)^(n-i) O[i]`, and that is the root of the value tree when `df_T == df_dt^n` |
| Binomial.FactorialTable | qfrm/options/European.py:142 | the table has `n + 1` entries and entry `k` is `k!`, the exponential image of the cumulative log sums |
| Binomial.FactorialRatio | qfrm/options/European.py:143 | `t[n] / (t[k] * t[n-k])` is Pascal's binomial coefficient `C(n, k)` |
| Binomial.ChooseFactorial | qfrm/options/European.py:143 | `C(n, k) * k! * (n-k)! == n!` |
| Expectation.CollapseWeightIsBinomial | qfrm/options/European.py:143 | the collapse weight of node `i` is the binomial probability `C(n,i) p^i (1-p)^(n-i)` |
| Expectation.WeightsSumToOne | qfrm/options/European.py:143 | the collapse weights of one level sum to one, for every `p` |
| Expectation.CollapseSumIsScaledPartialSum | qfrm/options/European.py:144 | every prefix of the collapse sum is `df_T` times the same prefix of the binomial expectation |
| Expectation.CollapseIsDiscountedExpectation | qfrm/options/European.py:141-144 | the collapse price is `df_T * sum_i C(n,i) p^i (1-p)^(n-i) O[i]` |
| Expectation.ExpectMix | qfrm/options/European.py:136 | the undiscounted backward step leaves the binomial expectation unchanged |
| Expectation.ExpectBackStep | qfrm/options/European.py:136 | one backward step multiplies the binomial expectation by `df_dt` |
| Expectation.RollbackExpect | qfrm/options/European.py:135-136 | `k` backward steps multiply the binomial expectation by `df_dt^k` |
| Expectation.RootIsDiscountedExpectation | qfrm/options/European.py:135-140 | the full-history price is `df_dt^n * sum_i C(n,i) p^i (1-p)^(n-i) O[i]` |
| Expectation.ModesAgree | qfrm/options/European.py:67-71 | when `df_T == df_dt^n` the collapse price equals the root of the value tree, for every `p` |
| Expectation.ExpectNonNegative | qfrm/options/European.py:144 | with `0 <= p <= 1` the expectation of non-negative payoffs is non-negative |
| Expectation.ExpectTerminalPrices | qfrm/options/European.py:128 | the expected terminal price is `S0 * (p*u + (1-p)*d)^n` |
| Expectation.MixTerminalPrices | qfrm/options/European.py:128 | mixing the `n`-step terminal level gives the `(n-1)`-step level of a spot grown by `p*u + (1-p)*d` |
| European.TerminalValues | qfrm/options/European.py:128-129 | the terminal payoffs of a contract are `n + 1` non-negative values |
| European.CalcLT | qfrm/options/European.py:124-146 | `n` is the caller's step count or 3; with `keep_hist` both trees are kept, both are the recurrence's trees, and the price is their root `df_dt^n * E[O]`; without it no tree is kept and the price is `df_T * E[O]`; the modes agree when `df_T == df_dt^n`; the price is non-negative under the lattice assumptions; a recombining price tree has `S0` at its root |
| European.ModeFacts | qfrm/options/European.py:132-144 | the tree root is `df_dt^n * E[O]`, the collapse is `df_T * E[O]`, they agree when `df_T == df_dt^n`, both are non-negative under the assumptions, and a recombining price tree has `S0` at its root |
| European.ZeroSteps | qfrm/options/European.py:135-144 | with zero steps the full-history price is the undiscounted payoff at `S0` and the collapse is `df_T` times it |
| European.PutCallParity | qfrm/options/European.py:129 | the collapse call price less the collapse put price at the same strike is `df_T * (S0 * (p*u + (1-p)*d)^n - K)` |
| European.ExpectCallLessPut | qfrm/options/European.py:129 | the expected call payoff less the expected put payoff is the expected terminal price less the strike |
| European.CollapseFailsWhereTreePrices | qfrm/options/European.py:143 | at `p == 1` a one-step at-the-money call has payoffs `[0, 1]`; the tree prices it at `1`, the collapse as written fails with a math domain error, and the corrected collapse gives `1` |
| LowExercisePrice.Overridden | qfrm/options/LowExercisePrice.py:113-115 | the priced contract keeps the spot and has strike `0.01` and the call right |
| LowExercisePrice.CalcPx | qfrm/options/LowExercisePrice.py:113-116 | whatever strike and right the caller set, the lattice price is that of a call struck at `0.01`, with or without the trees |
| LowExercisePrice.CalcLT | qfrm/options/LowExercisePrice.py:152-182 | the LEPO lattice price and trees are the European engine's for a call struck at `0.01`, in both modes, with the same agreement, sign and root facts |
| LowExercisePrice.LowPayoffs | qfrm/options/LowExercisePrice.py:158 | one payoff per node: non-negative, at least `S - 0.01`, and zero wherever `S <= 0.01` |
| LowExercisePrice.LowBackStep | qfrm/options/LowExercisePrice.py:166 | the LEPO backward step maps a value level of `i + 1` entries to one of `i` entries |
| LowExercisePrice.LowPriceStep | qfrm/options/LowExercisePrice.py:167 | the LEPO price step maps a level of `i + 1` prices to one of `i` prices |
| LowExercisePrice.LowCollapsePrice | qfrm/options/LowExercisePrice.py:174-177 | the LEPO collapse price is non-negative when `0 <= p <= 1`, `df_T >= 0` and the payoffs are non-negative |
| LowExercisePrice.LowPayoffsAreCallPayoffs | qfrm/options/LowExercisePrice.py:156-158 | `maximum(S - 0.01, 0)` on the terminal level is the European call payoff at strike `0.01` |
| LowExercisePrice.LowBackStepIsBackStep | qfrm/options/LowExercisePrice.py:166 | the LEPO backward step `df_dt * ((1-p) O[:i] + p O[1:])` is the engine's backward step |
| LowExercisePrice.LowPriceStepIsPriceStep | qfrm/options/LowExercisePrice.py:167 | the LEPO price step `d * S[1:i+1]` is the engine's price step |
| LowExercisePrice.LowCollapseIsCollapse | qfrm/options/LowExercisePrice.py:174-177 | discounting the weighted sum once at the end equals the engine's collapse, which discounts every term |
| LowExercisePrice.ExercisedExpectation | qfrm/options/LowExercisePrice.py:158 | when every terminal price is at least `0.01` the expected payoff is `S0 * (p*u + (1-p)*d)^n - 0.01` |
| LowExercisePrice.DeepInTheMoney | qfrm/options/LowExercisePrice.py:174-177 | when every terminal price is at least `0.01` the collapse price is `df_T * (S0 * (p*u + (1-p)*d)^n - 0.01)` |
| LowExercisePrice.TwoStepReferenceTree | qfrm/options/LowExercisePrice.py:64-65 | a recombining 2-step reference tree has levels of 1, 2 and 3 prices, `[S0]`, `[S0 d, S0 u]`, `[S0 d d, S0, S0 u u]` |
| LowExercisePrice.CollapseNotANumberWhereTreePrices | qfrm/options/LowExercisePrice.py:175-176 | at `p == 1` the tree prices the one-step payoffs `[0, 1]` at `1`, the collapse as written yields NaN, and the corrected LEPO collapse gives `1` |

## Left out

- `European._calc_BS`, `European._calc_MC`, and `LowExercisePrice._calc_BS`, `_calc_MC` and `_calc_FD` are not modelled. They are Black-Scholes, Monte Carlo and finite-difference pricers built on transcendental floating-point functions and foreign numerical solvers, or they are empty stubs.
- The dispatch of `calc_px` to a method other than the lattice is left out, because those methods are left out. `LowExercisePrice.CalcPx` models the lattice path of the override.
- `LT_specs` is not part of this model. Its outputs `u, d, p, df_dt, df_T` are parameters, and the assumptions the lemmas need are stated as predicates (`Valuation.ValidProbability`, `NonNegativeDiscounts`, `Recombining`, `ConsistentDiscount`).
- The floating-point logarithms and exponentials of the collapse are modelled by their exact values over `real`, so rounding is not modelled. For example, the doctest root `19.600000000000005` is `S0 == 19.6` in the model.
- The two pricers order products and sums differently: `(O[:i]*(1-p) + O[1:]*p)*df_dt` against `df_dt*((1-p)*O[:i] + p*O[1:])`, and a collapse discounted per term against one discounted once. These are equal over `real`, as `LowExercisePrice.LowBackStepIsBackStep` and `LowExercisePrice.LowCollapseIsCollapse` prove. Their floating-point differences are not modelled.
- Storing the results in `px_spec`, the `Vec`/`Util` helpers and the conversion of tree levels to tuples of Python floats are represented by the `LatticeResult` record and plain sequences.
- Plotting examples and the exact decimal values of the doctests are left out.
- European.CalcLT: collapse mode is modelled by the corrected collapse `Lattice.CollapsePrice`. For `p` outside `(0, 1)` the model returns a price where `math.log` raises in the source. `Lattice.CollapseAsWritten` and the "## Findings" table record the source's behaviour.
- LowExercisePrice.CalcLT: collapse mode is modelled by the corrected collapse. For `p` outside `(0, 1)` the model returns a price where `numpy.log` makes the source's price NaN.
- LowExercisePrice.CalcPx: it inherits `LowExercisePrice.CalcLT`'s corrected collapse. For `p` outside `(0, 1)` without `keep_hist` the model prices where the source yields NaN.
- Lattice.CollapseAsWritten: the floating-point failure is modelled as a `Result` error (`MathDomainError` for `math.log`, `NotANumber` for `numpy.log`). The model does not compute a NaN or an exception. Every `p` outside `0 < p < 1` is an error, as in the code: `p <= 0` fails at `log(p)` and `p >= 1` at `log(1 - p)`.

## Findings

| source | as written | input that shows it | evidently intended | confidence | as-written member | corrected member |
|---|---|---|---|---|---|---|
| qfrm/options/European.py:143 | the collapse weights take `math.log(p)` and `math.log(1 - p)` | `p == 1` (certain up move), e.g. `S0 = K = 1`, `u = 2`, `d = 0.5`, `n = 1`, unit discounts, a call: `math.log(0)` raises, while full-history mode prices the option at `1` | the binomial weights `C(n,i) p^i (1-p)^(n-i)` with `0^0 = 1`, so that collapse mode returns the same price as the tree for every `p` | not executed | European.CollapseFailsWhereTreePrices, Lattice.CollapseAsWritten | Lattice.CollapsePrice, Expectation.ModesAgree |
| qfrm/options/LowExercisePrice.py:175-176 | the collapse weights take `np.log(p)` and `np.log(1 - p)` | `p == 1`, terminal payoffs `[0, 1]`, `n = 1`: `np.log(0) * 0` is NaN at the top node and the price is NaN, while full-history mode prices the option at `1` | the binomial weights with `0^0 = 1`, as above | not executed | LowExercisePrice.CollapseNotANumberWhereTreePrices, Lattice.CollapseAsWritten | Lattice.CollapsePrice, LowExercisePrice.LowCollapseIsCollapse |
