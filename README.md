# Digital step-size controller construction: verified model of the numeric and bookkeeping layer

The repository derives the coefficients of a digital step-size controller for
adaptive time stepping. The controller has a denominator
`Q(x) = x^(n-1) + alpha2 x^(n-2) + ... + alphan` and a numerator
`P(x) = kbeta1 x^(n-1) + ... + kbetan`; its closed loop has the characteristic
polynomial `(x - 1) Q(x) + P(x)`. The script builds three families of
coefficient equations (denominator shape, numerator shape, pole placement),
hands them to a computer-algebra solver, and reports whether the roots of a
characteristic polynomial built from the first solution lie strictly inside
the unit circle. For n >= 2 that polynomial is in general not the solved controller's
own (see "## Findings"), and nothing is reported when a solved value is not
a floating-point number.

This project models the exact layer around the computer algebra:

- `Polynomial`: polynomials as coefficient sequences of `real`, highest
  degree first, with their value `Eval`. `ClosedLoop(alpha, kbeta)` is
  `(x - 1) * Q + P` written as coefficient arithmetic.
  `ConstructPolesPolynomial` fills an array in a loop, as
  `construct_poles_polynomial` does. Its result is proved equal to
  `ClosedLoop(alpha, kbeta)` with the leading coefficient set to 1, and so
  equal to `ClosedLoop(alpha, kbeta)` itself when `alpha[0] == 1`.
  `BuildControllerPolynomials` is the accumulation of `P` and `Q` in
  `construct_controller`, evaluated at a point.
- `Stability`: roots are pairs of reals. A root counts as outside when
  `re*re + im*im >= 1`; this agrees with `abs(z) >= 1`, boundary included.
  `AreZerosInsideUnitCircle` is the flag-and-counter loop. Its count is
  `CountOutside`, proved independent of the order of the roots.
- `Equations`: `get_parameter_equations`. `Choose` is
  `itertools.combinations`. An equation is a list of terms
  `coefficient(i, m) * m`, one per probed monomial `m`. A monomial is the
  list of parameters it multiplies. The probed monomials are shown to be
  exactly the products of parameters taken in list order of degree at most
  `max(1, max_combinations)`: single parameters are probed even when
  `max_combinations` is below 1. Over distinct parameters each is probed
  once.
- `Controller`: the parameter registry (`Param`), solved values as a sum
  type (`Value`), the mutual-exclusion guard and equation skeleton of
  `construct_controller`, and the partition and verdict of `is_stable`.

What the computer algebra provides enters as data. An `Expanded` value
gives the free symbols of an identity and its coefficient extraction. The
roots of a numeric polynomial come from a `findRoots` function parameter.
The solution branches are an input of `IsStable`.

With `alpha = [1, 0, 0]` and `kbeta = [0, 0, 1]` the builder gives the
coefficients `[1, -1, 0, 1]`, that is `x^3 - x^2 + 1`. All poles at the
origin (`x^3`) come from `kbeta = [1, 0, 0]` (`ThirdOrderExamples`).

## Model

| member | source | states |
|---|---|---|
| `Polynomial.ConstructPolesPolynomial` | construct_controller.py:6-13 | returns n+1 coefficients: first 1, then `kbeta[i] + alpha[i+1] - alpha[i]`, last `kbeta[n-1] - alpha[n-1]`. These are the coefficients of `(x-1)Q + P` with the leading one forced to 1, and exactly those when `alpha[0] == 1` |
| `Polynomial.BuilderCoefficients` | construct_controller.py:8-12 | a list that starts with 1, continues with `kbeta[i] + alpha[i+1] - alpha[i]` and ends with `kbeta[n-1] - alpha[n-1]` is `ClosedLoop(alpha, kbeta)` with its leading coefficient set to 1, and is `ClosedLoop(alpha, kbeta)` itself when `alpha[0] == 1` |
| `Polynomial.ThirdOrderExamples` | construct_controller.py:6-13 | with `alpha = [1, 0, 0]`, `kbeta = [0, 0, 1]` gives `[1, -1, 0, 1]` (`x^3 - x^2 + 1`) and `kbeta = [1, 0, 0]` gives `[1, 0, 0, 0]` (`x^3`) |
| `Polynomial.ClosedLoopEval` | construct_controller.py:6-13 | the coefficient sequence `ClosedLoop(alpha, kbeta)` takes the value `(x-1)*Q(x) + P(x)` at every point x |
| `Polynomial.ClosedLoopIsCharacteristic` | construct_controller.py:137 | when `alpha[0] == 1`, the builder's polynomial equals `(x-1)*Q + P`, where Q has its leading coefficient fixed to 1 as `construct_controller` forms it |
| `Polynomial.BuildControllerPolynomials` | construct_controller.py:100-107 | the loop accumulating P and Q gives the values of the numerator `kbeta` and the denominator `[1] + alpha[1..]` (alpha1 never used) at x |
| `Polynomial.EvalMulXMinusOne` | construct_controller.py:137 | the coefficient shift used for `(x-1)*Q` multiplies the polynomial's value by `x - 1` |
| `Stability.AreZerosInsideUnitCircle` | construct_controller.py:20-27 | the counter equals the number of roots of modulus at least 1; the flag holds exactly when no root is outside and exactly when the counter is 0 |
| `Stability.CountOutside` | construct_controller.py:22-26 | the number of roots counted never exceeds the number of roots; empty input gives 0 |
| `Stability.IsOutsideIffModulusAtLeastOne` | construct_controller.py:24 | comparing `re*re + im*im` with 1 is the same as comparing the modulus with 1, boundary counted as outside |
| `Stability.CountOutsideZeroIff` | construct_controller.py:21-27 | the count is 0 if and only if every root lies strictly inside the unit circle |
| `Stability.CountOutsideAllIff` | construct_controller.py:23-26 | the count equals the number of roots if and only if no root is strictly inside |
| `Stability.CountOutsideAppend` | construct_controller.py:23-26 | the count of two concatenated root lists is the sum of their counts |
| `Stability.CountOutsidePermutation` | construct_controller.py:23-26 | the count, and so the verdict, does not depend on the order in which the roots are listed |
| `Equations.GetParameterEquations` | construct_controller.py:30-48 | returns exactly `order` equations, the i-th for power i. Each sums the extracted coefficient of the constant, of each parameter and of each combination, in that order |
| `Equations.CollectCombinations` | construct_controller.py:32-35 | the loop over sizes 2 to `max_combinations` builds exactly the combination list `CombinationsUpTo`, empty when `max_combinations < 2` |
| `Equations.DeriveEquation` | construct_controller.py:37-47 | the equation for one power holds the terms for the constant, for each parameter and for each combination, in that order |
| `Equations.ChooseMembers` | construct_controller.py:34 | the combinations of size k are exactly the subsequences of the parameters of length k |
| `Equations.ChooseDistinct` | construct_controller.py:34 | over distinct parameters no combination of one size is listed twice |
| `Equations.CombinationsMembers` | construct_controller.py:33-35 | the combination list holds exactly the subsequences of the parameters with sizes 2 to `max_combinations` |
| `Equations.CombinationsBySize` | construct_controller.py:33-35 | the combination list is ordered by nondecreasing size, every size between 2 and `max_combinations` |
| `Equations.CombinationsDistinct` | construct_controller.py:33-35 | over distinct parameters each combination appears exactly once |
| `Equations.ProbedMonomialsMembers` | construct_controller.py:39-46 | the monomials an equation probes are exactly the products of distinct parameters of degree at most `max(1, max_combinations)` |
| `Equations.ProbedMonomialsDistinct` | construct_controller.py:39-46 | over distinct parameters no monomial is probed twice |
| `Equations.ProbedMonomialsWithoutParameters` | construct_controller.py:36-47 | with no parameters every equation is the plain coefficient of its power alone |
| `Equations.EquationValueIgnoresUnusedCombinations` | construct_controller.py:33-46 | if no cross term of degree above K occurs, raising `max_combinations` above K leaves the value of every equation unchanged |
| `Controller.ControllerParameters` | construct_controller.py:144 | the returned list is kbeta1..kbetan followed by alpha2..alphan: length 2n-1, no parameter twice |
| `Controller.SplitParameters` | construct_controller.py:77-83 | values at indices below `order-1` follow the leading 1 in `alpha_list`, the others form `beta_list`; for a list of length `2*order-1` both have length `order` and `alpha_list[0] == 1` |
| `Controller.IsStable` | construct_controller.py:68-86 | no verdict when there is no solution or when some parameter is not a float. Otherwise the verdict holds exactly when every root of the polynomial built from the first solution lies strictly inside the unit circle |
| `Controller.ControllerResolvedIff` | construct_controller.py:74 | the "all parameters are floats" test on the returned list is the same as every kbeta and every free alpha being a float |
| `Controller.IsStableReadsKBetaAsAlpha` | construct_controller.py:77-84 | on the list `construct_controller` returns, `is_stable` puts kbeta1..kbeta(n-1) where alpha2..alphan belong, and kbetan, alpha2..alphan where kbeta belongs |
| `Controller.IsStableMisjudgesOriginPoles` | construct_controller.py:77-84 | for order 2 with kbeta = (1, 0) and alpha2 = 0, the true closed loop is `x^2` (poles at the origin). `is_stable` examines `x^2 - 1`, whose roots 1 and -1 count as outside |
| `Controller.RootsOfSquareMinusOneAreOutside` | construct_controller.py:20-27 | every complex root of `x^2 - 1` has modulus at least 1, so the classifier counts it as outside, whatever root list the root finder returns |
| `Controller.RootsOfSquareAreOrigin` | construct_controller.py:20-27 | the only complex root of `x^2` is the origin, which the classifier counts as inside |
| `Controller.IsStableCorrected` | construct_controller.py:77-84 | with the partition matching the returned list, the verdict is about the roots of `(x-1)Q + P` of the solved controller itself |
| `Controller.ConstructController` | construct_controller.py:89-144 | fails exactly when both filter orders are positive, before any equation. Otherwise: n denominator, n numerator and n+1 pole-placement equations (3n+1), with bounds `n-a-e-1`, `n-s` and `n-len(pole_placements)`; the unknowns are the union of the three symbol sets; the returned parameters are `ControllerParameters(n)` |

## Findings

| source | as written | input that shows it | evidently intended | confidence | as-written member | corrected member |
|---|---|---|---|---|---|---|
| construct_controller.py:77-84 | `is_stable` takes the first `order-1` parameters as alpha values. `construct_controller` returns `kbeta + alpha[1:]` (line 144), so kbeta values land in `alpha_list` | order 2, kbeta1 = 1, kbeta2 = 0, alpha2 = 0: the controller's closed loop is `x^2` (stable). `is_stable` builds `x^2 - 1`, roots 1 and -1, and reports "outside" | `alpha_list = [1] + alpha2..alphan` and `beta_list = kbeta1..kbetan`, so the verdict is about the solved controller | medium; not executed | `Controller.IsStable`, `Controller.IsStableMisjudgesOriginPoles` | `Controller.IsStableCorrected` |

## Left out

- Symbolic algebra: expansion, `sym.poly`, `coeff_monomial`, `free_symbols` (`get_variables`) and `sym.solve` belong to the computer-algebra system. Coefficient extraction and free symbols are inputs (`Expanded`). `ConstructController` stops at the equation system handed to the solver.
- The symbol lists `Qzeros`, `Pzeros`, `poles` and the target products `temp_Q`, `temp_P` and the pole product (lines 109-113, 119-124, 130-136) are symbolic and feed only the computer algebra. Only their combination bounds are modelled.
- The product loop at lines 43-45 builds a symbolic product. A monomial is represented by its list of parameters instead.
- `get_zeros` / `np.roots`: floating-point root finding in a foreign library. It is the `findRoots` parameter of `IsStable`.
- `print_parameters`, the printing in `is_stable`, and `main`: console output and a fixed example. `IsStable` returns the verdict that would be printed (`Some(true)` for "inside", `Some(false)` for "outside", `None` for nothing printed).
- Floating point: all values are `real`. The garbage contents of `np.empty` are never read, so they are not modelled.
- `temp_variables` is a Python set with unspecified iteration order. It is a sequence in some fixed order here; the distinctness lemmas assume distinct entries.
- `Polynomial.ConstructPolesPolynomial`: requires `alpha` and `kbeta` of the same length n >= 1. On shorter `kbeta` the source raises an index error, on longer `kbeta` it ignores the excess. Neither case is modelled.
- `Controller.IsStable`: requires a parameter list of length `2*order-1`, the only shape `construct_controller` produces. Other lengths crash in the builder or drop values, and are not modelled.
- A single solution dictionary returned by the solver is modelled as a one-element list of solutions. The type test `type(...) == sym.Float` becomes the `Float` case of `Value`. Exact integers and rationals (`Exact`) fail it, just as they do in the source.
