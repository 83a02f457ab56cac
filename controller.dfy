/**
  The controller constructor's bookkeeping around the computer-algebra
  work: the guard on the filter orders, the three families of coefficient
  equations, the parameter list handed back to the caller, and the
  stability report computed from a solved parameter assignment.
*/
module Controller {
  import opened Results
  import opened Polynomial
  import opened Stability
  import opened Equations

  /** The symbolic unknowns, by role and index: alpha1, kbeta2, Qzero1, Pzero1, c, pole1, ... */
  datatype Param = Alpha(index: nat) | KBeta(index: nat) | QZero(index: nat) | PZero(index: nat) | Scale | Pole(index: nat)

  /**
    What the solver assigned to a parameter: a floating-point number, an
    exact number (an integer or a rational), or an expression that still
    holds unknowns.
  */
  datatype Value = Float(float: real) | Exact(exact: real) | Symbolic

  /** One solution branch: a parameter absent from the map is unresolved. */
  type Solution = map<Param, Value>

  /** The configuration error raised before any equation is built. */
  datatype ConfigError = BothFiltersApplied

  /**
    What the computer-algebra system provides for one expanded polynomial
    identity: its free symbols other than x, and its coefficient extraction.
  */
  datatype Expanded = Expanded(variables: seq<Param>, coefficient: (nat, seq<Param>) -> real)

  /** The equation system handed to the solver, and the parameters returned beside the solution. */
  datatype ControllerSystem = ControllerSystem(
    equations: seq<seq<Term<Param>>>,
    variables: set<Param>,
    parameters: seq<Param>)

  /**
    The parameter list construct_controller returns: kbeta1 .. kbetan, then
    alpha2 .. alphan (alpha1 is the coefficient fixed to 1).
  */
  function ControllerParameters(n: nat): (parameters: seq<Param>)
    ensures n >= 1 ==> |parameters| == 2 * n - 1
    ensures n == 0 ==> parameters == []
    ensures forall j :: 0 <= j < n ==> parameters[j] == KBeta(j + 1)
    ensures forall j :: n <= j < |parameters| ==> parameters[j] == Alpha(j - n + 2)
    ensures Distinct(parameters)
  {
    seq(n, j requires 0 <= j < n => KBeta(j + 1))
      + (if n == 0 then [] else seq(n - 1, j requires 0 <= j < n - 1 => Alpha(j + 2)))
  }

  /** Every listed parameter was solved to a floating-point number. */
  predicate AllFloat(solution: Solution, parameters: seq<Param>)
  {
    forall k :: 0 <= k < |parameters| ==> parameters[k] in solution && solution[parameters[k]].Float?
  }

  /** The solved values of the listed parameters, in list order. */
  function SolvedValues(solution: Solution, parameters: seq<Param>): seq<real>
    requires AllFloat(solution, parameters)
  {
    seq(|parameters|, k requires 0 <= k < |parameters| && AllFloat(solution, parameters) =>
      solution[parameters[k]].float)
  }

  /** How many listed parameters have an index below order - 1. */
  function AlphaCount(order: int, count: nat): nat
  {
    if order - 1 <= 0 then 0 else if order - 1 >= count then count else order - 1
  }

  /**
    The loop of is_stable: a parameter at an index below order - 1 goes to
    alpha_list, which starts with 1; every other one goes to beta_list.
  */
  method SplitParameters(solution: Solution, parameters: seq<Param>, order: int)
    returns (alphaList: seq<real>, betaList: seq<real>)
    requires AllFloat(solution, parameters)
    ensures alphaList == [1.0] + SolvedValues(solution, parameters)[..AlphaCount(order, |parameters|)]
    ensures betaList == SolvedValues(solution, parameters)[AlphaCount(order, |parameters|)..]
    ensures order >= 1 && |parameters| == 2 * order - 1 ==>
      |alphaList| == order && |betaList| == order && alphaList[0] == 1.0
  {
    ghost var values := SolvedValues(solution, parameters);
    ghost var cut := AlphaCount(order, |parameters|);
    alphaList := [1.0];
    betaList := [];
    for i := 0 to |parameters|
      invariant alphaList == [1.0] + values[..if i < cut then i else cut]
      invariant betaList == values[(if i < cut then i else cut)..i]
    {
      assert solution[parameters[i]].float == values[i];
      if i < order - 1 {
        assert values[..i + 1] == values[..i] + [values[i]];
        alphaList := alphaList + [solution[parameters[i]].float];
      } else {
        assert values[cut..i + 1] == values[cut..i] + [values[i]];
        betaList := betaList + [solution[parameters[i]].float];
      }
    }
    assert values[cut..|parameters|] == values[cut..];
  }

  /** The characteristic polynomial is_stable builds from a solution. */
  function ReportedPolynomial(solution: Solution, parameters: seq<Param>, order: int): seq<real>
    requires AllFloat(solution, parameters) && order >= 1 && |parameters| == 2 * order - 1
  {
    var values := SolvedValues(solution, parameters);
    ClosedLoop([1.0] + values[..order - 1], values[order - 1..])
  }

  /**
    is_stable as written: no verdict for an empty solution list or when a
    parameter is not a floating-point number; otherwise the first solution
    is split, its characteristic polynomial built, its roots found by
    findRoots and the verdict is whether all of them lie strictly inside
    the unit circle.
  */
  method IsStable(solutions: seq<Solution>, parameters: seq<Param>, order: int, findRoots: seq<real> -> seq<Complex>)
    returns (isInside: Option<bool>)
    requires order >= 1 && |parameters| == 2 * order - 1
    ensures isInside.None? <==> solutions == [] || !AllFloat(solutions[0], parameters)
    ensures isInside.Some? ==>
      var zeros := findRoots(ReportedPolynomial(solutions[0], parameters, order));
      (isInside.value <==> forall k :: 0 <= k < |zeros| ==> !IsOutside(zeros[k]))
  {
    if solutions == [] {
      return None;
    }
    var solution := solutions[0];
    if !AllFloat(solution, parameters) {
      return None;
    }
    var alphaList, betaList := SplitParameters(solution, parameters, order);
    var coeff := ConstructPolesPolynomial(alphaList, betaList);
    var zeros := findRoots(coeff[..]);
    var inside, _ := AreZerosInsideUnitCircle(zeros);
    isInside := Some(inside);
  }

  /** Every kbeta1 .. kbetan and alpha2 .. alphan was solved to a floating-point number. */
  predicate ControllerResolved(solution: Solution, n: nat)
  {
    && (forall j :: 1 <= j <= n ==> KBeta(j) in solution && solution[KBeta(j)].Float?)
    && (forall j :: 2 <= j <= n ==> Alpha(j) in solution && solution[Alpha(j)].Float?)
  }

  /** The solved denominator coefficients 1, alpha2, .., alphan. */
  function SolvedDenominator(solution: Solution, n: nat): seq<real>
    requires n >= 1 && ControllerResolved(solution, n)
  {
    [1.0] + seq(n - 1, j requires 0 <= j < n - 1 && ControllerResolved(solution, n) =>
      solution[Alpha(j + 2)].float)
  }

  /** The solved numerator coefficients kbeta1, .., kbetan. */
  function SolvedNumerator(solution: Solution, n: nat): seq<real>
    requires ControllerResolved(solution, n)
  {
    seq(n, j requires 0 <= j < n && ControllerResolved(solution, n) => solution[KBeta(j + 1)].float)
  }

  /** For the parameter list construct_controller returns, "all resolved" means every role is resolved. */
  lemma ControllerResolvedIff(solution: Solution, n: nat)
    ensures AllFloat(solution, ControllerParameters(n)) <==> ControllerResolved(solution, n)
  {
    var ps := ControllerParameters(n);
    if AllFloat(solution, ps) {
      forall j | 1 <= j <= n
        ensures KBeta(j) in solution && solution[KBeta(j)].Float?
      {
        assert ps[j - 1] == KBeta(j);
      }
      forall j | 2 <= j <= n
        ensures Alpha(j) in solution && solution[Alpha(j)].Float?
      {
        assert ps[n + j - 2] == Alpha(j);
      }
    }
  }

  /**
    As written, is_stable gives the first order - 1 parameters to
    alpha_list; on the list construct_controller returns those are
    kbeta1 .. kbeta(n-1), so the polynomial it examines mixes the roles.
  */
  lemma IsStableReadsKBetaAsAlpha(solution: Solution, n: nat)
    requires n >= 1 && AllFloat(solution, ControllerParameters(n))
    ensures ControllerResolved(solution, n)
    ensures ReportedPolynomial(solution, ControllerParameters(n), n)
         == ClosedLoop([1.0] + SolvedNumerator(solution, n)[..n - 1],
                       SolvedNumerator(solution, n)[n - 1..] + SolvedDenominator(solution, n)[1..])
  {
    ControllerResolvedIff(solution, n);
    var values := SolvedValues(solution, ControllerParameters(n));
    var num := SolvedNumerator(solution, n);
    var den := SolvedDenominator(solution, n);
    assert values == num + den[1..];
    assert values[..n - 1] == num[..n - 1];
    assert values[n - 1..] == num[n - 1..] + den[1..];
  }

  lemma EvalQuadratic(a: real, b: real, c: real, x: real)
    ensures Eval([a, b, c], x) == a * x * x + b * x + c
  {
    assert Pow(x, 2) == x * x by {
      assert Pow(x, 1) == x * Pow(x, 0);
    }
    assert EvalPrefix([a, b, c], x, 1) == a * Pow(x, 2);
    assert EvalPrefix([a, b, c], x, 2) == a * Pow(x, 2) + b * Pow(x, 1);
  }

  /**
    A controller of order 2 with kbeta = (1, 0) and alpha2 = 0 has the
    closed loop x^2, both poles at the origin; is_stable examines x^2 - 1
    instead, whose roots 1 and -1 lie on the unit circle and count as
    outside.
  */
  lemma IsStableMisjudgesOriginPoles()
    ensures var s := map[KBeta(1) := Float(1.0), KBeta(2) := Float(0.0), Alpha(2) := Float(0.0)];
      && AllFloat(s, ControllerParameters(2))
      && ControllerResolved(s, 2)
      && ClosedLoop(SolvedDenominator(s, 2), SolvedNumerator(s, 2)) == [1.0, 0.0, 0.0]
      && ReportedPolynomial(s, ControllerParameters(2), 2) == [1.0, 0.0, -1.0]
      && (forall x :: Eval([1.0, 0.0, 0.0], x) == x * x)
      && (forall x :: Eval([1.0, 0.0, -1.0], x) == (x - 1.0) * (x + 1.0))
      && CountOutside([Complex(0.0, 0.0), Complex(0.0, 0.0)]) == 0
      && CountOutside([Complex(1.0, 0.0), Complex(-1.0, 0.0)]) == 2
  {
    var s := map[KBeta(1) := Float(1.0), KBeta(2) := Float(0.0), Alpha(2) := Float(0.0)];
    var ps := ControllerParameters(2);
    assert ps == [KBeta(1), KBeta(2), Alpha(2)];
    ControllerResolvedIff(s, 2);
    assert SolvedDenominator(s, 2) == [1.0, 0.0];
    assert SolvedNumerator(s, 2) == [1.0, 0.0];
    assert SolvedValues(s, ps) == [1.0, 0.0, 0.0];
    forall x: real
      ensures Eval([1.0, 0.0, 0.0], x) == x * x && Eval([1.0, 0.0, -1.0], x) == (x - 1.0) * (x + 1.0)
    {
      EvalQuadratic(1.0, 0.0, 0.0, x);
      EvalQuadratic(1.0, 0.0, -1.0, x);
    }
    var zs := [Complex(1.0, 0.0), Complex(-1.0, 0.0)];
    assert zs[..1] == [Complex(1.0, 0.0)];
  }

  /** A product of reals is zero only when a factor is. */
  lemma ProductZero(a: real, b: real)
    requires a * b == 0.0
    ensures a == 0.0 || b == 0.0
  {
  }

  /**
    Every complex root of x^2 - 1 lies on the unit circle, so it counts as
    outside. The requires says that the real part re^2 - im^2 - 1 and the
    imaginary part 2 re im of z^2 - 1 both vanish.
  */
  lemma RootsOfSquareMinusOneAreOutside(z: Complex)
    requires z.re * z.re - z.im * z.im - 1.0 == 0.0 && 2.0 * z.re * z.im == 0.0
    ensures IsOutside(z)
  {
    assert z.im * z.im >= 0.0;
  }

  /**
    The only complex root of x^2 is the origin, which lies inside the unit
    circle: the real part re^2 - im^2 and the imaginary part 2 re im of
    z^2 both vanish only there.
  */
  lemma RootsOfSquareAreOrigin(z: Complex)
    requires z.re * z.re - z.im * z.im == 0.0 && 2.0 * z.re * z.im == 0.0
    ensures z == Complex(0.0, 0.0) && !IsOutside(z)
  {
    ProductZero(z.re, z.im);
    if z.re == 0.0 {
      assert z.im * z.im == 0.0;
      ProductZero(z.im, z.im);
    } else {
      assert z.re * z.re == 0.0;
      ProductZero(z.re, z.re);
    }
  }

  /**
    is_stable with the partition that matches the parameter list
    construct_controller returns: the first order parameters are kbeta,
    the remaining order - 1 are alpha2 .. alphan.
  */
  method IsStableCorrected(solutions: seq<Solution>, parameters: seq<Param>, order: int, findRoots: seq<real> -> seq<Complex>)
    returns (isInside: Option<bool>)
    requires order >= 1 && |parameters| == 2 * order - 1
    ensures isInside.None? <==> solutions == [] || !AllFloat(solutions[0], parameters)
    ensures isInside.Some? && parameters == ControllerParameters(order) ==>
      && ControllerResolved(solutions[0], order)
      && var zeros := findRoots(ClosedLoop(SolvedDenominator(solutions[0], order), SolvedNumerator(solutions[0], order)));
         (isInside.value <==> forall k :: 0 <= k < |zeros| ==> !IsOutside(zeros[k]))
  {
    if solutions == [] {
      return None;
    }
    var solution := solutions[0];
    if !AllFloat(solution, parameters) {
      return None;
    }
    var values := SolvedValues(solution, parameters);
    var alphaList := [1.0] + values[order..];
    var betaList := values[..order];
    var coeff := ConstructPolesPolynomial(alphaList, betaList);
    var zeros := findRoots(coeff[..]);
    var inside, _ := AreZerosInsideUnitCircle(zeros);
    isInside := Some(inside);
    if parameters == ControllerParameters(order) {
      ControllerResolvedIff(solution, order);
      assert alphaList == SolvedDenominator(solution, order);
      assert betaList == SolvedNumerator(solution, order);
    }
  }

  /** The equations one call of the deriver produces for an expanded identity. */
  function FamilyEquations(family: Expanded, order: nat, maxCombinations: int): seq<seq<Term<Param>>>
  {
    seq(order, i requires 0 <= i < order =>
      EquationFor(family.coefficient, i, ProbedMonomials(family.variables, maxCombinations)))
  }

  /** The free symbols of an expanded identity, as a set. */
  function Unknowns(family: Expanded): set<Param>
  {
    set p | p in family.variables
  }

  /**
    construct_controller up to the solve: refuses both filters at once
    before anything is built; otherwise derives the denominator-shape,
    numerator-shape and pole-placement equations (n, n and n + 1 of them)
    with their combination bounds, and collects their unknowns.
  */
  method ConstructController(
    orderController: nat, orderAdaptivityExtra: nat, orderStepsizeFilter: nat, orderErrorFilter: nat,
    polePlacements: seq<real>, denominator: Expanded, numerator: Expanded, characteristic: Expanded)
    returns (r: Result<ControllerSystem, ConfigError>)
    ensures r.Failure? <==> orderStepsizeFilter > 0 && orderErrorFilter > 0
    ensures r.Failure? ==> r.error == BothFiltersApplied
    ensures r.Success? ==> (r.value.equations ==
      FamilyEquations(denominator, orderController, orderController - orderAdaptivityExtra - orderErrorFilter - 1)
      + FamilyEquations(numerator, orderController, orderController - orderStepsizeFilter)
      + FamilyEquations(characteristic, orderController + 1, orderController - |polePlacements|))
    ensures r.Success? ==> |r.value.equations| == 3 * orderController + 1
    ensures r.Success? ==> r.value.variables == Unknowns(denominator) + Unknowns(numerator) + Unknowns(characteristic)
    ensures r.Success? ==> r.value.parameters == ControllerParameters(orderController)
  {
    if orderStepsizeFilter > 0 && orderErrorFilter > 0 {
      return Failure(BothFiltersApplied);
    }
    var n := orderController;
    var equations: seq<seq<Term<Param>>> := [];
    var variables: set<Param> := {};

    var extraDenominator := n - orderAdaptivityExtra - orderErrorFilter - 1;
    var family := GetParameterEquations(denominator.coefficient, denominator.variables, n, extraDenominator);
    assert family == FamilyEquations(denominator, n, extraDenominator);
    equations := equations + family;
    variables := variables + Unknowns(denominator);

    var extraNumerator := n - orderStepsizeFilter - 1;
    family := GetParameterEquations(numerator.coefficient, numerator.variables, n, extraNumerator + 1);
    assert family == FamilyEquations(numerator, n, extraNumerator + 1);
    equations := equations + family;
    variables := variables + Unknowns(numerator);

    var fixedPoles := |polePlacements|;
    family := GetParameterEquations(characteristic.coefficient, characteristic.variables, n + 1, n - fixedPoles);
    assert family == FamilyEquations(characteristic, n + 1, n - fixedPoles);
    equations := equations + family;
    variables := variables + Unknowns(characteristic);

    r := Success(ControllerSystem(equations, variables, ControllerParameters(n)));
  }
}
