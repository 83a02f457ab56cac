/**
  The equation deriver: from a polynomial identity, one equation per power
  of the indeterminate, each summing the extracted coefficients of the
  constant monomial, of every single parameter and of every product of 2 up
  to max_combinations distinct parameters.

  Coefficient extraction belongs to the computer-algebra system and is a
  parameter here: coefficient(i, m) is the number multiplying x^i times the
  monomial m in the expanded expression, where a monomial is the list of the
  parameters it multiplies (the empty list is the constant 1).
*/
module Equations {

  /** One summand of an equation: an extracted coefficient times a monomial. */
  datatype Term<P> = Term(coefficient: real, monomial: seq<P>)

  /**
    itertools.combinations(s, k): every choice of k elements of s, each in
    the order of s, listed in lexicographic order of their positions.
  */
  function Choose<P>(s: seq<P>, k: nat): seq<seq<P>>
    decreases |s|
  {
    if k == 0 then [[]]
    else if s == [] then []
    else Prefixed(s[0], Choose(s[1..], k - 1)) + Choose(s[1..], k)
  }

  /** Puts x in front of each of the lists cs. */
  function Prefixed<P>(x: P, cs: seq<seq<P>>): seq<seq<P>>
  {
    seq(|cs|, j requires 0 <= j < |cs| => [x] + cs[j])
  }

  /** c is obtained from s by deleting elements. */
  predicate IsSubseq<P(==)>(c: seq<P>, s: seq<P>)
    decreases |s|
  {
    if c == [] then true
    else if s == [] then false
    else (c[0] == s[0] && IsSubseq(c[1..], s[1..])) || IsSubseq(c, s[1..])
  }

  /** No element occurs twice. */
  predicate Distinct<T(==)>(s: seq<T>)
  {
    forall i, j :: 0 <= i < j < |s| ==> s[i] != s[j]
  }

  /** The combination list: the combinations of sizes 2, 3, ..., maxCombinations. */
  function CombinationsUpTo<P>(s: seq<P>, maxCombinations: int): seq<seq<P>>
    decreases maxCombinations
  {
    if maxCombinations < 2 then []
    else CombinationsUpTo(s, maxCombinations - 1) + Choose(s, maxCombinations)
  }

  /** Each parameter as a monomial of its own. */
  function Singletons<P>(s: seq<P>): seq<seq<P>>
  {
    seq(|s|, j requires 0 <= j < |s| => [s[j]])
  }

  /** Every monomial whose coefficient an equation probes, in the order it probes them. */
  function ProbedMonomials<P>(s: seq<P>, maxCombinations: int): seq<seq<P>>
  {
    [[]] + Singletons(s) + CombinationsUpTo(s, maxCombinations)
  }

  /** The equation for the given power over the given monomials. */
  function EquationFor<P>(coefficient: (nat, seq<P>) -> real, power: nat, monomials: seq<seq<P>>): seq<Term<P>>
  {
    seq(|monomials|, j requires 0 <= j < |monomials| => Term(coefficient(power, monomials[j]), monomials[j]))
  }

  /** The value of a monomial when each parameter p takes the value valuation(p). */
  function MonomialValue<P>(valuation: P -> real, m: seq<P>): real
  {
    if m == [] then 1.0 else valuation(m[0]) * MonomialValue(valuation, m[1..])
  }

  /** The value of an equation's left-hand side under a valuation of the parameters. */
  function EquationValue<P>(valuation: P -> real, equation: seq<Term<P>>): real
  {
    if equation == [] then 0.0
    else equation[0].coefficient * MonomialValue(valuation, equation[0].monomial)
         + EquationValue(valuation, equation[1..])
  }

  lemma {:induction false} SubseqHeadIn<P>(c: seq<P>, s: seq<P>)
    requires c != [] && IsSubseq(c, s)
    ensures c[0] in s
    decreases |s|
  {
    if !(c[0] == s[0] && IsSubseq(c[1..], s[1..])) {
      SubseqHeadIn(c, s[1..]);
    }
  }

  lemma DistinctConcat<T>(a: seq<T>, b: seq<T>)
    requires Distinct(a) && Distinct(b)
    requires forall i, j :: 0 <= i < |a| && 0 <= j < |b| ==> a[i] != b[j]
    ensures Distinct(a + b)
  {
  }

  /** The lists in Prefixed(x, cs) are x followed by a list of cs. */
  lemma PrefixedMembers<P>(x: P, cs: seq<seq<P>>, c: seq<P>)
    ensures c in Prefixed(x, cs) <==> c != [] && c[0] == x && c[1..] in cs
  {
    var front := Prefixed(x, cs);
    if c in front {
      var j :| 0 <= j < |front| && front[j] == c;
      assert c[1..] == cs[j];
    }
    if c != [] && c[0] == x && c[1..] in cs {
      var j :| 0 <= j < |cs| && cs[j] == c[1..];
      assert front[j] == c;
    }
  }

  /** Choose(s, k) holds exactly the subsequences of s of length k. */
  lemma {:induction false} ChooseMembers<P>(s: seq<P>, k: nat, c: seq<P>)
    ensures c in Choose(s, k) <==> |c| == k && IsSubseq(c, s)
    decreases |s|
  {
    if k == 0 {
      assert Choose(s, k) == [[]];
      assert c == [] ==> IsSubseq(c, s);
    } else if s == [] {
      assert Choose(s, k) == [];
      assert c != [] ==> !IsSubseq(c, s);
    } else {
      var s' := s[1..];
      assert Choose(s, k) == Prefixed(s[0], Choose(s', k - 1)) + Choose(s', k);
      PrefixedMembers(s[0], Choose(s', k - 1), c);
      ChooseMembers(s', k, c);
      if c != [] {
        ChooseMembers(s', k - 1, c[1..]);
        assert IsSubseq(c, s) <==> (c[0] == s[0] && IsSubseq(c[1..], s')) || IsSubseq(c, s');
      }
    }
  }

  lemma ChooseSizes<P>(s: seq<P>, k: nat)
    ensures forall i :: 0 <= i < |Choose(s, k)| ==> |Choose(s, k)[i]| == k
  {
  }

  /** Over distinct parameters, no combination is listed twice. */
  lemma {:induction false} ChooseDistinct<P>(s: seq<P>, k: nat)
    requires Distinct(s)
    ensures Distinct(Choose(s, k))
    decreases |s|
  {
    if k != 0 && s != [] {
      var s' := s[1..];
      assert Distinct(s') by {
        forall i, j | 0 <= i < j < |s'| ensures s'[i] != s'[j] {
          assert s'[i] == s[i + 1] && s'[j] == s[j + 1];
        }
      }
      var A := Choose(s', k - 1);
      var B := Choose(s', k);
      var front := Prefixed(s[0], A);
      ChooseDistinct(s', k - 1);
      ChooseDistinct(s', k);
      forall i, j | 0 <= i < j < |front|
        ensures front[i] != front[j]
      {
        assert front[i][1..] == A[i] && front[j][1..] == A[j];
      }
      assert s[0] !in s' by {
        forall i | 0 <= i < |s'| ensures s'[i] != s[0] {
          assert s'[i] == s[i + 1];
        }
      }
      forall i, j | 0 <= i < |front| && 0 <= j < |B|
        ensures front[i] != B[j]
      {
        ChooseMembers(s', k, B[j]);
        SubseqHeadIn(B[j], s');
        assert front[i][0] == s[0];
      }
      DistinctConcat(front, B);
    }
  }

  /** Choose(s, 1) lists each parameter as a monomial of its own. */
  lemma {:induction false} ChooseOne<P>(s: seq<P>)
    ensures Choose(s, 1) == Singletons(s)
    decreases |s|
  {
    if s != [] {
      ChooseOne(s[1..]);
      assert Choose(s[1..], 0) == [[]];
      assert [s[0]] + [] == [s[0]];
      assert Prefixed(s[0], [[]]) == [[s[0]]];
      assert Choose(s, 1) == [[s[0]]] + Singletons(s[1..]);
    }
  }

  /**
    The combination list holds exactly the subsequences of the parameters
    of every size from 2 to maxCombinations.
  */
  lemma {:induction false} CombinationsMembers<P>(s: seq<P>, maxCombinations: int, c: seq<P>)
    ensures c in CombinationsUpTo(s, maxCombinations) <==> 2 <= |c| <= maxCombinations && IsSubseq(c, s)
    decreases maxCombinations
  {
    if maxCombinations >= 2 {
      CombinationsMembers(s, maxCombinations - 1, c);
      ChooseMembers(s, maxCombinations, c);
    }
  }

  /** The combination list is ordered by increasing size. */
  lemma {:induction false} CombinationsBySize<P>(s: seq<P>, maxCombinations: int)
    ensures forall i :: 0 <= i < |CombinationsUpTo(s, maxCombinations)| ==>
      2 <= |CombinationsUpTo(s, maxCombinations)[i]| <= maxCombinations
    ensures forall i, j :: 0 <= i <= j < |CombinationsUpTo(s, maxCombinations)| ==>
      |CombinationsUpTo(s, maxCombinations)[i]| <= |CombinationsUpTo(s, maxCombinations)[j]|
    decreases maxCombinations
  {
    if maxCombinations >= 2 {
      var A := CombinationsUpTo(s, maxCombinations - 1);
      var B := Choose(s, maxCombinations);
      CombinationsBySize(s, maxCombinations - 1);
      ChooseSizes(s, maxCombinations);
      assert CombinationsUpTo(s, maxCombinations) == A + B;
    }
  }

  /** Over distinct parameters, every combination is listed exactly once. */
  lemma {:induction false} CombinationsDistinct<P>(s: seq<P>, maxCombinations: int)
    requires Distinct(s)
    ensures Distinct(CombinationsUpTo(s, maxCombinations))
    decreases maxCombinations
  {
    if maxCombinations >= 2 {
      var A := CombinationsUpTo(s, maxCombinations - 1);
      var B := Choose(s, maxCombinations);
      CombinationsDistinct(s, maxCombinations - 1);
      ChooseDistinct(s, maxCombinations);
      CombinationsBySize(s, maxCombinations - 1);
      ChooseSizes(s, maxCombinations);
      DistinctConcat(A, B);
    }
  }

  /**
    The probed monomials are exactly the products of distinct parameters
    of degree at most max(1, maxCombinations), the constant included.
  */
  lemma ProbedMonomialsMembers<P>(s: seq<P>, maxCombinations: int, m: seq<P>)
    ensures m in ProbedMonomials(s, maxCombinations)
        <==> |m| <= (if maxCombinations < 1 then 1 else maxCombinations) && IsSubseq(m, s)
  {
    ChooseOne(s);
    ChooseMembers(s, 1, m);
    CombinationsMembers(s, maxCombinations, m);
  }

  /** Over distinct parameters, no monomial is probed twice. */
  lemma ProbedMonomialsDistinct<P>(s: seq<P>, maxCombinations: int)
    requires Distinct(s)
    ensures Distinct(ProbedMonomials(s, maxCombinations))
  {
    ChooseOne(s);
    ChooseDistinct(s, 1);
    ChooseSizes(s, 1);
    CombinationsDistinct(s, maxCombinations);
    CombinationsBySize(s, maxCombinations);
    DistinctConcat([[]], Singletons(s));
    DistinctConcat([[]] + Singletons(s), CombinationsUpTo(s, maxCombinations));
  }

  /** With no parameters each equation is the plain coefficient alone. */
  lemma {:induction false} ProbedMonomialsWithoutParameters<P>(maxCombinations: int)
    ensures ProbedMonomials<P>([], maxCombinations) == [[]]
    decreases maxCombinations
  {
    if maxCombinations >= 2 {
      ProbedMonomialsWithoutParameters<P>(maxCombinations - 1);
      assert Choose<P>([], maxCombinations) == [];
      assert CombinationsUpTo<P>([], maxCombinations) == CombinationsUpTo<P>([], maxCombinations - 1);
    }
  }

  lemma EquationForConcat<P>(coefficient: (nat, seq<P>) -> real, power: nat, a: seq<seq<P>>, b: seq<seq<P>>)
    ensures EquationFor(coefficient, power, a + b) == EquationFor(coefficient, power, a) + EquationFor(coefficient, power, b)
  {
  }

  lemma {:induction false} EquationValueConcat<P>(valuation: P -> real, e: seq<Term<P>>, f: seq<Term<P>>)
    ensures EquationValue(valuation, e + f) == EquationValue(valuation, e) + EquationValue(valuation, f)
  {
    if e != [] {
      EquationValueConcat(valuation, e[1..], f);
      assert (e + f)[1..] == e[1..] + f;
    } else {
      assert e + f == f;
    }
  }

  lemma {:induction false} EquationValueOfZeros<P>(valuation: P -> real, e: seq<Term<P>>)
    requires forall i :: 0 <= i < |e| ==> e[i].coefficient == 0.0
    ensures EquationValue(valuation, e) == 0.0
  {
    if e != [] {
      EquationValueOfZeros(valuation, e[1..]);
    }
  }

  /** Monomials whose coefficients are all zero add nothing to an equation. */
  lemma EquationValueOfVanishing<P>(
    coefficient: (nat, seq<P>) -> real, power: nat, monomials: seq<seq<P>>,
    maxCombinations: int, valuation: P -> real)
    requires forall j :: 0 <= j < |monomials| ==> |monomials[j]| > maxCombinations
    requires forall m: seq<P> :: |m| > maxCombinations ==> coefficient(power, m) == 0.0
    ensures EquationValue(valuation, EquationFor(coefficient, power, monomials)) == 0.0
  {
    var e := EquationFor(coefficient, power, monomials);
    forall i | 0 <= i < |e|
      ensures e[i].coefficient == 0.0
    {
      assert e[i].coefficient == coefficient(power, monomials[i]);
    }
    EquationValueOfZeros(valuation, e);
  }

  /** Below two, max_combinations adds no combination at all. */
  lemma ProbedMonomialsBelowTwo<P>(s: seq<P>, maxCombinations: int, larger: int)
    requires maxCombinations <= larger < 2
    ensures ProbedMonomials(s, larger) == ProbedMonomials(s, maxCombinations)
  {
  }

  /** One more size adds the combinations of that size at the end. */
  lemma EquationForOneMoreSize<P>(coefficient: (nat, seq<P>) -> real, power: nat, s: seq<P>, larger: int)
    requires larger >= 2
    ensures EquationFor(coefficient, power, ProbedMonomials(s, larger))
         == EquationFor(coefficient, power, ProbedMonomials(s, larger - 1))
          + EquationFor(coefficient, power, Choose(s, larger))
  {
  }

  /**
    Raising max_combinations beyond the degree of the cross terms that
    actually occur does not change the value of the derived equation.
  */
  lemma {:induction false} EquationValueIgnoresUnusedCombinations<P>(
    coefficient: (nat, seq<P>) -> real, power: nat, s: seq<P>,
    maxCombinations: int, larger: int, valuation: P -> real)
    requires maxCombinations <= larger
    requires forall m: seq<P> :: |m| > maxCombinations ==> coefficient(power, m) == 0.0
    ensures EquationValue(valuation, EquationFor(coefficient, power, ProbedMonomials(s, larger)))
         == EquationValue(valuation, EquationFor(coefficient, power, ProbedMonomials(s, maxCombinations)))
    decreases larger - maxCombinations
  {
    if larger > maxCombinations {
      if larger < 2 {
        ProbedMonomialsBelowTwo(s, maxCombinations, larger);
      } else {
        EquationValueIgnoresUnusedCombinations(coefficient, power, s, maxCombinations, larger - 1, valuation);
        var front := EquationFor(coefficient, power, ProbedMonomials(s, larger - 1));
        var back := EquationFor(coefficient, power, Choose(s, larger));
        EquationForOneMoreSize(coefficient, power, s, larger);
        ChooseSizes(s, larger);
        EquationValueOfVanishing(coefficient, power, Choose(s, larger), maxCombinations, valuation);
        EquationValueConcat(valuation, front, back);
      }
    }
  }

  lemma EquationForSnoc<P>(coefficient: (nat, seq<P>) -> real, power: nat, monomials: seq<seq<P>>, m: seq<P>)
    ensures EquationFor(coefficient, power, monomials + [m])
         == EquationFor(coefficient, power, monomials) + [Term(coefficient(power, m), m)]
  {
  }

  lemma PrefixSnoc<P>(front: seq<seq<P>>, s: seq<seq<P>>, k: nat)
    requires k < |s|
    ensures front + s[..k + 1] == front + s[..k] + [s[k]]
  {
    assert s[..k + 1] == s[..k] + [s[k]];
  }

  lemma SingletonsSnoc<P>(s: seq<P>, k: nat)
    requires k < |s|
    ensures [[]] + Singletons(s)[..k + 1] == [[]] + Singletons(s)[..k] + [[s[k]]]
  {
  }

  lemma CombinationsUpToStep<P>(s: seq<P>, m: int)
    requires m >= 2
    ensures CombinationsUpTo(s, m) == CombinationsUpTo(s, m - 1) + Choose(s, m)
  {
  }

  lemma CombinationsUpToBelowTwo<P>(s: seq<P>, m: int)
    requires m < 2
    ensures CombinationsUpTo(s, m) == []
  {
  }

  /** The combination list: all combinations of 2, 3, ..., maxCombinations parameters. */
  method CollectCombinations<P>(parameters: seq<P>, maxCombinations: int) returns (combinations: seq<seq<P>>)
    ensures combinations == CombinationsUpTo(parameters, maxCombinations)
  {
    combinations := [];
    var size := 2;
    while size <= maxCombinations
      invariant size == 2 || 2 < size <= maxCombinations + 1
      invariant combinations == CombinationsUpTo(parameters, size - 1)
    {
      CombinationsUpToStep(parameters, size);
      combinations := combinations + Choose(parameters, size);
      size := size + 1;
    }
    if maxCombinations < 2 {
      CombinationsUpToBelowTwo(parameters, maxCombinations);
      CombinationsUpToBelowTwo(parameters, size - 1);
    }
  }

  /**
    The equation for one power: the constant coefficient, then the
    coefficient of each parameter, then that of each combination.
  */
  method DeriveEquation<P>(coefficient: (nat, seq<P>) -> real, power: nat, parameters: seq<P>, combinations: seq<seq<P>>)
    returns (equation: seq<Term<P>>)
    ensures equation == EquationFor(coefficient, power, [[]] + Singletons(parameters) + combinations)
  {
    equation := [Term(coefficient(power, []), [])];
    ghost var probed: seq<seq<P>> := [[]];
    for k := 0 to |parameters|
      invariant probed == [[]] + Singletons(parameters)[..k]
      invariant equation == EquationFor(coefficient, power, probed)
    {
      EquationForSnoc(coefficient, power, probed, [parameters[k]]);
      SingletonsSnoc(parameters, k);
      equation := equation + [Term(coefficient(power, [parameters[k]]), [parameters[k]])];
      probed := probed + [[parameters[k]]];
    }
    assert probed == [[]] + Singletons(parameters) by {
      assert Singletons(parameters)[..|parameters|] == Singletons(parameters);
    }
    for k := 0 to |combinations|
      invariant probed == [[]] + Singletons(parameters) + combinations[..k]
      invariant equation == EquationFor(coefficient, power, probed)
    {
      EquationForSnoc(coefficient, power, probed, combinations[k]);
      PrefixSnoc([[]] + Singletons(parameters), combinations, k);
      equation := equation + [Term(coefficient(power, combinations[k]), combinations[k])];
      probed := probed + [combinations[k]];
    }
    assert combinations[..|combinations|] == combinations;
  }

  /**
    Builds the combination list, then one equation per power 0 .. order-1
    of the indeterminate, in increasing order.
  */
  method GetParameterEquations<P>(coefficient: (nat, seq<P>) -> real, parameters: seq<P>, order: nat, maxCombinations: int)
    returns (equations: seq<seq<Term<P>>>)
    ensures |equations| == order
    ensures forall i :: 0 <= i < order ==>
      equations[i] == EquationFor(coefficient, i, ProbedMonomials(parameters, maxCombinations))
  {
    var combinations := CollectCombinations(parameters, maxCombinations);
    equations := [];
    for i := 0 to order
      invariant |equations| == i
      invariant forall j :: 0 <= j < i ==>
        equations[j] == EquationFor(coefficient, j, ProbedMonomials(parameters, maxCombinations))
    {
      var equation := DeriveEquation(coefficient, i, parameters, combinations);
      equations := equations + [equation];
    }
  }
}
