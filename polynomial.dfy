/**
  Polynomials with real coefficients, stored highest degree first, and the
  builder of the controller's closed-loop characteristic polynomial.

  The coefficient sequence p stands for p[0] * x^(|p|-1) + ... + p[|p|-1].
  A zero in front leaves the polynomial unchanged; a zero at the back
  multiplies it by x.
*/
module Polynomial {

  /** x raised to the k-th power. */
  function Pow(x: real, k: nat): real
  {
    if k == 0 then 1.0 else x * Pow(x, k - 1)
  }

  /** The sum of the first k terms p[j] * x^(|p|-1-j) of p. */
  function EvalPrefix(p: seq<real>, x: real, k: nat): real
    requires k <= |p|
  {
    if k == 0 then 0.0 else EvalPrefix(p, x, k - 1) + p[k - 1] * Pow(x, |p| - k)
  }

  /** The value at x of the polynomial with coefficients p. */
  function Eval(p: seq<real>, x: real): real
  {
    EvalPrefix(p, x, |p|)
  }

  /** Coefficient-wise sum of two polynomials of the same length. */
  function Sum(p: seq<real>, q: seq<real>): seq<real>
    requires |p| == |q|
  {
    seq(|p|, i requires 0 <= i < |p| => p[i] + q[i])
  }

  /** Coefficient-wise difference of two polynomials of the same length. */
  function Diff(p: seq<real>, q: seq<real>): seq<real>
    requires |p| == |q|
  {
    seq(|p|, i requires 0 <= i < |p| => p[i] - q[i])
  }

  /** (x - 1) * q: q shifted up one power, minus q. */
  function MulXMinusOne(q: seq<real>): seq<real>
  {
    Diff(q + [0.0], [0.0] + q)
  }

  /**
    The closed-loop characteristic polynomial (x - 1) * Q(x) + P(x) of a
    controller whose denominator Q has coefficients alpha and whose
    numerator P has coefficients kbeta.
  */
  function ClosedLoop(alpha: seq<real>, kbeta: seq<real>): seq<real>
    requires |alpha| == |kbeta|
  {
    Sum(MulXMinusOne(alpha), [0.0] + kbeta)
  }

  /**
    The denominator Q(x) = x^(n-1) + alpha[1] x^(n-2) + ... + alpha[n-1]:
    its leading coefficient is fixed to 1 whatever alpha[0] holds.
  */
  function ControllerDenominator(alpha: seq<real>): seq<real>
  {
    if alpha == [] then [] else [1.0] + alpha[1..]
  }

  /** The arithmetic of one term added to a prefix scaled by x. */
  lemma ScaleStep(er: real, ep: real, a: real, x: real, t: real)
    ensures er == x * ep ==> er + a * (x * t) == x * (ep + a * t)
  {
  }

  /** One unfolding of EvalPrefix for p and for p extended at the back. */
  lemma ShiftedStep(r: seq<real>, p: seq<real>, x: real, k: nat)
    requires |r| == |p| + 1 && 0 < k <= |p| && r[k - 1] == p[k - 1]
    ensures EvalPrefix(r, x, k) == EvalPrefix(r, x, k - 1) + p[k - 1] * (x * Pow(x, |p| - k))
    ensures EvalPrefix(p, x, k) == EvalPrefix(p, x, k - 1) + p[k - 1] * Pow(x, |p| - k)
  {
    assert Pow(x, |r| - k) == x * Pow(x, |p| - k);
  }

  /** A prefix of p extended by one more coefficient at the back, scaled by x. */
  lemma {:induction false} EvalPrefixShifted(r: seq<real>, p: seq<real>, x: real, k: nat)
    requires |r| == |p| + 1 && k <= |p|
    requires forall j :: 0 <= j < |p| ==> r[j] == p[j]
    ensures EvalPrefix(r, x, k) == x * EvalPrefix(p, x, k)
  {
    if k > 0 {
      EvalPrefixShifted(r, p, x, k - 1);
      ShiftedStep(r, p, x, k);
      ScaleStep(EvalPrefix(r, x, k - 1), EvalPrefix(p, x, k - 1), p[k - 1], x, Pow(x, |p| - k));
    }
  }

  lemma EvalPrefixTimesX(p: seq<real>, x: real, k: nat)
    requires k <= |p|
    ensures EvalPrefix(p + [0.0], x, k) == x * EvalPrefix(p, x, k)
  {
    EvalPrefixShifted(p + [0.0], p, x, k);
  }

  /** Appending a zero coefficient multiplies the polynomial by x. */
  lemma EvalTimesX(p: seq<real>, x: real)
    ensures Eval(p + [0.0], x) == x * Eval(p, x)
  {
    EvalPrefixTimesX(p, x, |p|);
    assert (p + [0.0])[|p|] == 0.0;
  }

  lemma {:induction false} EvalPrefixLeadingZero(p: seq<real>, x: real, k: nat)
    requires k <= |p|
    ensures EvalPrefix([0.0] + p, x, k + 1) == EvalPrefix(p, x, k)
  {
    if k == 0 {
      assert ([0.0] + p)[0] == 0.0;
    } else {
      EvalPrefixLeadingZero(p, x, k - 1);
      assert ([0.0] + p)[k] == p[k - 1];
    }
  }

  /** A leading zero coefficient does not change the polynomial. */
  lemma EvalLeadingZero(p: seq<real>, x: real)
    ensures Eval([0.0] + p, x) == Eval(p, x)
  {
    EvalPrefixLeadingZero(p, x, |p|);
  }

  /** The arithmetic of one term added to a sum or a difference of two prefixes. */
  lemma CombineStep(er: real, ep: real, eq: real, a: real, b: real, t: real)
    ensures er == ep + eq ==> er + (a + b) * t == (ep + a * t) + (eq + b * t)
    ensures er == ep - eq ==> er + (a - b) * t == (ep + a * t) - (eq + b * t)
  {
  }

  /** The value of a prefix is additive in the coefficients. */
  lemma {:induction false} EvalPrefixAdditive(r: seq<real>, p: seq<real>, q: seq<real>, x: real, k: nat)
    requires |r| == |p| == |q| && k <= |p|
    requires forall j :: 0 <= j < |r| ==> r[j] == p[j] + q[j]
    ensures EvalPrefix(r, x, k) == EvalPrefix(p, x, k) + EvalPrefix(q, x, k)
  {
    if k > 0 {
      EvalPrefixAdditive(r, p, q, x, k - 1);
      CombineStep(EvalPrefix(r, x, k - 1), EvalPrefix(p, x, k - 1), EvalPrefix(q, x, k - 1),
                  p[k - 1], q[k - 1], Pow(x, |p| - k));
    }
  }

  /** The value of a prefix is subtractive in the coefficients. */
  lemma {:induction false} EvalPrefixSubtractive(r: seq<real>, p: seq<real>, q: seq<real>, x: real, k: nat)
    requires |r| == |p| == |q| && k <= |p|
    requires forall j :: 0 <= j < |r| ==> r[j] == p[j] - q[j]
    ensures EvalPrefix(r, x, k) == EvalPrefix(p, x, k) - EvalPrefix(q, x, k)
  {
    if k > 0 {
      EvalPrefixSubtractive(r, p, q, x, k - 1);
      CombineStep(EvalPrefix(r, x, k - 1), EvalPrefix(p, x, k - 1), EvalPrefix(q, x, k - 1),
                  p[k - 1], q[k - 1], Pow(x, |p| - k));
    }
  }

  lemma EvalPrefixSum(p: seq<real>, q: seq<real>, x: real, k: nat)
    requires |p| == |q| && k <= |p|
    ensures EvalPrefix(Sum(p, q), x, k) == EvalPrefix(p, x, k) + EvalPrefix(q, x, k)
  {
    EvalPrefixAdditive(Sum(p, q), p, q, x, k);
  }

  lemma EvalPrefixDiff(p: seq<real>, q: seq<real>, x: real, k: nat)
    requires |p| == |q| && k <= |p|
    ensures EvalPrefix(Diff(p, q), x, k) == EvalPrefix(p, x, k) - EvalPrefix(q, x, k)
  {
    EvalPrefixSubtractive(Diff(p, q), p, q, x, k);
  }

  /** MulXMinusOne is multiplication by (x - 1). */
  lemma EvalMulXMinusOne(q: seq<real>, x: real)
    ensures Eval(MulXMinusOne(q), x) == (x - 1.0) * Eval(q, x)
  {
    EvalPrefixDiff(q + [0.0], [0.0] + q, x, |q| + 1);
    EvalTimesX(q, x);
    EvalLeadingZero(q, x);
  }

  /**
    The coefficients of ClosedLoop(alpha, kbeta) are the polynomial
    (x - 1) * Q(x) + P(x): they give its value at every point.
  */
  lemma ClosedLoopEval(alpha: seq<real>, kbeta: seq<real>, x: real)
    requires |alpha| == |kbeta|
    ensures Eval(ClosedLoop(alpha, kbeta), x) == (x - 1.0) * Eval(alpha, x) + Eval(kbeta, x)
  {
    EvalPrefixSum(MulXMinusOne(alpha), [0.0] + kbeta, x, |alpha| + 1);
    EvalMulXMinusOne(alpha, x);
    EvalLeadingZero(kbeta, x);
  }

  /**
    When alpha[0] is 1 the builder's coefficients are those of the
    characteristic polynomial (x - 1) * Q(x) + P(x) formed from the
    controller's denominator Q and numerator P.
  */
  lemma ClosedLoopIsCharacteristic(alpha: seq<real>, kbeta: seq<real>, x: real)
    requires 1 <= |alpha| == |kbeta| && alpha[0] == 1.0
    ensures Eval(ClosedLoop(alpha, kbeta), x)
         == (x - 1.0) * Eval(ControllerDenominator(alpha), x) + Eval(kbeta, x)
  {
    assert ControllerDenominator(alpha) == alpha;
    ClosedLoopEval(alpha, kbeta, x);
  }

  /**
    A coefficient list of length n + 1 that starts with 1, continues with
    kbeta[i] + alpha[i+1] - alpha[i] and ends with kbeta[n-1] - alpha[n-1]
    is ClosedLoop(alpha, kbeta) with its leading coefficient set to 1.
  */
  lemma BuilderCoefficients(c: seq<real>, alpha: seq<real>, kbeta: seq<real>)
    requires 1 <= |alpha| == |kbeta| && |c| == |alpha| + 1 && c[0] == 1.0
    requires forall i :: 0 <= i < |alpha| - 1 ==> c[i + 1] == kbeta[i] + alpha[i + 1] - alpha[i]
    requires c[|alpha|] == kbeta[|alpha| - 1] - alpha[|alpha| - 1]
    ensures c == ClosedLoop(alpha, kbeta)[0 := 1.0]
    ensures alpha[0] == 1.0 ==> c == ClosedLoop(alpha, kbeta)
  {
    var n := |alpha|;
    var target := ClosedLoop(alpha, kbeta);
    assert |target| == n + 1;
    assert (alpha + [0.0])[0] == alpha[0] && ([0.0] + alpha)[0] == 0.0 && ([0.0] + kbeta)[0] == 0.0;
    forall j | 0 < j <= n
      ensures c[j] == target[j]
    {
      if j < n {
        assert (alpha + [0.0])[j] == alpha[j] && ([0.0] + alpha)[j] == alpha[j - 1];
        assert ([0.0] + kbeta)[j] == kbeta[j - 1];
        assert c[(j - 1) + 1] == kbeta[j - 1] + alpha[(j - 1) + 1] - alpha[j - 1];
      } else {
        assert (alpha + [0.0])[n] == 0.0 && ([0.0] + alpha)[n] == alpha[n - 1];
        assert ([0.0] + kbeta)[n] == kbeta[n - 1];
      }
    }
    assert c == target[0 := 1.0];
  }

  /**
    Fills an array of n + 1 coefficients from alpha and kbeta (both of
    length n): the leading coefficient is 1, then kbeta[i] + alpha[i+1] -
    alpha[i], and last kbeta[n-1] - alpha[n-1].
  */
  method ConstructPolesPolynomial(alpha: seq<real>, kbeta: seq<real>) returns (coeff: array<real>)
    requires 1 <= |alpha| == |kbeta|
    ensures fresh(coeff)
    ensures coeff.Length == |alpha| + 1 && coeff[0] == 1.0
    ensures forall i :: 0 <= i < |alpha| - 1 ==> coeff[i + 1] == kbeta[i] + alpha[i + 1] - alpha[i]
    ensures coeff[|alpha|] == kbeta[|alpha| - 1] - alpha[|alpha| - 1]
    ensures coeff[..] == ClosedLoop(alpha, kbeta)[0 := 1.0]
    ensures alpha[0] == 1.0 ==> coeff[..] == ClosedLoop(alpha, kbeta)
  {
    var n := |alpha|;
    coeff := new real[n + 1];
    coeff[0] := 1.0;
    for i := 0 to n - 1
      invariant coeff[0] == 1.0
      invariant forall j :: 0 <= j < i ==> coeff[j + 1] == kbeta[j] + alpha[j + 1] - alpha[j]
    {
      coeff[i + 1] := kbeta[i] + alpha[i + 1] - alpha[i];
    }
    coeff[n] := kbeta[n - 1] - alpha[n - 1];
    BuilderCoefficients(coeff[..], alpha, kbeta);
  }

  /**
    Two third-order inputs with alpha = [1, 0, 0]: kbeta = [0, 0, 1] gives
    x^3 - x^2 + 1, and kbeta = [1, 0, 0] gives x^3, all poles at the origin.
  */
  method ThirdOrderExamples() returns (c: seq<real>, d: seq<real>)
    ensures c == [1.0, -1.0, 0.0, 1.0]
    ensures d == [1.0, 0.0, 0.0, 0.0]
  {
    var a := ConstructPolesPolynomial([1.0, 0.0, 0.0], [0.0, 0.0, 1.0]);
    c := a[..];
    var b := ConstructPolesPolynomial([1.0, 0.0, 0.0], [1.0, 0.0, 0.0]);
    d := b[..];
  }

  /**
    The accumulation of P and Q in construct_controller, evaluated
    at the point x: P sums kbeta[i] * x^(n-1-i); Q takes the
    term x^(n-1) for i = 0 and alpha[i] * x^(n-1-i) for the others.
  */
  method BuildControllerPolynomials(alpha: seq<real>, kbeta: seq<real>, x: real) returns (p: real, q: real)
    requires |alpha| == |kbeta|
    ensures p == Eval(kbeta, x)
    ensures q == Eval(ControllerDenominator(alpha), x)
  {
    var n := |alpha|;
    ghost var den := ControllerDenominator(alpha);
    p, q := 0.0, 0.0;
    for i := 0 to n
      invariant p == EvalPrefix(kbeta, x, i)
      invariant q == EvalPrefix(den, x, i)
    {
      p := p + kbeta[i] * Pow(x, n - 1 - i);
      if i == 0 {
        q := q + Pow(x, n - 1 - i);
      } else {
        q := q + alpha[i] * Pow(x, n - 1 - i);
      }
    }
  }
}
