/**
  The stability checker: counts the roots of a characteristic polynomial
  that are not strictly inside the unit circle.

  A complex root is a pair of reals. Its modulus is at least 1 exactly when
  re * re + im * im is at least 1, so no square root is needed.
*/
module Stability {

  datatype Complex = Complex(re: real, im: real)

  /** The root lies on or outside the unit circle: abs(z) >= 1. */
  predicate IsOutside(z: Complex)
  {
    z.re * z.re + z.im * z.im >= 1.0
  }

  /** How many of the roots lie on or outside the unit circle. */
  function CountOutside(zeros: seq<Complex>): (count: nat)
    ensures count <= |zeros|
  {
    if zeros == [] then 0
    else CountOutside(zeros[..|zeros| - 1]) + (if IsOutside(zeros[|zeros| - 1]) then 1 else 0)
  }

  /**
    The classifier comparing the square of the modulus with 1 agrees with
    comparing the modulus itself, for the non-negative m with
    m * m == re * re + im * im.
  */
  lemma IsOutsideIffModulusAtLeastOne(z: Complex, m: real)
    requires m >= 0.0 && m * m == z.re * z.re + z.im * z.im
    ensures IsOutside(z) <==> m >= 1.0
  {
    if m < 1.0 {
      assert m * m <= m * 1.0;
    } else {
      assert m * m >= 1.0 * m;
    }
  }

  /** Counting distributes over concatenation of root lists. */
  lemma {:induction false} CountOutsideAppend(a: seq<Complex>, b: seq<Complex>)
    ensures CountOutside(a + b) == CountOutside(a) + CountOutside(b)
    decreases |b|
  {
    if b != [] {
      var b' := b[..|b| - 1];
      CountOutsideAppend(a, b');
      assert (a + b)[..|a + b| - 1] == a + b';
      assert (a + b)[|a + b| - 1] == b[|b| - 1];
    } else {
      assert a + b == a;
    }
  }

  /** The count is zero exactly when every root is strictly inside. */
  lemma {:induction false} CountOutsideZeroIff(zeros: seq<Complex>)
    ensures CountOutside(zeros) == 0 <==> forall k :: 0 <= k < |zeros| ==> !IsOutside(zeros[k])
  {
    if zeros != [] {
      var front := zeros[..|zeros| - 1];
      CountOutsideZeroIff(front);
      assert forall k :: 0 <= k < |front| ==> front[k] == zeros[k];
    }
  }

  /** The count equals the number of roots exactly when no root is strictly inside. */
  lemma {:induction false} CountOutsideAllIff(zeros: seq<Complex>)
    ensures CountOutside(zeros) == |zeros| <==> forall k :: 0 <= k < |zeros| ==> IsOutside(zeros[k])
  {
    if zeros != [] {
      var front := zeros[..|zeros| - 1];
      CountOutsideAllIff(front);
      assert forall k :: 0 <= k < |front| ==> front[k] == zeros[k];
    }
  }

  /** Taking one root out of a list lowers the count by that root's share. */
  lemma CountOutsideRemove(u: seq<Complex>, z: Complex, w: seq<Complex>)
    ensures CountOutside(u + [z] + w) == CountOutside(u + w) + CountOutside([z])
  {
    CountOutsideAppend(u + [z], w);
    CountOutsideAppend(u, [z]);
    CountOutsideAppend(u, w);
  }

  lemma MultisetCancel(front: seq<Complex>, z: Complex, u: seq<Complex>, w: seq<Complex>)
    requires multiset(front + [z]) == multiset(u + [z] + w)
    ensures multiset(front) == multiset(u + w)
  {
    assert multiset(front + [z]) == multiset(front) + multiset{z};
    assert multiset(u + [z] + w) == multiset(u) + multiset{z} + multiset(w);
    assert multiset(u + w) == multiset(u) + multiset(w);
    calc {
      multiset(front);
      multiset(front + [z]) - multiset{z};
      multiset(u + w) + multiset{z} - multiset{z};
      multiset(u + w);
    }
  }

  /** The count does not depend on the order in which the roots are listed. */
  lemma {:induction false} CountOutsidePermutation(a: seq<Complex>, b: seq<Complex>)
    requires multiset(a) == multiset(b)
    ensures CountOutside(a) == CountOutside(b)
    decreases |a|
  {
    if a == [] {
      assert |b| == |multiset(b)| == 0;
    } else {
      var front, last := a[..|a| - 1], a[|a| - 1];
      assert a == front + [last];
      assert last in multiset(b) by {
        assert last in multiset(a);
      }
      var j :| 0 <= j < |b| && b[j] == last;
      var u, w := b[..j], b[j + 1..];
      assert b == u + [last] + w;
      MultisetCancel(front, last, u, w);
      CountOutsidePermutation(front, u + w);
      CountOutsideRemove(u, last, w);
      CountOutsideAppend(front, [last]);
    }
  }

  /**
    Walks the roots keeping a flag and a counter: a root of modulus at
    least 1 (the boundary included) clears the flag and is counted.
  */
  method AreZerosInsideUnitCircle(zeros: seq<Complex>) returns (zerosInside: bool, numZerosOutside: nat)
    ensures numZerosOutside == CountOutside(zeros)
    ensures zerosInside <==> forall k :: 0 <= k < |zeros| ==> !IsOutside(zeros[k])
    ensures zerosInside <==> numZerosOutside == 0
  {
    zerosInside := true;
    numZerosOutside := 0;
    for i := 0 to |zeros|
      invariant numZerosOutside == CountOutside(zeros[..i])
      invariant zerosInside <==> forall k :: 0 <= k < i ==> !IsOutside(zeros[k])
    {
      assert zeros[..i + 1][..i] == zeros[..i];
      if IsOutside(zeros[i]) {
        zerosInside := false;
        numZerosOutside := numZerosOutside + 1;
      }
    }
    assert zeros[..|zeros|] == zeros;
    CountOutsideZeroIff(zeros);
  }
}
