// L2NormalizeInPlace (Program.cs, lines 183-195): sums the squares of the
// components, takes the square root, and leaves the vector alone when that
// norm is below 1e-12; otherwise multiplies every component by 1 / norm.
// Math.Sqrt is a parameter; the arithmetic is exact (`real`).

module Normalization {
  /** The threshold below which the norm is treated as zero. */
  const Epsilon: real := 0.000000000001

  /** The sum of the squares of the components, accumulated left to right. */
  function SumSquares(v: seq<real>): real {
    if |v| == 0 then 0.0 else SumSquares(v[..|v| - 1]) + v[|v| - 1] * v[|v| - 1]
  }

  /** `sqrt` returns the non-negative square root of every non-negative real. */
  ghost predicate IsSqrt(sqrt: real -> real) {
    forall x: real :: 0.0 <= x ==> 0.0 <= sqrt(x) && sqrt(x) * sqrt(x) == x
  }

  /** Every component multiplied by the same factor `c`. */
  function Scale(v: seq<real>, c: real): (r: seq<real>)
    ensures |r| == |v| && forall i :: 0 <= i < |v| ==> r[i] == c * v[i]
  {
    seq(|v|, i requires 0 <= i < |v| => c * v[i])
  }

  /** The vector after L2NormalizeInPlace, with `sqrt` standing for Math.Sqrt. */
  function L2Normalize(v: seq<real>, sqrt: real -> real): seq<real> {
    var norm := sqrt(SumSquares(v));
    if norm < Epsilon then v else Scale(v, 1.0 / norm)
  }

  /** The accumulating loop of L2NormalizeInPlace: the sum of the squares. */
  method SquaredNorm(v: array<real>) returns (sum: real)
    ensures sum == SumSquares(v[..])
  {
    sum := 0.0;
    for i := 0 to v.Length
      invariant sum == SumSquares(v[..i])
    {
      assert v[..i + 1][..i] == v[..i];
      sum := sum + v[i] * v[i];
    }
    assert v[..v.Length] == v[..];
  }

  /** Normalises `v` in place. */
  method L2NormalizeInPlace(v: array<real>, sqrt: real -> real)
    modifies v
    ensures v[..] == L2Normalize(old(v[..]), sqrt)
  {
    ghost var original := v[..];
    var sum := SquaredNorm(v);
    var norm := sqrt(sum);
    if norm < Epsilon {
      return;
    }
    var inv := 1.0 / norm;
    for i := 0 to v.Length
      invariant forall k :: 0 <= k < i ==> v[k] == inv * original[k]
      invariant forall k :: i <= k < v.Length ==> v[k] == original[k]
    {
      v[i] := v[i] * inv;
    }
    ghost var scaled := Scale(original, inv);
    assert forall k :: 0 <= k < v.Length ==> v[k] == scaled[k];
    assert v[..] == scaled;
  }

  lemma {:induction false} SumSquaresNonNegative(v: seq<real>)
    ensures SumSquares(v) >= 0.0
  {
    if |v| > 0 {
      SumSquaresNonNegative(v[..|v| - 1]);
    }
  }

  /** Scaling every component by c scales the sum of squares by c * c. */
  lemma {:induction false} SumSquaresOfScaled(v: seq<real>, c: real)
    ensures SumSquares(Scale(v, c)) == c * c * SumSquares(v)
  {
    if |v| > 0 {
      var n := |v| - 1;
      forall i | 0 <= i < n
        ensures Scale(v, c)[..n][i] == Scale(v[..n], c)[i]
      {
      }
      assert Scale(v, c)[..n] == Scale(v[..n], c);
      SumSquaresOfScaled(v[..n], c);
      assert (c * v[n]) * (c * v[n]) == c * c * (v[n] * v[n]);
    }
  }

  /** The guard: with an exact square root, the vector is left unchanged
      exactly when its sum of squares is below Epsilon squared. */
  lemma GuardOnSumOfSquares(v: seq<real>, sqrt: real -> real)
    requires IsSqrt(sqrt)
    ensures L2Normalize(v, sqrt) == v <== SumSquares(v) < Epsilon * Epsilon
    ensures sqrt(SumSquares(v)) < Epsilon <==> SumSquares(v) < Epsilon * Epsilon
  {
    var s := SumSquares(v);
    SumSquaresNonNegative(v);
    var n := sqrt(s);
    assert 0.0 <= n && n * n == s;
    if n < Epsilon {
      ProductBelow(n, n, Epsilon);
    } else {
      ProductAtLeast(n, n, Epsilon);
    }
  }

  lemma ProductBelow(a: real, b: real, e: real)
    requires 0.0 <= a < e && 0.0 <= b < e
    ensures a * b < e * e
  {
    assert a * (e - b) >= 0.0;
    assert (e - a) * e > 0.0;
  }

  lemma ProductAtLeast(a: real, b: real, e: real)
    requires 0.0 <= e <= a && e <= b
    ensures a * b >= e * e
  {
    assert (a - e) * b >= 0.0;
    assert e * (b - e) >= 0.0;
  }

  /** An all-zero vector stays all zero, whatever the square root returns. */
  lemma ZeroVectorStaysZero(v: seq<real>, sqrt: real -> real)
    requires forall i :: 0 <= i < |v| ==> v[i] == 0.0
    ensures L2Normalize(v, sqrt) == v
  {
  }

  /** Above the guard, whatever the square root returns, every component is
      multiplied by the same positive factor, 1 / norm. */
  lemma ScaledByPositiveFactor(v: seq<real>, sqrt: real -> real)
    requires sqrt(SumSquares(v)) >= Epsilon
    ensures var c := 1.0 / sqrt(SumSquares(v));
      c > 0.0 && L2Normalize(v, sqrt) == Scale(v, c)
  {
  }

  /** Above the guard, and with exact arithmetic, the result has unit norm. */
  lemma UnitNormAboveGuard(v: seq<real>, sqrt: real -> real)
    requires IsSqrt(sqrt)
    requires SumSquares(v) >= Epsilon * Epsilon
    ensures SumSquares(L2Normalize(v, sqrt)) == 1.0
  {
    var s := SumSquares(v);
    GuardOnSumOfSquares(v, sqrt);
    var n := sqrt(s);
    var c := 1.0 / n;
    SumSquaresOfScaled(v, c);
    assert c * c * s == 1.0 by {
      assert n * n == s;
      assert c * n == 1.0;
    }
  }
}
