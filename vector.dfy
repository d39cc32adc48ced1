/**
  Element-wise array arithmetic over unbounded reals: the handful of NumPy
  vector operations the fit is written with (an array minus a scalar, the
  element-wise product, squares, `sum` and `mean`), and the algebra of `Sum`
  that every property of the fit rests on.
 */
module Vector {

  /** `sum(s)`: the total of the elements, from the front. */
  function Sum(s: seq<real>): real
  {
    if |s| == 0 then 0.0 else s[0] + Sum(s[1..])
  }

  /** `mean(s)`: the arithmetic mean of a non-empty array. */
  function Mean(s: seq<real>): real
    requires |s| > 0
  {
    Sum(s) / |s| as real
  }

  /** `s - c` for an array `s` and a scalar `c`. */
  function SubScalar(s: seq<real>, c: real): seq<real>
  {
    seq(|s|, i requires 0 <= i < |s| => s[i] - c)
  }

  /** `s + c` for an array `s` and a scalar `c`. */
  function AddScalar(s: seq<real>, c: real): seq<real>
  {
    seq(|s|, i requires 0 <= i < |s| => s[i] + c)
  }

  /** `c*s` for a scalar `c` and an array `s`. */
  function MulScalar(c: real, s: seq<real>): seq<real>
  {
    seq(|s|, i requires 0 <= i < |s| => c * s[i])
  }

  /** `s / d` for an array `s` and a non-zero scalar `d`. */
  function DivScalar(s: seq<real>, d: real): seq<real>
    requires d != 0.0
  {
    seq(|s|, i requires 0 <= i < |s| => s[i] / d)
  }

  /** `a - b` for two arrays of one shape. */
  function Minus(a: seq<real>, b: seq<real>): seq<real>
    requires |a| == |b|
  {
    seq(|a|, i requires 0 <= i < |a| => a[i] - b[i])
  }

  /** `a*b` for two arrays of one shape. */
  function Times(a: seq<real>, b: seq<real>): seq<real>
    requires |a| == |b|
  {
    seq(|a|, i requires 0 <= i < |a| => a[i] * b[i])
  }

  /** `s**2`. */
  function Squares(s: seq<real>): seq<real>
  {
    seq(|s|, i requires 0 <= i < |s| => s[i] * s[i])
  }

  predicate NonNegative(s: seq<real>)
  {
    forall i :: 0 <= i < |s| ==> s[i] >= 0.0
  }

  /** The array holds at least two different values. */
  predicate Varies(s: seq<real>)
  {
    exists i, j :: 0 <= i < |s| && 0 <= j < |s| && s[i] != s[j]
  }

  /** `Sum` distributes over a point-wise sum of two arrays. */
  lemma {:induction false} SumAdd(s: seq<real>, u: seq<real>, v: seq<real>)
    requires |u| == |s| && |v| == |s|
    requires forall i :: 0 <= i < |s| ==> s[i] == u[i] + v[i]
    ensures Sum(s) == Sum(u) + Sum(v)
  {
    if |s| > 0 {
      SumAdd(s[1..], u[1..], v[1..]);
    }
  }

  /** A constant factor comes out of `Sum`. */
  lemma {:induction false} SumScale(s: seq<real>, u: seq<real>, p: real)
    requires IsScaled(s, u, p)
    ensures Sum(s) == p * Sum(u)
  {
    if |s| > 0 {
      SumScale(s[1..], u[1..], p);
      MulDistributes(p, u[0], Sum(u[1..]), Sum(u));
    }
  }

  lemma MulDistributes(p: real, a: real, b: real, c: real)
    requires c == a + b
    ensures p * c == p * a + p * b
  {
  }

  /** `Sum` of `u + p*v`, point-wise, is `Sum(u) + p*Sum(v)`. */
  lemma SumAddScaled(s: seq<real>, u: seq<real>, v: seq<real>, p: real)
    requires |u| == |s| && |v| == |s|
    requires forall i :: 0 <= i < |s| ==> s[i] == u[i] + p * v[i]
    ensures Sum(s) == Sum(u) + p * Sum(v)
  {
    assert IsCombination(s, v, v, u, p, 0.0);
    SumQuadratic(s, v, v, u, p, 0.0);
  }

  /** `s` is, point-wise, `p*u`. */
  predicate IsScaled(s: seq<real>, u: seq<real>, p: real)
  {
    |u| == |s| && forall i :: 0 <= i < |s| ==> s[i] == p * u[i]
  }

  /** `s` is, point-wise, `u - p*v`. */
  predicate IsScaledDifference(s: seq<real>, u: seq<real>, v: seq<real>, p: real)
  {
    |u| == |s| && |v| == |s| && forall i :: 0 <= i < |s| ==> s[i] == u[i] - p * v[i]
  }

  /** `Sum` of `u - p*v`, point-wise, is `Sum(u) - p*Sum(v)`. */
  lemma SumSubScaled(s: seq<real>, u: seq<real>, v: seq<real>, p: real)
    requires IsScaledDifference(s, u, v, p)
    ensures Sum(s) == Sum(u) - p * Sum(v)
  {
    assert IsCombination(u, v, v, s, p, 0.0);
    SumQuadratic(u, v, v, s, p, 0.0);
  }

  /** A constant added to every element adds `|s|` copies of it to `Sum`. */
  lemma {:induction false} SumShift(s: seq<real>, u: seq<real>, c: real)
    requires |u| == |s|
    requires forall i :: 0 <= i < |s| ==> s[i] == u[i] + c
    ensures Sum(s) == Sum(u) + |u| as real * c
  {
    if |s| > 0 {
      SumShift(s[1..], u[1..], c);
      assert (|u| - 1) as real * c + c == |u| as real * c;
    }
  }

  /** A constant taken from every element takes `|s|` copies of it from `Sum`. */
  lemma {:induction false} SumShiftDown(s: seq<real>, u: seq<real>, c: real)
    requires |u| == |s|
    requires forall i :: 0 <= i < |s| ==> s[i] == u[i] - c
    ensures Sum(s) == Sum(u) - |u| as real * c
  {
    if |s| > 0 {
      SumShiftDown(s[1..], u[1..], c);
      assert (|u| - 1) as real * c + c == |u| as real * c;
    }
  }

  lemma {:induction false} SumNonNegative(s: seq<real>)
    requires NonNegative(s)
    ensures Sum(s) >= 0.0
  {
    if |s| > 0 {
      SumNonNegative(s[1..]);
    }
  }

  /** One positive term makes a sum of non-negative terms positive. */
  lemma {:induction false} SumPositive(s: seq<real>, k: int)
    requires NonNegative(s)
    requires 0 <= k < |s| && s[k] > 0.0
    ensures Sum(s) > 0.0
  {
    if k == 0 {
      SumNonNegative(s[1..]);
    } else {
      SumPositive(s[1..], k - 1);
    }
  }

  /** An array of zeros sums to zero. */
  lemma {:induction false} SumOfZeros(s: seq<real>)
    requires forall i :: 0 <= i < |s| ==> s[i] == 0.0
    ensures Sum(s) == 0.0
  {
    if |s| > 0 {
      SumOfZeros(s[1..]);
    }
  }

  /** A sum of non-negative terms is zero exactly when every term is zero. */
  lemma SumZeroIffAllZero(s: seq<real>)
    requires NonNegative(s)
    ensures Sum(s) == 0.0 <==> forall i :: 0 <= i < |s| ==> s[i] == 0.0
  {
    if exists k :: 0 <= k < |s| && s[k] != 0.0 {
      var k :| 0 <= k < |s| && s[k] != 0.0;
      SumPositive(s, k);
    } else {
      SumOfZeros(s);
    }
  }

  lemma SquaresNonNegative(s: seq<real>)
    ensures NonNegative(Squares(s))
  {
    forall i | 0 <= i < |s|
      ensures Squares(s)[i] >= 0.0
    {
      SquareNonNegative(s[i], Squares(s)[i]);
    }
  }

  /*
    The facts about signs of products below take the product as a separate
    argument `p`: the solver proves them reliably in that form.
   */

  lemma MulNonNegative(a: real, b: real, p: real)
    requires a >= 0.0 && b >= 0.0 && p == a * b
    ensures p >= 0.0
  {
  }

  lemma MulPositive(a: real, b: real, p: real)
    requires a > 0.0 && b > 0.0 && p == a * b
    ensures p > 0.0
  {
  }

  lemma SquareNonNegative(a: real, p: real)
    requires p == a * a
    ensures p >= 0.0
  {
    if a >= 0.0 {
      MulNonNegative(a, a, p);
    } else {
      var b := -a;
      assert p == b * b;
      MulNonNegative(b, b, p);
    }
  }

  lemma SquarePositive(a: real, p: real)
    requires a != 0.0 && p == a * a
    ensures p > 0.0
  {
    if a > 0.0 {
      MulPositive(a, a, p);
    } else {
      var b := -a;
      assert p == b * b;
      MulPositive(b, b, p);
    }
  }

  /** A square is zero only at zero. */
  lemma ZeroSquare(a: real, p: real)
    requires p == a * a && p == 0.0
    ensures a == 0.0
  {
    if a != 0.0 {
      SquarePositive(a, p);
    }
  }

  lemma SumSubScalar(s: seq<real>, c: real)
    ensures Sum(SubScalar(s, c)) == Sum(s) - |s| as real * c
  {
    SumShiftDown(SubScalar(s, c), s, c);
  }

  lemma SumMulScalar(c: real, s: seq<real>)
    ensures Sum(MulScalar(c, s)) == c * Sum(s)
  {
    SumScale(MulScalar(c, s), s, c);
  }

  lemma SumDivScalar(s: seq<real>, d: real)
    requires d != 0.0
    ensures Sum(DivScalar(s, d)) == Sum(s) / d
  {
    var r := 1.0 / d;
    DivAsScale(s, d, r);
    SumScale(DivScalar(s, d), s, r);
    DivAsProduct(Sum(s), d, r);
  }

  lemma DivAsScale(s: seq<real>, d: real, r: real)
    requires d != 0.0 && r == 1.0 / d
    ensures forall i :: 0 <= i < |s| ==> DivScalar(s, d)[i] == r * s[i]
  {
    forall i | 0 <= i < |s|
      ensures DivScalar(s, d)[i] == r * s[i]
    {
      DivAsProduct(s[i], d, r);
    }
  }

  lemma DivAsProduct(a: real, d: real, r: real)
    requires d != 0.0 && r == 1.0 / d
    ensures a / d == r * a
  {
  }

  /** Deviations from the mean sum to zero. */
  lemma CentredSumZero(s: seq<real>)
    requires |s| > 0
    ensures Sum(SubScalar(s, Mean(s))) == 0.0
  {
    SumSubScalar(s, Mean(s));
  }

  /** An array of one repeated value has that value as its mean. */
  lemma MeanOfConstant(s: seq<real>)
    requires |s| > 0
    requires forall i :: 0 <= i < |s| ==> s[i] == s[0]
    ensures Mean(s) == s[0]
  {
    var zeros := seq(|s|, i => 0.0);
    SumOfZeros(zeros);
    SumShift(s, zeros, s[0]);
  }

  /** Adding `k` to every element adds `k` to the mean. */
  lemma MeanShift(s: seq<real>, t: seq<real>, k: real)
    requires |s| > 0 && |t| == |s|
    requires forall i :: 0 <= i < |s| ==> t[i] == s[i] + k
    ensures Mean(t) == Mean(s) + k
  {
    SumShift(t, s, k);
    DivShift(Sum(s), |s| as real, k);
  }

  lemma DivShift(a: real, n: real, k: real)
    requires n > 0.0
    ensures (a + n * k) / n == a / n + k
  {
  }

  /**
    The centred sum of squares, `sum((s - mean(s))**2)`, is never negative,
    and it is positive exactly when the array holds two different values.
   */
  lemma CentredSquaresPositiveIffVaries(s: seq<real>)
    requires |s| > 0
    ensures Sum(Squares(SubScalar(s, Mean(s)))) >= 0.0
    ensures Sum(Squares(SubScalar(s, Mean(s)))) > 0.0 <==> Varies(s)
  {
    var d := SubScalar(s, Mean(s));
    SquaresNonNegative(d);
    SumNonNegative(Squares(d));
    if Varies(s) {
      var i, j :| 0 <= i < |s| && 0 <= j < |s| && s[i] != s[j];
      var k := if s[i] != Mean(s) then i else j;
      assert d[k] != 0.0;
      SquarePositive(d[k], Squares(d)[k]);
      SumPositive(Squares(d), k);
    } else {
      assert forall i :: 0 <= i < |s| ==> s[i] == s[0];
      MeanOfConstant(s);
      SumOfZeros(Squares(d));
    }
  }

  /**
    Cauchy-Schwarz for finite sums: `sum(a*b)**2 <= sum(a**2) * sum(b**2)`,
    by the discriminant of the non-negative quadratic `sum((t*a - b)**2)`.
   */
  lemma CauchySchwarz(a: seq<real>, b: seq<real>)
    requires |a| == |b|
    ensures Sum(Times(a, b)) * Sum(Times(a, b)) <= Sum(Squares(a)) * Sum(Squares(b))
  {
    CauchySchwarzSums(a, b, Sum(Squares(a)), Sum(Times(a, b)), Sum(Squares(b)));
  }

  /** Cauchy-Schwarz with the three sums as plain arguments. */
  lemma CauchySchwarzSums(a: seq<real>, b: seq<real>, aa: real, ab: real, bb: real)
    requires |a| == |b| && aa == Sum(Squares(a)) && ab == Sum(Times(a, b)) && bb == Sum(Squares(b))
    ensures ab * ab <= aa * bb
  {
    SquaresNonNegative(a);
    SumNonNegative(Squares(a));
    if aa == 0.0 {
      CauchySchwarzNull(a, b);
    } else {
      CauchySchwarzPositive(a, b, aa, ab, bb);
    }
  }

  /** Cauchy-Schwarz when `a` is not all zeros, with the three sums as plain arguments. */
  lemma CauchySchwarzPositive(a: seq<real>, b: seq<real>, aa: real, ab: real, bb: real)
    requires |a| == |b| && aa == Sum(Squares(a)) && ab == Sum(Times(a, b)) && bb == Sum(Squares(b))
    requires aa > 0.0
    ensures ab * ab <= aa * bb
  {
    var t := ab / aa;
    var tt, m2 := t * t, -2.0 * t;
    QuadraticNonNegative(a, b, t, tt, m2);
    Discriminant(aa, ab, bb, t, tt, m2);
  }

  /** When `a` is all zeros both sides of Cauchy-Schwarz vanish. */
  lemma CauchySchwarzNull(a: seq<real>, b: seq<real>)
    requires |a| == |b| && Sum(Squares(a)) == 0.0
    ensures Sum(Times(a, b)) == 0.0
  {
    SquaresNonNegative(a);
    SumZeroIffAllZero(Squares(a));
    forall i | 0 <= i < |a|
      ensures Times(a, b)[i] == 0.0
    {
      ZeroSquare(a[i], Squares(a)[i]);
    }
    SumOfZeros(Times(a, b));
  }

  /** `sum((t*a - b)**2)`, expanded in powers of `t` (with `tt = t*t`, `m2 = -2*t`), is never negative. */
  lemma QuadraticNonNegative(a: seq<real>, b: seq<real>, t: real, tt: real, m2: real)
    requires |a| == |b| && tt == t * t && m2 == -2.0 * t
    ensures tt * Sum(Squares(a)) + m2 * Sum(Times(a, b)) + Sum(Squares(b)) >= 0.0
  {
    var d := Minus(MulScalar(t, a), b);
    SumExpandedSquares(a, b, d, t, tt, m2);
    SquaresNonNegative(d);
    SumNonNegative(Squares(d));
  }

  /** `sum((t*a - b)**2) == t*t*sum(a**2) - 2*t*sum(a*b) + sum(b**2)`. */
  lemma SumExpandedSquares(a: seq<real>, b: seq<real>, d: seq<real>, t: real, tt: real, m2: real)
    requires |a| == |b| && d == Minus(MulScalar(t, a), b) && tt == t * t && m2 == -2.0 * t
    ensures Sum(Squares(d)) == tt * Sum(Squares(a)) + m2 * Sum(Times(a, b)) + Sum(Squares(b))
  {
    ExpandedSquares(a, b, d, t, tt, m2);
    SumQuadratic(Squares(d), Squares(a), Times(a, b), Squares(b), tt, m2);
  }

  /** `s` is, point-wise, `p*u + q*v + w`. */
  predicate IsCombination(s: seq<real>, u: seq<real>, v: seq<real>, w: seq<real>, p: real, q: real)
  {
    |u| == |s| && |v| == |s| && |w| == |s| &&
    forall i :: 0 <= i < |s| ==> s[i] == p * u[i] + q * v[i] + w[i]
  }

  lemma CombinationTail(s: seq<real>, u: seq<real>, v: seq<real>, w: seq<real>, p: real, q: real)
    requires IsCombination(s, u, v, w, p, q) && |s| > 0
    ensures IsCombination(s[1..], u[1..], v[1..], w[1..], p, q)
  {
    forall i | 0 <= i < |s| - 1
      ensures s[1..][i] == p * u[1..][i] + q * v[1..][i] + w[1..][i]
    {
      assert s[i + 1] == p * u[i + 1] + q * v[i + 1] + w[i + 1];
    }
  }

  /** `Sum` of `p*u + q*v + w`, point-wise, is `p*Sum(u) + q*Sum(v) + Sum(w)`. */
  lemma {:induction false} SumQuadratic(s: seq<real>, u: seq<real>, v: seq<real>, w: seq<real>, p: real, q: real)
    requires IsCombination(s, u, v, w, p, q)
    ensures Sum(s) == p * Sum(u) + q * Sum(v) + Sum(w)
  {
    if |s| > 0 {
      CombinationTail(s, u, v, w, p, q);
      SumQuadratic(s[1..], u[1..], v[1..], w[1..], p, q);
      MulDistributes(p, u[0], Sum(u[1..]), Sum(u));
      MulDistributes(q, v[0], Sum(v[1..]), Sum(v));
    }
  }

  /** Elementwise, `(t*a - b)**2 == t*t*a**2 + -2*t*(a*b) + b**2`. */
  lemma ExpandedSquares(a: seq<real>, b: seq<real>, d: seq<real>, t: real, tt: real, m2: real)
    requires |a| == |b| && d == Minus(MulScalar(t, a), b) && tt == t * t && m2 == -2.0 * t
    ensures IsCombination(Squares(d), Squares(a), Times(a, b), Squares(b), tt, m2)
  {
    forall i | 0 <= i < |a|
      ensures Squares(d)[i] == tt * Squares(a)[i] + m2 * Times(a, b)[i] + Squares(b)[i]
    {
      ExpandSquare(t, a[i], b[i], Squares(d)[i], Squares(a)[i], Times(a, b)[i], Squares(b)[i]);
    }
  }

  /** A quadratic `aa*t*t - 2*ab*t + bb`, non-negative at its vertex `t = ab/aa`, has `ab*ab <= aa*bb`. */
  lemma Discriminant(aa: real, ab: real, bb: real, t: real, tt: real, m2: real)
    requires aa > 0.0 && t == ab / aa && tt == t * t && m2 == -2.0 * t
    requires tt * aa + m2 * ab + bb >= 0.0
    ensures ab * ab <= aa * bb
  {
    assert t * aa == ab;
    assert t * t * aa == t * ab;
    assert bb - t * ab >= 0.0;
    MulNonNegative(bb - t * ab, aa, (bb - t * ab) * aa);
    assert ab * ab == t * ab * aa;
  }

  lemma ExpandSquare(t: real, x: real, y: real, e: real, xx: real, xy: real, yy: real)
    requires e == (t * x - y) * (t * x - y)
    requires xx == x * x && xy == x * y && yy == y * y
    ensures e == t * t * xx + -2.0 * t * xy + yy
  {
  }
}
