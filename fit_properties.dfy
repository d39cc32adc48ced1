/**
  Properties of `linearFit` that relate several calls: the fitted line is the
  unique line whose residuals satisfy the normal equations, it minimises the
  residual sum of squares over all lines, it recovers a noiseless line
  exactly, and it moves with the data when x is shifted or y is rescaled.
 */
module FitProperties {
  import opened Vector
  import opened Chi2Fit

  // ---------------------------------------------------------------------
  // The fitted line among all lines
  // ---------------------------------------------------------------------

  /**
    The normal equations characterise the fit: the residuals of a line sum to
    zero and are orthogonal to x exactly when it is the fitted line.
   */
  lemma NormalEquationsCharacterise(x: seq<real>, y: seq<real>, m: real, b: real)
    requires |x| == |y| > 0 && Varies(x)
    ensures
      (Sum(LineResiduals(x, y, m, b)) == 0.0 && Sum(Times(LineResiduals(x, y, m, b), x)) == 0.0)
      <==> (m == Slope(x, y) && b == Intercept(x, y))
  {
    var e, f := Residuals(x, y), LineResiduals(x, y, m, b);
    var d, k := Slope(x, y) - m, Intercept(x, y) - b;
    var g := Affine(x, d, k);
    ResidualsOfFit(x, y);
    LineResidualsPerturbed(x, y, m, b, Slope(x, y), Intercept(x, y), d, k);
    if Sum(f) == 0.0 && Sum(Times(f, x)) == 0.0 {
      PerturbationSums(e, f, g, x);
      AffineBalancedIsZero(g, x, d, k);
      AffineZero(x, d, k);
    }
  }

  /**
    Least squares: no line has a smaller residual sum of squares than the
    fitted one, and only the fitted line attains it.
   */
  lemma LeastSquares(x: seq<real>, y: seq<real>, m: real, b: real)
    requires |x| == |y| > 0 && Varies(x)
    ensures Sum(Squares(Residuals(x, y))) <= Sum(Squares(LineResiduals(x, y, m, b)))
    ensures Sum(Squares(Residuals(x, y))) == Sum(Squares(LineResiduals(x, y, m, b)))
      <==> (m == Slope(x, y) && b == Intercept(x, y))
  {
    var e, f := Residuals(x, y), LineResiduals(x, y, m, b);
    var d, k := Slope(x, y) - m, Intercept(x, y) - b;
    var g := Affine(x, d, k);
    ResidualsOfFit(x, y);
    LineResidualsPerturbed(x, y, m, b, Slope(x, y), Intercept(x, y), d, k);
    AffineOrthogonal(e, x, d, k);
    SumOfSquaresSplit(e, f, g);
    SquaresNonNegative(g);
    SumNonNegative(Squares(g));
    if Sum(Squares(e)) == Sum(Squares(f)) {
      SquaresVanish(g);
      AffineZero(x, d, k);
    }
  }

  /**
    A noiseless line is recovered exactly: its slope and intercept come back,
    every residual is zero, so is the residual variance, and when the line is
    not flat it explains all of the scatter of y.
   */
  lemma ExactLineRecovered(x: seq<real>, y: seq<real>, m: real, b: real)
    requires |x| == |y| > 0 && Varies(x)
    requires forall i :: 0 <= i < |x| ==> y[i] == m * x[i] + b
    ensures Slope(x, y) == m && Intercept(x, y) == b
    ensures forall i :: 0 <= i < |x| ==> Residuals(x, y)[i] == 0.0
    ensures |x| >= 3 ==> YVariance(x, y) == 0.0
    ensures m != 0.0 ==> CentredSumOfSquares(y) > 0.0 && RSquared(x, y) == 1.0
  {
    var f := LineResiduals(x, y, m, b);
    assert forall i :: 0 <= i < |x| ==> f[i] == 0.0;
    SumOfZeros(f);
    assert forall i :: 0 <= i < |x| ==> Times(f, x)[i] == 0.0;
    SumOfZeros(Times(f, x));
    NormalEquationsCharacterise(x, y, m, b);
    ResidualsOfFit(x, y);
    if |x| >= 3 {
      YVarianceZeroIff(x, y);
    }
    if m != 0.0 {
      LineVaries(x, y, m, b);
      assert forall i :: 0 <= i < |x| ==> Squares(Residuals(x, y))[i] == 0.0;
      SumOfZeros(Squares(Residuals(x, y)));
    }
  }

  /** On a noiseless line through at least three points whose x are not all equal, `linearFit` returns the line and zero variances. */
  lemma ExactLineFit(x: seq<real>, y: seq<real>, m: real, b: real, printInfo: bool)
    requires |x| == |y| >= 3 && Varies(x)
    requires forall i :: 0 <= i < |x| ==> y[i] == m * x[i] + b
    ensures LinearFit(x, y, printInfo) == Success(Fit(m, b, 0.0, 0.0, 0.0))
  {
    ExactLineRecovered(x, y, m, b);
    VariancesVanish(x, y);
    FitFields(x, y, printInfo);
  }

  /** With no residual scatter, the slope and intercept variances are zero too. */
  lemma VariancesVanish(x: seq<real>, y: seq<real>)
    requires |x| == |y| >= 3 && CentredSumOfSquares(x) > 0.0 && YVariance(x, y) == 0.0
    ensures SlopeVariance(x, y) == 0.0 && InterceptVariance(x, y) == 0.0
  {
  }

  lemma FitFields(x: seq<real>, y: seq<real>, printInfo: bool)
    requires |x| == |y| >= 3 && CentredSumOfSquares(x) > 0.0
    ensures LinearFit(x, y, printInfo) ==
      Success(Fit(Slope(x, y), Intercept(x, y), SlopeVariance(x, y), InterceptVariance(x, y), YVariance(x, y)))
  {
  }

  /** Shifting every x by `k` leaves the slope as it was and moves the intercept by `-k*slope`. */
  lemma ShiftX(x: seq<real>, y: seq<real>, k: real)
    requires |x| == |y| > 0 && Varies(x)
    ensures Varies(AddScalar(x, k))
    ensures Slope(AddScalar(x, k), y) == Slope(x, y)
    ensures Intercept(AddScalar(x, k), y) == Intercept(x, y) - k * Slope(x, y)
  {
    ShiftedFit(x, y, k, Slope(x, y), Intercept(x, y), Intercept(x, y) - k * Slope(x, y));
  }

  /** Shifting every x by `k` leaves the residuals as they were. */
  lemma ShiftXResiduals(x: seq<real>, y: seq<real>, k: real)
    requires |x| == |y| > 0 && Varies(x)
    ensures Varies(AddScalar(x, k))
    ensures Residuals(AddScalar(x, k), y) == Residuals(x, y)
  {
    ShiftedFit(x, y, k, Slope(x, y), Intercept(x, y), Intercept(x, y) - k * Slope(x, y));
    ResidualsOfFit(AddScalar(x, k), y);
  }

  /** The fitted line of `(x + k, y)` is the fitted line of `(x, y)`, moved by `k`. */
  lemma ShiftedFit(x: seq<real>, y: seq<real>, k: real, m: real, b: real, bs: real)
    requires |x| == |y| > 0 && Varies(x)
    requires m == Slope(x, y) && b == Intercept(x, y) && bs == b - k * m
    ensures Varies(AddScalar(x, k))
    ensures Slope(AddScalar(x, k), y) == m && Intercept(AddScalar(x, k), y) == bs
    ensures LineResiduals(AddScalar(x, k), y, m, bs) == Residuals(x, y)
  {
    var e := Residuals(x, y);
    ShiftVaries(x, k);
    ResidualsOfFit(x, y);
    ShiftedLineResiduals(x, y, k, m, b, bs);
    OrthogonalAfterShift(e, x, k);
    NormalEquationsCharacterise(AddScalar(x, k), y, m, bs);
  }

  /** Shifting every x by `k` changes neither `variancex`, nor the residual variance, nor the slope variance. */
  lemma ShiftXVariances(x: seq<real>, y: seq<real>, k: real)
    requires |x| == |y| >= 3 && Varies(x)
    ensures CentredSumOfSquares(AddScalar(x, k)) == CentredSumOfSquares(x)
    ensures YVariance(AddScalar(x, k), y) == YVariance(x, y)
    ensures SlopeVariance(AddScalar(x, k), y) == SlopeVariance(x, y)
  {
    ShiftX(x, y, k);
    ShiftXResiduals(x, y, k);
    CentredShift(x, k);
  }

  /**
    Rescaling y to `c*y + d` rescales the slope by `c` and maps the intercept
    to `c*intercept + d`.
   */
  lemma ScaleY(x: seq<real>, y: seq<real>, c: real, d: real)
    requires |x| == |y| > 0 && Varies(x)
    ensures Slope(x, AddScalar(MulScalar(c, y), d)) == c * Slope(x, y)
    ensures Intercept(x, AddScalar(MulScalar(c, y), d)) == c * Intercept(x, y) + d
  {
    var ys := AddScalar(MulScalar(c, y), d);
    var m, b := Slope(x, y), Intercept(x, y);
    var cm, cb := c * m, c * b + d;
    var e := Residuals(x, y);
    ResidualsOfFit(x, y);
    ScaledLineResiduals(x, y, c, d, m, b, cm, cb);
    ScaledBalanced(e, x, c);
    NormalEquationsCharacterise(x, ys, cm, cb);
  }

  /** Rescaling y to `c*y + d` multiplies every residual by `c`. */
  lemma ScaleYResiduals(x: seq<real>, y: seq<real>, c: real, d: real)
    requires |x| == |y| > 0 && Varies(x)
    ensures Residuals(x, AddScalar(MulScalar(c, y), d)) == MulScalar(c, Residuals(x, y))
  {
    ScaleY(x, y, c, d);
    ResidualsOfFit(x, y);
    ResidualsOfFittedLine(x, AddScalar(MulScalar(c, y), d), c * Slope(x, y), c * Intercept(x, y) + d);
    ScaledLineResiduals(x, y, c, d, Slope(x, y), Intercept(x, y), c * Slope(x, y), c * Intercept(x, y) + d);
  }

  /** The residuals are those of whatever line has the fitted slope and intercept. */
  lemma ResidualsOfFittedLine(x: seq<real>, y: seq<real>, m: real, b: real)
    requires |x| == |y| > 0 && Varies(x)
    requires m == Slope(x, y) && b == Intercept(x, y)
    ensures Residuals(x, y) == LineResiduals(x, y, m, b)
  {
    ResidualsOfFit(x, y);
  }

  /**
    Rescaling y to `c*y + d` multiplies the residual variance by `c*c`, so the
    standard errors scale by `|c|`.
   */
  lemma ScaleYVariance(x: seq<real>, y: seq<real>, c: real, d: real)
    requires |x| == |y| >= 3 && Varies(x)
    ensures YVariance(x, AddScalar(MulScalar(c, y), d)) == c * c * YVariance(x, y)
  {
    var cc := c * c;
    ScaleYResidualSquares(x, y, c, d, cc);
    ScaledQuotient(Sum(Squares(Residuals(x, AddScalar(MulScalar(c, y), d)))), Sum(Squares(Residuals(x, y))), cc, (|x| - 2) as real);
  }

  /** Rescaling y to `c*y + d` multiplies the residual sum of squares by `c*c`. */
  lemma ScaleYResidualSquares(x: seq<real>, y: seq<real>, c: real, d: real, cc: real)
    requires |x| == |y| > 0 && Varies(x) && cc == c * c
    ensures Sum(Squares(Residuals(x, AddScalar(MulScalar(c, y), d)))) == cc * Sum(Squares(Residuals(x, y)))
  {
    ScaleYResiduals(x, y, c, d);
    ScaledSquares(Residuals(x, AddScalar(MulScalar(c, y), d)), Residuals(x, y), c, cc);
  }

  /** Rescaling y to `c*y + d` multiplies the slope variance by `c*c`. */
  lemma ScaleYSlopeVariance(x: seq<real>, y: seq<real>, c: real, d: real)
    requires |x| == |y| >= 3 && Varies(x)
    ensures SlopeVariance(x, AddScalar(MulScalar(c, y), d)) == c * c * SlopeVariance(x, y)
  {
    var ys := AddScalar(MulScalar(c, y), d);
    ScaleYVariance(x, y, c, d);
    ScaledQuotient(YVariance(x, ys), YVariance(x, y), c * c, CentredSumOfSquares(x));
  }

  /** Rescaling y to `c*y + d` multiplies the intercept variance by `c*c`. */
  lemma ScaleYInterceptVariance(x: seq<real>, y: seq<real>, c: real, d: real)
    requires |x| == |y| >= 3 && Varies(x)
    ensures InterceptVariance(x, AddScalar(MulScalar(c, y), d)) == c * c * InterceptVariance(x, y)
  {
    var ys := AddScalar(MulScalar(c, y), d);
    var v, v2 := SlopeVariance(x, y), SlopeVariance(x, ys);
    ScaleYSlopeVariance(x, y, c, d);
    ScaledFactor(v, v2, Sum(Squares(x)) / |x| as real, c * c);
  }

  lemma ScaledFactor(v: real, v2: real, q: real, cc: real)
    requires v2 == cc * v
    ensures v2 * q == cc * (v * q)
  {
  }

  /**
    A standard error of `c*c*v` is `|c|` times a standard error of `v`:
    rescaling y by `c` scales every error `linearFit` returns by `|c|`.
   */
  lemma StandardErrorScales(e: real, v: real, c: real)
    requires IsStandardError(e, v)
    ensures IsStandardError(Abs(c) * e, c * c * v)
  {
    var a := Abs(c);
    var ae, ee, aa := a * e, e * e, a * a;
    MulNonNegative(a, e, ae);
    ScaledSquare(a, e, aa, ae, ae * ae, ee);
    assert aa == c * c;
  }

  function Abs(c: real): (a: real)
    ensures a >= 0.0 && (a == c || a == -c)
  {
    if c < 0.0 then -c else c
  }

  /** Shifting every x leaves `r2` unchanged. */
  lemma ShiftXRSquared(x: seq<real>, y: seq<real>, k: real)
    requires |x| == |y| > 0 && Varies(x) && Varies(y)
    ensures Varies(AddScalar(x, k))
    ensures RSquared(AddScalar(x, k), y) == RSquared(x, y)
  {
    ShiftX(x, y, k);
    ShiftXResiduals(x, y, k);
  }

  /** Rescaling y to `c*y + d` with `c != 0` leaves `r2` unchanged. */
  lemma ScaleYRSquared(x: seq<real>, y: seq<real>, c: real, d: real)
    requires |x| == |y| > 0 && Varies(x) && Varies(y) && c != 0.0
    ensures Varies(AddScalar(MulScalar(c, y), d))
    ensures RSquared(x, AddScalar(MulScalar(c, y), d)) == RSquared(x, y)
  {
    ScaleYUnexplained(x, y, c, d);
  }

  /** Rescaling y by `c != 0` keeps the unexplained share `sum(residuals**2)/variancey`. */
  lemma ScaleYUnexplained(x: seq<real>, y: seq<real>, c: real, d: real)
    requires |x| == |y| > 0 && Varies(x) && Varies(y) && c != 0.0
    ensures CentredSumOfSquares(AddScalar(MulScalar(c, y), d)) > 0.0
    ensures Sum(Squares(Residuals(x, AddScalar(MulScalar(c, y), d)))) / CentredSumOfSquares(AddScalar(MulScalar(c, y), d))
      == Sum(Squares(Residuals(x, y))) / CentredSumOfSquares(y)
  {
    SquarePositive(c, c * c);
    CentredSumOfSquaresScale(y, c, d, c * c);
    ScaleYResidualSquares(x, y, c, d, c * c);
    RatioScaled(Sum(Squares(Residuals(x, y))), CentredSumOfSquares(y),
      Sum(Squares(Residuals(x, AddScalar(MulScalar(c, y), d)))),
      CentredSumOfSquares(AddScalar(MulScalar(c, y), d)), c * c);
  }

  /** A successful fit passes through the centroid of the points. */
  lemma FitThroughCentroid(x: seq<real>, y: seq<real>, printInfo: bool)
    requires LinearFit(x, y, printInfo).Success?
    ensures |x| > 0
    ensures LinearFit(x, y, printInfo).value.slope * Mean(x) + LinearFit(x, y, printInfo).value.intercept == Mean(y)
  {
  }

  /** The report flag never changes what `linearFit` returns. */
  lemma PrintInfoIrrelevant(x: seq<real>, y: seq<real>)
    ensures LinearFit(x, y, true) == LinearFit(x, y, false)
  {
  }

  // ---------------------------------------------------------------------
  // Worked examples
  // ---------------------------------------------------------------------

  /** Five points on `y = 2x + 1`: the line comes back with all three variances zero. */
  lemma NoiselessExample()
    ensures LinearFit([0.0, 1.0, 2.0, 3.0, 4.0], [1.0, 3.0, 5.0, 7.0, 9.0], false)
      == Success(Fit(2.0, 1.0, 0.0, 0.0, 0.0))
  {
    var x, y := [0.0, 1.0, 2.0, 3.0, 4.0], [1.0, 3.0, 5.0, 7.0, 9.0];
    assert x[0] != x[1];
    ExactLineFit(x, y, 2.0, 1.0, false);
  }

  /**
    Two points already fix the slope and the intercept, even though
    `LinearFit` reports them as degenerate: the residual variance needs a
    third point.
   */
  lemma TwoPointsExample()
    ensures CentredSumOfSquares([0.0, 1.0]) > 0.0
    ensures Slope([0.0, 1.0], [0.0, 2.0]) == 2.0 && Intercept([0.0, 1.0], [0.0, 2.0]) == 0.0
    ensures LinearFit([0.0, 1.0], [0.0, 2.0], true) == Failure(Degenerate)
  {
    var x, y := [0.0, 1.0], [0.0, 2.0];
    assert x[0] != x[1];
    ExactLineRecovered(x, y, 2.0, 0.0);
  }

  /** Points with a single x value, or only two points, cannot be fitted. */
  lemma DegenerateExamples()
    ensures LinearFit([1.0, 1.0, 1.0], [1.0, 2.0, 3.0], false) == Failure(Degenerate)
    ensures LinearFit([0.0, 1.0], [0.0, 1.0], false) == Failure(Degenerate)
    ensures LinearFit([0.0, 1.0, 2.0], [0.0, 1.0], true) == Failure(LengthMismatch)
  {
    var x := [1.0, 1.0, 1.0];
    assert !Varies(x) by {
      forall i, j | 0 <= i < |x| && 0 <= j < |x|
        ensures x[i] == x[j]
      {
      }
    }
  }

  // ---------------------------------------------------------------------
  // Algebra on plain sequences
  // ---------------------------------------------------------------------

  /** The values `d*x + k`: the difference between two lines at each x. */
  function Affine(x: seq<real>, d: real, k: real): (g: seq<real>)
    ensures |g| == |x|
  {
    seq(|x|, i requires 0 <= i < |x| => d * x[i] + k)
  }

  /** Residuals of `(m, b)` are the fitted residuals plus the gap between the two lines. */
  lemma LineResidualsPerturbed(x: seq<real>, y: seq<real>, m: real, b: real, mf: real, bf: real, d: real, k: real)
    requires |x| == |y| && d == mf - m && k == bf - b
    ensures forall i :: 0 <= i < |x| ==>
      LineResiduals(x, y, m, b)[i] == LineResiduals(x, y, mf, bf)[i] + Affine(x, d, k)[i]
  {
    forall i | 0 <= i < |x|
      ensures LineResiduals(x, y, m, b)[i] == LineResiduals(x, y, mf, bf)[i] + Affine(x, d, k)[i]
    {
      LineGap(x[i], y[i], m, b, mf, bf, d, k);
    }
  }

  lemma LineGap(xi: real, yi: real, m: real, b: real, mf: real, bf: real, d: real, k: real)
    requires d == mf - m && k == bf - b
    ensures yi - (m * xi + b) == (yi - (mf * xi + bf)) + (d * xi + k)
  {
  }

  /** If `f = e + g` and both `e` and `f` balance, so does `g`. */
  lemma PerturbationSums(e: seq<real>, f: seq<real>, g: seq<real>, x: seq<real>)
    requires |f| == |e| && |g| == |e| && |x| == |e|
    requires forall i :: 0 <= i < |e| ==> f[i] == e[i] + g[i]
    requires Sum(e) == 0.0 && Sum(Times(e, x)) == 0.0
    requires Sum(f) == 0.0 && Sum(Times(f, x)) == 0.0
    ensures Sum(g) == 0.0 && Sum(Times(g, x)) == 0.0
  {
    SumAdd(f, e, g);
    ProductsAdd(e, f, g, x);
    SumAdd(Times(f, x), Times(e, x), Times(g, x));
  }

  lemma ProductsAdd(e: seq<real>, f: seq<real>, g: seq<real>, x: seq<real>)
    requires |f| == |e| && |g| == |e| && |x| == |e|
    requires forall i :: 0 <= i < |e| ==> f[i] == e[i] + g[i]
    ensures forall i :: 0 <= i < |e| ==> Times(f, x)[i] == Times(e, x)[i] + Times(g, x)[i]
  {
    var fx, ex, gx := Times(f, x), Times(e, x), Times(g, x);
    forall i | 0 <= i < |e|
      ensures fx[i] == ex[i] + gx[i]
    {
      AddProduct(e[i], g[i], f[i], x[i], ex[i], gx[i], fx[i]);
    }
  }

  /** The values of a line that balance (sum to zero, orthogonal to x) are all zero. */
  lemma AffineBalancedIsZero(g: seq<real>, x: seq<real>, d: real, k: real)
    requires g == Affine(x, d, k)
    requires Sum(g) == 0.0 && Sum(Times(g, x)) == 0.0
    ensures forall i :: 0 <= i < |g| ==> g[i] == 0.0
  {
    AffineSquares(g, x, d, k);
    SumAddScaled(Squares(g), MulScalar(d, Times(g, x)), g, k);
    SumMulScalar(d, Times(g, x));
    SquaresVanish(g);
  }

  lemma AffineSquares(g: seq<real>, x: seq<real>, d: real, k: real)
    requires g == Affine(x, d, k)
    ensures forall i :: 0 <= i < |g| ==> Squares(g)[i] == MulScalar(d, Times(g, x))[i] + k * g[i]
  {
    var gg, gx := Squares(g), Times(g, x);
    var h := MulScalar(d, gx);
    forall i | 0 <= i < |g|
      ensures gg[i] == h[i] + k * g[i]
    {
      AffineSquare(g[i], x[i], d, k, gg[i], gx[i], h[i]);
    }
  }

  /** Sequences whose squares sum to zero are zero. */
  lemma SquaresVanish(g: seq<real>)
    requires Sum(Squares(g)) == 0.0
    ensures forall i :: 0 <= i < |g| ==> g[i] == 0.0
  {
    SquaresNonNegative(g);
    SumZeroIffAllZero(Squares(g));
    forall i | 0 <= i < |g|
      ensures g[i] == 0.0
    {
      ZeroSquare(g[i], Squares(g)[i]);
    }
  }

  /** A line that vanishes at two different x is the zero line. */
  lemma AffineZero(x: seq<real>, d: real, k: real)
    requires Varies(x)
    requires forall i :: 0 <= i < |x| ==> Affine(x, d, k)[i] == 0.0
    ensures d == 0.0 && k == 0.0
  {
    var i, j :| 0 <= i < |x| && 0 <= j < |x| && x[i] != x[j];
    assert Affine(x, d, k)[i] == 0.0 && Affine(x, d, k)[j] == 0.0;
    var p := d * (x[i] - x[j]);
    assert p == 0.0;
    ZeroProduct(d, x[i] - x[j], p);
  }

  /** Residuals that balance are orthogonal to the values of any line. */
  lemma AffineOrthogonal(e: seq<real>, x: seq<real>, d: real, k: real)
    requires |x| == |e|
    requires Sum(e) == 0.0 && Sum(Times(e, x)) == 0.0
    ensures Sum(Times(e, Affine(x, d, k))) == 0.0
  {
    AffineProducts(e, x, d, k);
    SumAddScaled(Times(e, Affine(x, d, k)), MulScalar(d, Times(e, x)), e, k);
    SumMulScalar(d, Times(e, x));
  }

  lemma AffineProducts(e: seq<real>, x: seq<real>, d: real, k: real)
    requires |x| == |e|
    ensures forall i :: 0 <= i < |e| ==>
      Times(e, Affine(x, d, k))[i] == MulScalar(d, Times(e, x))[i] + k * e[i]
  {
    var g := Affine(x, d, k);
    var eg, ex := Times(e, g), Times(e, x);
    var h := MulScalar(d, ex);
    forall i | 0 <= i < |e|
      ensures eg[i] == h[i] + k * e[i]
    {
      AffineProduct(e[i], x[i], d, k, g[i], eg[i], ex[i], h[i]);
    }
  }

  /** With `f = e + g` and `e` orthogonal to `g`, `sum(f**2) = sum(e**2) + sum(g**2)`. */
  lemma SumOfSquaresSplit(e: seq<real>, f: seq<real>, g: seq<real>)
    requires |f| == |e| && |g| == |e|
    requires forall i :: 0 <= i < |e| ==> f[i] == e[i] + g[i]
    requires Sum(Times(e, g)) == 0.0
    ensures Sum(Squares(f)) == Sum(Squares(e)) + Sum(Squares(g))
  {
    var ff, ee, gg, eg := Squares(f), Squares(e), Squares(g), Times(e, g);
    var w := seq(|e|, i requires 0 <= i < |e| => ee[i] + gg[i]);
    forall i | 0 <= i < |e|
      ensures ff[i] == w[i] + 2.0 * eg[i]
    {
      SquareOfSum(e[i], g[i], f[i], ee[i], gg[i], eg[i], ff[i]);
    }
    SumAddScaled(ff, w, eg, 2.0);
    SumAdd(w, ee, gg);
  }

  /** A line with nonzero slope through points whose x vary has y that vary. */
  lemma LineVaries(x: seq<real>, y: seq<real>, m: real, b: real)
    requires |x| == |y| && Varies(x) && m != 0.0
    requires forall i :: 0 <= i < |x| ==> y[i] == m * x[i] + b
    ensures Varies(y)
  {
    var i, j :| 0 <= i < |x| && 0 <= j < |x| && x[i] != x[j];
    var p := m * (x[i] - x[j]);
    NonZeroProduct(m, x[i] - x[j], p);
    assert y[i] - y[j] == p;
  }

  lemma ShiftVaries(x: seq<real>, k: real)
    requires Varies(x)
    ensures Varies(AddScalar(x, k))
  {
    var i, j :| 0 <= i < |x| && 0 <= j < |x| && x[i] != x[j];
    assert AddScalar(x, k)[i] != AddScalar(x, k)[j];
  }

  /** Shifting x shifts its mean and leaves its deviations, hence `variancex`, unchanged. */
  lemma CentredShift(x: seq<real>, k: real)
    requires |x| > 0
    ensures Mean(AddScalar(x, k)) == Mean(x) + k
    ensures SubScalar(AddScalar(x, k), Mean(AddScalar(x, k))) == SubScalar(x, Mean(x))
    ensures CentredSumOfSquares(AddScalar(x, k)) == CentredSumOfSquares(x)
  {
    MeanShift(x, AddScalar(x, k), k);
  }

  lemma ShiftedLineResiduals(x: seq<real>, y: seq<real>, k: real, m: real, b: real, bs: real)
    requires |x| == |y| && bs == b - k * m
    ensures LineResiduals(AddScalar(x, k), y, m, bs) == LineResiduals(x, y, m, b)
  {
    var xs := AddScalar(x, k);
    forall i | 0 <= i < |x|
      ensures LineResiduals(xs, y, m, bs)[i] == LineResiduals(x, y, m, b)[i]
    {
      assert LineResiduals(xs, y, m, bs)[i] == y[i] - (m * xs[i] + bs);
      assert LineResiduals(x, y, m, b)[i] == y[i] - (m * x[i] + b);
      ShiftedLine(x[i], xs[i], y[i], k, m, b, bs);
    }
  }

  lemma ShiftedLine(xi: real, xsi: real, yi: real, k: real, m: real, b: real, bs: real)
    requires xsi == xi + k && bs == b - k * m
    ensures yi - (m * xsi + bs) == yi - (m * xi + b)
  {
  }

  /** Residuals that balance against x balance against `x + k`. */
  lemma OrthogonalAfterShift(e: seq<real>, x: seq<real>, k: real)
    requires |x| == |e|
    requires Sum(e) == 0.0 && Sum(Times(e, x)) == 0.0
    ensures Sum(Times(e, AddScalar(x, k))) == 0.0
  {
    AffineOrthogonal(e, x, 1.0, k);
    assert Affine(x, 1.0, k) == AddScalar(x, k);
  }

  lemma ScaledLineResiduals(x: seq<real>, y: seq<real>, c: real, d: real, m: real, b: real, cm: real, cb: real)
    requires |x| == |y| && cm == c * m && cb == c * b + d
    ensures LineResiduals(x, AddScalar(MulScalar(c, y), d), cm, cb) == MulScalar(c, LineResiduals(x, y, m, b))
  {
    var ys := AddScalar(MulScalar(c, y), d);
    forall i | 0 <= i < |x|
      ensures LineResiduals(x, ys, cm, cb)[i] == MulScalar(c, LineResiduals(x, y, m, b))[i]
    {
      ScaledLine(x[i], y[i], c, d, m, b, cm, cb);
    }
  }

  lemma ScaledLine(xi: real, yi: real, c: real, d: real, m: real, b: real, cm: real, cb: real)
    requires cm == c * m && cb == c * b + d
    ensures (c * yi + d) - (cm * xi + cb) == c * (yi - (m * xi + b))
  {
  }

  /** For `r = c*e`: `sum(r**2) = c*c*sum(e**2)`. */
  lemma ScaledSquares(r: seq<real>, e: seq<real>, c: real, cc: real)
    requires r == MulScalar(c, e) && cc == c * c
    ensures Sum(Squares(r)) == cc * Sum(Squares(e))
  {
    ScaledSquareTerms(r, e, c, cc);
    SumScale(Squares(r), Squares(e), cc);
  }

  lemma ScaledSquareTerms(r: seq<real>, e: seq<real>, c: real, cc: real)
    requires r == MulScalar(c, e) && cc == c * c
    ensures IsScaled(Squares(r), Squares(e), cc)
  {
    forall i | 0 <= i < |e|
      ensures Squares(r)[i] == cc * Squares(e)[i]
    {
      ScaledSquare(c, e[i], cc, r[i], Squares(r)[i], Squares(e)[i]);
    }
  }

  lemma ScaledQuotient(s: real, t: real, cc: real, n: real)
    requires n > 0.0 && s == cc * t
    ensures s / n == cc * (t / n)
  {
  }

  /** Scaling every element by `c` scales the mean by `c`. */
  lemma MeanScale(s: seq<real>, c: real)
    requires |s| > 0
    ensures Mean(MulScalar(c, s)) == c * Mean(s)
  {
    SumMulScalar(c, s);
    ScaledQuotient(Sum(MulScalar(c, s)), Sum(s), c, |s| as real);
  }

  /** Mapping y to `c*y + d` multiplies its deviations from the mean by `c`. */
  lemma CentredScale(y: seq<real>, c: real, d: real)
    requires |y| > 0
    ensures Mean(AddScalar(MulScalar(c, y), d)) == c * Mean(y) + d
    ensures SubScalar(AddScalar(MulScalar(c, y), d), Mean(AddScalar(MulScalar(c, y), d)))
      == MulScalar(c, SubScalar(y, Mean(y)))
  {
    var cy := MulScalar(c, y);
    var ys := AddScalar(cy, d);
    MeanScale(y, c);
    MeanShift(cy, ys, d);
    var my, ms := Mean(y), Mean(ys);
    forall i | 0 <= i < |y|
      ensures SubScalar(ys, ms)[i] == MulScalar(c, SubScalar(y, my))[i]
    {
      ScaledDeviation(y[i], c, d, my, ms);
    }
  }

  lemma ScaledDeviation(yi: real, c: real, d: real, my: real, ms: real)
    requires ms == c * my + d
    ensures (c * yi + d) - ms == c * (yi - my)
  {
  }

  /** Mapping y to `c*y + d` multiplies `variancey` by `c*c`. */
  lemma CentredSumOfSquaresScale(y: seq<real>, c: real, d: real, cc: real)
    requires |y| > 0 && cc == c * c
    ensures CentredSumOfSquares(AddScalar(MulScalar(c, y), d)) == cc * CentredSumOfSquares(y)
  {
    CentredScale(y, c, d);
    ScaledSquares(SubScalar(AddScalar(MulScalar(c, y), d), Mean(AddScalar(MulScalar(c, y), d))), SubScalar(y, Mean(y)), c, cc);
  }

  /** Two ratios whose numerators and denominators are scaled alike are equal. */
  lemma RatioScaled(s: real, v: real, s2: real, v2: real, cc: real)
    requires cc > 0.0 && v > 0.0 && s2 == cc * s && v2 == cc * v
    ensures v2 > 0.0
    ensures s2 / v2 == s / v
  {
    MulPositive(cc, v, v2);
    var q, r := s2 / v2, s / v;
    assert q * v2 == s2;
    assert r * v == s;
    assert q * (cc * v) == cc * (r * v);
    MulRight(q, r, cc * v);
  }

  lemma MulRight(a: real, b: real, w: real)
    requires w != 0.0 && a * w == b * w
    ensures a == b
  {
    var p := (a - b) * w;
    assert p == 0.0;
    ZeroProduct(a - b, w, p);
  }

  /** Scaling balanced residuals keeps them balanced. */
  lemma ScaledBalanced(e: seq<real>, x: seq<real>, c: real)
    requires |x| == |e|
    requires Sum(e) == 0.0 && Sum(Times(e, x)) == 0.0
    ensures Sum(MulScalar(c, e)) == 0.0 && Sum(Times(MulScalar(c, e), x)) == 0.0
  {
    SumMulScalar(c, e);
    ScaledProducts(e, x, c);
    SumScale(Times(MulScalar(c, e), x), Times(e, x), c);
  }

  lemma ScaledProducts(e: seq<real>, x: seq<real>, c: real)
    requires |x| == |e|
    ensures forall i :: 0 <= i < |e| ==> Times(MulScalar(c, e), x)[i] == c * Times(e, x)[i]
  {
    var ce, cex := MulScalar(c, e), Times(MulScalar(c, e), x);
    forall i | 0 <= i < |e|
      ensures cex[i] == c * Times(e, x)[i]
    {
      ScaledProduct(c, e[i], x[i], ce[i], cex[i], Times(e, x)[i]);
    }
  }

  // ---------------------------------------------------------------------
  // Arithmetic on single reals, each with its products as plain arguments
  // ---------------------------------------------------------------------

  lemma AddProduct(e: real, g: real, f: real, x: real, ex: real, gx: real, fx: real)
    requires f == e + g && ex == e * x && gx == g * x && fx == f * x
    ensures fx == ex + gx
  {
  }

  lemma AffineSquare(g: real, x: real, d: real, k: real, gg: real, gx: real, h: real)
    requires g == d * x + k && gg == g * g && gx == g * x && h == d * gx
    ensures gg == h + k * g
  {
  }

  lemma AffineProduct(e: real, x: real, d: real, k: real, g: real, eg: real, ex: real, h: real)
    requires g == d * x + k && eg == e * g && ex == e * x && h == d * ex
    ensures eg == h + k * e
  {
  }

  lemma SquareOfSum(e: real, g: real, f: real, ee: real, gg: real, eg: real, ff: real)
    requires f == e + g && ee == e * e && gg == g * g && eg == e * g && ff == f * f
    ensures ff == (ee + gg) + 2.0 * eg
  {
  }

  lemma ScaledProduct(c: real, e: real, x: real, ce: real, cex: real, ex: real)
    requires ce == c * e && cex == ce * x && ex == e * x
    ensures cex == c * ex
  {
  }

  lemma ScaledSquare(c: real, e: real, cc: real, ce: real, p: real, q: real)
    requires cc == c * c && ce == c * e && p == ce * ce && q == e * e
    ensures p == cc * q
  {
  }

  lemma ZeroProduct(a: real, b: real, p: real)
    requires b != 0.0 && p == a * b && p == 0.0
    ensures a == 0.0
  {
    if a != 0.0 {
      NonZeroProduct(a, b, p);
    }
  }

  lemma NonZeroProduct(a: real, b: real, p: real)
    requires a != 0.0 && b != 0.0 && p == a * b
    ensures p != 0.0
  {
    if a > 0.0 && b > 0.0 {
      MulPositive(a, b, p);
    } else if a < 0.0 && b < 0.0 {
      MulPositive(-a, -b, p);
    } else if a > 0.0 {
      MulPositive(a, -b, -p);
    } else {
      MulPositive(-a, b, -p);
    }
  }
}
