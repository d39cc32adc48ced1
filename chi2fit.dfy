/**
  `linearFit` of chi2fit.py: the closed-form ordinary least-squares fit of a
  straight line `y = slope*x + intercept` to paired samples, with the
  residual variance on N-2 degrees of freedom and the variances of the slope
  and the intercept that follow from it.

  Every quantity is a function over `seq<real>`, named after the variable of
  the source that holds it, and computed the way the source computes it (a
  NumPy expression becomes the `Vector` operation of the same shape). The
  arithmetic is exact. The source has no guard of its own: with no points
  its first division raises, with all x equal or fewer than three points
  NumPy's division by zero gives nan or inf. The functions below have a
  precondition in those cases and `LinearFit` reports `Degenerate`.
 */
module Chi2Fit {
  import opened Vector

  datatype Result<T, E> = Success(value: T) | Failure(error: E)

  datatype FitError =
    | LengthMismatch  // x and y differ in length: the source raises before computing anything
    | Degenerate      // fewer than three points, or all x equal: a division by zero in the source

  /**
    What `linearFit` returns, with each standard error kept as the variance it
    is the square root of (see `IsStandardError`).
   */
  datatype Fit = Fit(
    slope: real,
    intercept: real,
    slopeVariance: real,
    interceptVariance: real,
    yVariance: real)

  /** `variancex` and `variancey`: the sum of squared deviations from the mean. */
  function CentredSumOfSquares(s: seq<real>): (v: real)
    requires |s| > 0
    ensures v >= 0.0
    ensures v > 0.0 <==> Varies(s)
  {
    CentredSquaresPositiveIffVaries(s);
    Sum(Squares(SubScalar(s, Mean(s))))
  }

  /** `covariance`: the sum of products of the deviations of x and y from their means. */
  function Covariance(x: seq<real>, y: seq<real>): real
    requires |x| == |y| > 0
  {
    Sum(Times(SubScalar(x, Mean(x)), SubScalar(y, Mean(y))))
  }

  /** The covariance of a sample with itself is its centred sum of squares. */
  lemma CovarianceSelf(x: seq<real>)
    requires |x| > 0
    ensures Covariance(x, x) == CentredSumOfSquares(x)
  {
  }

  /**
    The covariance is bounded by the variances (Cauchy-Schwarz), which
    equivalently bounds `r2` by 1.
   */
  lemma CovarianceBounded(x: seq<real>, y: seq<real>)
    requires |x| == |y| > 0
    ensures Covariance(x, y) * Covariance(x, y) <= CentredSumOfSquares(x) * CentredSumOfSquares(y)
  {
    CauchySchwarz(SubScalar(x, Mean(x)), SubScalar(y, Mean(y)));
  }

  /** `slope = covariance / variancex`. */
  function Slope(x: seq<real>, y: seq<real>): real
    requires |x| == |y| > 0 && CentredSumOfSquares(x) > 0.0
  {
    Covariance(x, y) / CentredSumOfSquares(x)
  }

  /** The slope has the sign of the covariance. */
  lemma SlopeSign(x: seq<real>, y: seq<real>)
    requires |x| == |y| > 0 && CentredSumOfSquares(x) > 0.0
    ensures Slope(x, y) > 0.0 <==> Covariance(x, y) > 0.0
    ensures Slope(x, y) == 0.0 <==> Covariance(x, y) == 0.0
  {
  }

  /** `slope**2 * variancex` never exceeds `variancey`: the fitted line explains at most all of y's variation. */
  lemma SlopeBounded(x: seq<real>, y: seq<real>)
    requires |x| == |y| > 0 && CentredSumOfSquares(x) > 0.0
    ensures Slope(x, y) * Slope(x, y) * CentredSumOfSquares(x) <= CentredSumOfSquares(y)
  {
    CovarianceBounded(x, y);
    QuotientBounded(Covariance(x, y), CentredSumOfSquares(x), CentredSumOfSquares(y));
  }

  /** `(c/v)**2 * v <= w` whenever `c*c <= v*w` and `v > 0`. */
  lemma QuotientBounded(c: real, v: real, w: real)
    requires v > 0.0 && c * c <= v * w
    ensures c / v * (c / v) * v <= w
  {
    var q := c / v;
    assert q * v == c;
    assert q * q * v * v == c * c;
    if q * q * v > w {
      MulStrict(q * q * v, w, v);
      assert false;
    }
  }

  /** Multiplying both sides of a strict inequality by a positive number keeps it. */
  lemma MulStrict(a: real, b: real, v: real)
    requires a > b && v > 0.0
    ensures a * v > b * v
  {
    MulPositive(a - b, v, (a - b) * v);
  }

  /** `intercept = meany - meanx*slope`: the fitted line passes through the centroid of the points. */
  function Intercept(x: seq<real>, y: seq<real>): (b: real)
    requires |x| == |y| > 0 && CentredSumOfSquares(x) > 0.0
    ensures Slope(x, y) * Mean(x) + b == Mean(y)
  {
    Mean(y) - Mean(x) * Slope(x, y)
  }

  /** `y - (m*x + b)`: how far each point lies above the line with slope m and intercept b. */
  function LineResiduals(x: seq<real>, y: seq<real>, m: real, b: real): seq<real>
    requires |x| == |y|
  {
    Minus(y, AddScalar(MulScalar(m, x), b))
  }

  /**
    `residuals`: the distances from the fitted line. They satisfy the two
    normal equations of least squares: they sum to zero, and they are
    orthogonal to x.
   */
  function Residuals(x: seq<real>, y: seq<real>): (r: seq<real>)
    requires |x| == |y| > 0 && CentredSumOfSquares(x) > 0.0
    ensures |r| == |x|
    ensures Sum(r) == 0.0
    ensures Sum(Times(r, x)) == 0.0
  {
    NormalEquations(x, y);
    LineResiduals(x, y, Slope(x, y), Intercept(x, y))
  }

  /**
    `yvariance = sum(residuals**2/(N-2))`: the unbiased estimate of the
    scatter of y about the line, the residual sum of squares over N-2.
   */
  function YVariance(x: seq<real>, y: seq<real>): (v: real)
    requires |x| == |y| >= 3 && CentredSumOfSquares(x) > 0.0
    ensures v >= 0.0
    ensures v == Sum(Squares(Residuals(x, y))) / (|x| - 2) as real
  {
    var r := Residuals(x, y);
    MeanSquare(r, (|x| - 2) as real);
    Sum(DivScalar(Squares(r), (|x| - 2) as real))
  }

  /** `yvariance` is zero exactly when every point lies on the fitted line. */
  lemma YVarianceZeroIff(x: seq<real>, y: seq<real>)
    requires |x| == |y| >= 3 && CentredSumOfSquares(x) > 0.0
    ensures YVariance(x, y) == 0.0 <==> forall i :: 0 <= i < |x| ==> Residuals(x, y)[i] == 0.0
  {
    MeanSquare(Residuals(x, y), (|x| - 2) as real);
  }

  /** `slopevariance = yvariance/variancex`. */
  function SlopeVariance(x: seq<real>, y: seq<real>): (v: real)
    requires |x| == |y| >= 3 && CentredSumOfSquares(x) > 0.0
    ensures v >= 0.0
  {
    DivNonNegative(YVariance(x, y), CentredSumOfSquares(x));
    YVariance(x, y) / CentredSumOfSquares(x)
  }

  /** `interceptvariance = slopevariance * sum(x**2/N)`: the slope variance times the mean of x squared. */
  function InterceptVariance(x: seq<real>, y: seq<real>): (v: real)
    requires |x| == |y| >= 3 && CentredSumOfSquares(x) > 0.0
    ensures v >= 0.0
    ensures v == SlopeVariance(x, y) * (Sum(Squares(x)) / |x| as real)
  {
    var n := |x| as real;
    SumDivScalar(Squares(x), n);
    SquaresNonNegative(x);
    SumNonNegative(Squares(x));
    DivNonNegative(Sum(Squares(x)), n);
    MulNonNegative(SlopeVariance(x, y), Sum(Squares(x)) / n, SlopeVariance(x, y) * (Sum(Squares(x)) / n));
    SlopeVariance(x, y) * Sum(DivScalar(Squares(x), n))
  }

  /**
    `r2 = covariance**2 / variancex / variancey`: the coefficient of
    determination, the share of the scatter of y that the line explains.
   */
  function RSquared(x: seq<real>, y: seq<real>): (r2: real)
    requires |x| == |y| > 0 && CentredSumOfSquares(x) > 0.0 && CentredSumOfSquares(y) > 0.0
    ensures 0.0 <= r2 <= 1.0
    ensures r2 == 1.0 - Sum(Squares(Residuals(x, y))) / CentredSumOfSquares(y)
  {
    var c, vx, vy := Covariance(x, y), CentredSumOfSquares(x), CentredSumOfSquares(y);
    ResidualSumOfSquares(x, y);
    SquaresNonNegative(Residuals(x, y));
    SumNonNegative(Squares(Residuals(x, y)));
    RSquaredBounds(c, vx, vy, Slope(x, y), Sum(Squares(Residuals(x, y))));
    c * c / vx / vy
  }

  /**
    `linearFit(x, y, printinfo)`: the length check, then the fit. The flag
    only switches the printed report, which is not modelled, so it has no
    part in the result.
   */
  function LinearFit(x: seq<real>, y: seq<real>, printInfo: bool): (r: Result<Fit, FitError>)
    ensures r == Failure(LengthMismatch) <==> |x| != |y|
    ensures r == Failure(Degenerate) <==> |x| == |y| && (|x| < 3 || !Varies(x))
    ensures r.Success? ==> |x| == |y| >= 3 && Varies(x)
    ensures r.Success? ==>
      && r.value.slopeVariance >= 0.0
      && r.value.interceptVariance >= 0.0
      && r.value.yVariance >= 0.0
  {
    if |x| != |y| then
      Failure(LengthMismatch)
    else if |x| < 3 || CentredSumOfSquares(x) == 0.0 then
      Failure(Degenerate)
    else
      Success(Fit(
        Slope(x, y),
        Intercept(x, y),
        SlopeVariance(x, y),
        InterceptVariance(x, y),
        YVariance(x, y)))
  }

  /** `e` is a standard error for the variance `v`: its non-negative square root. */
  predicate IsStandardError(e: real, v: real)
  {
    e >= 0.0 && e * e == v
  }

  /** A variance has at most one standard error, so the errors returned are fixed by the variances in `Fit`. */
  lemma StandardErrorUnique(e1: real, e2: real, v: real)
    requires IsStandardError(e1, v) && IsStandardError(e2, v)
    ensures e1 == e2
  {
    if e1 < e2 {
      SquareIncreasing(e1, e2, v, v);
    } else if e2 < e1 {
      SquareIncreasing(e2, e1, v, v);
    }
  }

  // ---------------------------------------------------------------------
  // Proofs behind the contracts above
  // ---------------------------------------------------------------------

  /** `e == dy - m*dx` pointwise: the residuals of slope `m`, written in deviations from the means. */
  predicate IsLineResiduals(e: seq<real>, dx: seq<real>, dy: seq<real>, m: real)
  {
    IsScaledDifference(e, dy, dx, m)
  }

  /** With `b = my - mx*m`, the residual `y - (m*x + b)` is `(y - my) - m*(x - mx)`. */
  lemma ResidualsAsDeviations(x: seq<real>, y: seq<real>, mx: real, my: real, m: real, b: real)
    requires |x| == |y|
    requires b == my - mx * m
    ensures |LineResiduals(x, y, m, b)| == |x|
    ensures IsLineResiduals(LineResiduals(x, y, m, b), SubScalar(x, mx), SubScalar(y, my), m)
  {
    var e, dx, dy := LineResiduals(x, y, m, b), SubScalar(x, mx), SubScalar(y, my);
    forall i | 0 <= i < |x|
      ensures e[i] == dy[i] - m * dx[i]
    {
      Recentre(x[i], y[i], mx, my, m, b);
    }
  }

  /** Deviations sum to zero, so residuals do: the first normal equation. */
  lemma ResidualsSumZero(e: seq<real>, dx: seq<real>, dy: seq<real>, m: real)
    requires IsLineResiduals(e, dx, dy, m)
    requires Sum(dx) == 0.0 && Sum(dy) == 0.0
    ensures Sum(e) == 0.0
  {
    SumSubScaled(e, dy, dx, m);
  }

  /** With `m = c/v` for `c = sum(dx*dy)` and `v = sum(dx**2)`, the residuals are orthogonal to `dx`. */
  lemma ResidualsOrthogonal(e: seq<real>, dx: seq<real>, dy: seq<real>, m: real, c: real, v: real)
    requires IsLineResiduals(e, dx, dy, m)
    requires c == Sum(Times(dx, dy)) && v == Sum(Squares(dx)) && v > 0.0 && m == c / v
    ensures Sum(Times(e, dx)) == 0.0
  {
    ResidualTimesDeviation(e, dx, dy, m, Sum(Times(e, dx)), c, v);
    SlopeTimesVariance(c, v, m);
  }

  /** `sum(e*dx) == sum(dx*dy) - m*sum(dx**2)`, each sum passed in as a plain argument. */
  lemma ResidualTimesDeviation(e: seq<real>, dx: seq<real>, dy: seq<real>, m: real, sedx: real, sdxy: real, sdxx: real)
    requires IsLineResiduals(e, dx, dy, m)
    requires sedx == Sum(Times(e, dx)) && sdxy == Sum(Times(dx, dy)) && sdxx == Sum(Squares(dx))
    ensures sedx == sdxy - m * sdxx
  {
    ResidualTimesDeviationTerms(e, dx, dy, m);
    SumSubScaled(Times(e, dx), Times(dx, dy), Squares(dx), m);
    ScaledDifference(sedx, sdxy, sdxx, m, Sum(Times(e, dx)), Sum(Times(dx, dy)), Sum(Squares(dx)));
  }

  lemma ResidualTimesDeviationTerms(e: seq<real>, dx: seq<real>, dy: seq<real>, m: real)
    requires IsLineResiduals(e, dx, dy, m)
    ensures IsScaledDifference(Times(e, dx), Times(dx, dy), Squares(dx), m)
  {
    forall i | 0 <= i < |e|
      ensures Times(e, dx)[i] == Times(dx, dy)[i] - m * Squares(dx)[i]
    {
      ResidualTimesDeviationTerm(e[i], dx[i], dy[i], m, Times(e, dx)[i], Times(dx, dy)[i], Squares(dx)[i]);
    }
  }

  /** Residuals summing to zero and orthogonal to `x - mx` are orthogonal to `x`: the second normal equation. */
  lemma OrthogonalToShifted(e: seq<real>, x: seq<real>, dx: seq<real>, mx: real)
    requires |x| == |e| && |dx| == |e|
    requires forall i :: 0 <= i < |e| ==> dx[i] == x[i] - mx
    requires Sum(e) == 0.0 && Sum(Times(e, dx)) == 0.0
    ensures Sum(Times(e, x)) == 0.0
  {
    ShiftedProducts(e, x, dx, mx);
    SumAddScaled(Times(e, x), Times(e, dx), e, mx);
  }

  lemma ShiftedProducts(e: seq<real>, x: seq<real>, dx: seq<real>, mx: real)
    requires |x| == |e| && |dx| == |e|
    requires forall i :: 0 <= i < |e| ==> dx[i] == x[i] - mx
    ensures forall i :: 0 <= i < |e| ==> Times(e, x)[i] == Times(e, dx)[i] + mx * e[i]
  {
    var ex, edx := Times(e, x), Times(e, dx);
    forall i | 0 <= i < |e|
      ensures ex[i] == edx[i] + mx * e[i]
    {
      ShiftProduct(e[i], x[i], dx[i], mx, ex[i], edx[i]);
    }
  }

  /** The residual sum of squares `sse` is `vy - m*c` for `vy = sum(dy**2)` and `c = sum(dx*dy)`. */
  lemma ResidualSquares(e: seq<real>, dx: seq<real>, dy: seq<real>, m: real, sse: real, vy: real, c: real)
    requires IsLineResiduals(e, dx, dy, m)
    requires Sum(Times(e, dx)) == 0.0
    requires sse == Sum(Squares(e)) && vy == Sum(Squares(dy)) && c == Sum(Times(dx, dy))
    ensures sse == vy - m * c
  {
    ResidualSquaresExpanded(e, dx, dy, m, sse, Sum(Times(e, dy)), Sum(Times(e, dx)));
    ResidualTimesOutcome(e, dx, dy, m, Sum(Times(e, dy)), vy, c);
    OrthogonalRemainder(sse, Sum(Times(e, dy)), Sum(Times(e, dx)), vy, c, m);
  }

  /** `sum(e**2) == sum(e*dy) - m*sum(e*dx)`, each sum passed in as a plain argument. */
  lemma ResidualSquaresExpanded(e: seq<real>, dx: seq<real>, dy: seq<real>, m: real, see: real, sedy: real, sedx: real)
    requires IsLineResiduals(e, dx, dy, m)
    requires see == Sum(Squares(e)) && sedy == Sum(Times(e, dy)) && sedx == Sum(Times(e, dx))
    ensures see == sedy - m * sedx
  {
    ResidualSquareTerms(e, dx, dy, m);
    SumSubScaled(Squares(e), Times(e, dy), Times(e, dx), m);
    ScaledDifference(see, sedy, sedx, m, Sum(Squares(e)), Sum(Times(e, dy)), Sum(Times(e, dx)));
  }

  lemma ResidualSquareTerms(e: seq<real>, dx: seq<real>, dy: seq<real>, m: real)
    requires IsLineResiduals(e, dx, dy, m)
    ensures IsScaledDifference(Squares(e), Times(e, dy), Times(e, dx), m)
  {
    forall i | 0 <= i < |e|
      ensures Squares(e)[i] == Times(e, dy)[i] - m * Times(e, dx)[i]
    {
      ResidualSquareTerm(e[i], dx[i], dy[i], m, Squares(e)[i], Times(e, dy)[i], Times(e, dx)[i]);
    }
  }

  /** `sum(e*dy) == sum(dy**2) - m*sum(dx*dy)`, each sum passed in as a plain argument. */
  lemma ResidualTimesOutcome(e: seq<real>, dx: seq<real>, dy: seq<real>, m: real, sedy: real, sdyy: real, sdxy: real)
    requires IsLineResiduals(e, dx, dy, m)
    requires sedy == Sum(Times(e, dy)) && sdyy == Sum(Squares(dy)) && sdxy == Sum(Times(dx, dy))
    ensures sedy == sdyy - m * sdxy
  {
    ResidualTimesOutcomeTerms(e, dx, dy, m);
    SumSubScaled(Times(e, dy), Squares(dy), Times(dx, dy), m);
    ScaledDifference(sedy, sdyy, sdxy, m, Sum(Times(e, dy)), Sum(Squares(dy)), Sum(Times(dx, dy)));
  }

  lemma ResidualTimesOutcomeTerms(e: seq<real>, dx: seq<real>, dy: seq<real>, m: real)
    requires IsLineResiduals(e, dx, dy, m)
    ensures IsScaledDifference(Times(e, dy), Squares(dy), Times(dx, dy), m)
  {
    forall i | 0 <= i < |e|
      ensures Times(e, dy)[i] == Squares(dy)[i] - m * Times(dx, dy)[i]
    {
      ResidualTimesOutcomeTerm(e[i], dx[i], dy[i], m, Times(e, dy)[i], Squares(dy)[i], Times(dx, dy)[i]);
    }
  }

  /** The normal equations for the fitted line of `x` and `y`. */
  lemma NormalEquations(x: seq<real>, y: seq<real>)
    requires |x| == |y| > 0 && CentredSumOfSquares(x) > 0.0
    ensures Sum(LineResiduals(x, y, Slope(x, y), Intercept(x, y))) == 0.0
    ensures Sum(Times(LineResiduals(x, y, Slope(x, y), Intercept(x, y)), x)) == 0.0
  {
    var m := Slope(x, y);
    var dx, dy := SubScalar(x, Mean(x)), SubScalar(y, Mean(y));
    var e := LineResiduals(x, y, m, Intercept(x, y));
    FittedResiduals(x, y);
    CentredSumZero(x);
    CentredSumZero(y);
    SlopeAndIntercept(x, y);
    ResidualsSumZero(e, dx, dy, m);
    ResidualsOrthogonal(e, dx, dy, m, Covariance(x, y), CentredSumOfSquares(x));
    OrthogonalToShifted(e, x, dx, Mean(x));
  }

  /** The residuals of the fitted line are `dy - slope*dx`, in deviations from the means. */
  lemma FittedResiduals(x: seq<real>, y: seq<real>)
    requires |x| == |y| > 0 && CentredSumOfSquares(x) > 0.0
    ensures |LineResiduals(x, y, Slope(x, y), Intercept(x, y))| == |x|
    ensures IsLineResiduals(LineResiduals(x, y, Slope(x, y), Intercept(x, y)),
      SubScalar(x, Mean(x)), SubScalar(y, Mean(y)), Slope(x, y))
  {
    ResidualsAsDeviations(x, y, Mean(x), Mean(y), Slope(x, y), Intercept(x, y));
  }

  lemma SlopeAndIntercept(x: seq<real>, y: seq<real>)
    requires |x| == |y| > 0 && CentredSumOfSquares(x) > 0.0
    ensures Slope(x, y) ==
      Sum(Times(SubScalar(x, Mean(x)), SubScalar(y, Mean(y)))) / Sum(Squares(SubScalar(x, Mean(x))))
    ensures Intercept(x, y) == Mean(y) - Mean(x) * Slope(x, y)
    ensures Covariance(x, y) == Sum(Times(SubScalar(x, Mean(x)), SubScalar(y, Mean(y))))
    ensures CentredSumOfSquares(x) == Sum(Squares(SubScalar(x, Mean(x))))
    ensures CentredSumOfSquares(y) == Sum(Squares(SubScalar(y, Mean(y))))
  {
  }

  lemma ResidualsOfFit(x: seq<real>, y: seq<real>)
    requires |x| == |y| > 0 && CentredSumOfSquares(x) > 0.0
    ensures Residuals(x, y) == LineResiduals(x, y, Slope(x, y), Intercept(x, y))
  {
  }

  /** The residual sum of squares is `variancey - slope*covariance`. */
  lemma ResidualSumOfSquares(x: seq<real>, y: seq<real>)
    requires |x| == |y| > 0 && CentredSumOfSquares(x) > 0.0
    ensures Sum(Squares(Residuals(x, y))) == CentredSumOfSquares(y) - Slope(x, y) * Covariance(x, y)
  {
    var m := Slope(x, y);
    var e, dx, dy := LineResiduals(x, y, m, Intercept(x, y)), SubScalar(x, Mean(x)), SubScalar(y, Mean(y));
    ResidualsOfFit(x, y);
    FittedResiduals(x, y);
    SlopeAndIntercept(x, y);
    ResidualsOrthogonal(e, dx, dy, m, Covariance(x, y), CentredSumOfSquares(x));
    ResidualSquares(e, dx, dy, m, Sum(Squares(Residuals(x, y))), CentredSumOfSquares(y), Covariance(x, y));
  }

  // ---------------------------------------------------------------------
  // Arithmetic on single reals, each with its products as plain arguments
  // ---------------------------------------------------------------------

  lemma ShiftProduct(ei: real, xi: real, dxi: real, mx: real, p: real, q: real)
    requires dxi == xi - mx && p == ei * xi && q == ei * dxi
    ensures p == q + mx * ei
  {
  }

  lemma Recentre(xi: real, yi: real, mx: real, my: real, m: real, b: real)
    requires b == my - mx * m
    ensures yi - (m * xi + b) == (yi - my) - m * (xi - mx)
  {
  }

  /** For `e == dy - m*dx`: `e*dx == dx*dy - m*dx*dx`. */
  lemma ResidualTimesDeviationTerm(e: real, dx: real, dy: real, m: real, edx: real, dxy: real, dxx: real)
    requires e == dy - m * dx && edx == e * dx && dxy == dx * dy && dxx == dx * dx
    ensures edx == dxy - m * dxx
  {
  }

  /** For `e == dy - m*dx`: `e*e == e*dy - m*e*dx`. */
  lemma ResidualSquareTerm(e: real, dx: real, dy: real, m: real, ee: real, edy: real, edx: real)
    requires e == dy - m * dx && ee == e * e && edy == e * dy && edx == e * dx
    ensures ee == edy - m * edx
  {
  }

  /** For `e == dy - m*dx`: `e*dy == dy*dy - m*dx*dy`. */
  lemma ResidualTimesOutcomeTerm(e: real, dx: real, dy: real, m: real, edy: real, dyy: real, dxy: real)
    requires e == dy - m * dx && edy == e * dy && dyy == dy * dy && dxy == dx * dy
    ensures edy == dyy - m * dxy
  {
  }

  /** Equals substituted into `sa == sb - m*sc`. */
  lemma ScaledDifference(a: real, b: real, c: real, m: real, sa: real, sb: real, sc: real)
    requires a == sa && b == sb && c == sc && sa == sb - m * sc
    ensures a == b - m * c
  {
  }

  lemma OrthogonalRemainder(ee: real, edy: real, edx: real, dyy: real, dxy: real, m: real)
    requires ee == edy - m * edx && edx == 0.0 && edy == dyy - m * dxy
    ensures ee == dyy - m * dxy
  {
  }

  lemma SlopeTimesVariance(c: real, v: real, m: real)
    requires v > 0.0 && m == c / v
    ensures c - m * v == 0.0
  {
  }

  lemma DivNonNegative(a: real, b: real)
    requires a >= 0.0 && b > 0.0
    ensures a / b >= 0.0
  {
  }

  /** `sum(r**2/d)` for `d > 0` is `sum(r**2)/d`, never negative, and zero only when every `r` is. */
  lemma MeanSquare(r: seq<real>, d: real)
    requires d > 0.0
    ensures Sum(DivScalar(Squares(r), d)) >= 0.0
    ensures Sum(DivScalar(Squares(r), d)) == Sum(Squares(r)) / d
    ensures Sum(DivScalar(Squares(r), d)) == 0.0 <==> forall i :: 0 <= i < |r| ==> r[i] == 0.0
  {
    SumDivScalar(Squares(r), d);
    SquaresNonNegative(r);
    SumNonNegative(Squares(r));
    DivNonNegative(Sum(Squares(r)), d);
    SquaresSumZeroIff(r);
    DivZeroIff(Sum(Squares(r)), d);
  }

  /** A sum of squares is zero exactly when every term is zero. */
  lemma SquaresSumZeroIff(r: seq<real>)
    ensures Sum(Squares(r)) == 0.0 <==> forall i :: 0 <= i < |r| ==> r[i] == 0.0
  {
    if forall i :: 0 <= i < |r| ==> r[i] == 0.0 {
      assert forall i :: 0 <= i < |r| ==> Squares(r)[i] == 0.0;
      SumOfZeros(Squares(r));
    } else {
      var k :| 0 <= k < |r| && r[k] != 0.0;
      SquarePositive(r[k], Squares(r)[k]);
      SquaresNonNegative(r);
      SumPositive(Squares(r), k);
    }
  }

  lemma DivZeroIff(a: real, d: real)
    requires d > 0.0
    ensures a / d == 0.0 <==> a == 0.0
  {
  }

  /** With `m = c/vx`, `sse = vy - m*c` and `sse >= 0`: `0 <= c*c/vx/vy <= 1` and it equals `1 - sse/vy`. */
  lemma RSquaredBounds(c: real, vx: real, vy: real, m: real, sse: real)
    requires vx > 0.0 && vy > 0.0 && m == c / vx
    requires sse >= 0.0 && sse == vy - m * c
    ensures 0.0 <= c * c / vx / vy <= 1.0
    ensures c * c / vx / vy == 1.0 - sse / vy
  {
    var cc := c * c;
    SquareNonNegative(c, cc);
    DivNonNegative(cc, vx);
    var q := cc / vx;
    assert q == vy - sse;
    DivNonNegative(q, vy);
    DivNonNegative(sse, vy);
    DivDifference(vy, sse, vy);
    DivSelf(vy);
  }

  lemma DivDifference(a: real, s: real, v: real)
    requires v > 0.0
    ensures (a - s) / v == a / v - s / v
  {
  }

  lemma DivSelf(v: real)
    requires v > 0.0
    ensures v / v == 1.0
  {
  }

  lemma SquareIncreasing(a: real, b: real, aa: real, bb: real)
    requires 0.0 <= a < b && aa == a * a && bb == b * b
    ensures aa < bb
  {
    var q, r := a * (b - a), b * (b - a);
    MulNonNegative(a, b - a, q);
    MulPositive(b, b - a, r);
    assert q + r == bb - aa;
  }
}
