# chi2fit linear fit, in Dafny

This project models `linearFit` from `chi2fit.py`. It is the closed-form,
ordinary least-squares fit of a straight line `y = slope*x + intercept` to
paired samples. From the means of x and y it forms three centred sums:
`variancex`, `variancey` and `covariance`. From those it derives:

- the slope, the intercept and `r2`;
- the residuals;
- the residual variance `yvariance`, on N-2 degrees of freedom;
- the slope and intercept variances that follow from `yvariance`.

It returns the slope, the intercept and the three standard errors.

The model is made of pure functions over `seq<real>`, because the source is a
straight line of vectorised expressions with no loops and no mutable state.

- `vector.dfy` (module `Vector`): the NumPy element-wise operations the source
  uses, `sum` and `mean`, and general facts about sums. Among those facts are
  Cauchy–Schwarz and "the centred sum of squares is positive exactly when the
  values differ".
- `chi2fit.dfy` (module `Chi2Fit`): one function per quantity of `linearFit`,
  named after the variable that holds it, plus `LinearFit` itself.
- `fit_properties.dfy` (module `FitProperties`): facts that relate several
  fits:
  - the fitted line is the unique solution of the normal equations;
  - it minimises the residual sum of squares;
  - a noiseless line is recovered exactly;
  - how the fit moves when x is shifted or y is rescaled;
  - worked examples.

Arithmetic is exact (`real`). The source has no guard against degenerate
input, and it fails in different ways depending on the input:

- No points: `sum` at line 30 is Python's builtin, which gives the integer 0
  for an empty array. Line 34 then divides the integer 0 by 0 and raises
  `ZeroDivisionError`.
- All x equal, which includes a single point: in exact arithmetic
  `variancex` is zero, so `covariance/variancex` at line 34 is NumPy's `0/0`.
  That yields nan, and the nan spreads to every output. In floating point the
  mean of equal values can be off by one rounding step, and `variancex` is
  then a tiny positive number instead (see the rounding line under
  "## Left out").
- Exactly two points with different x: the slope and intercept at lines
  34-35 are finite. They describe the line through the two points. But
  `N-2` is zero, so every term of `yvariance` at line 39 is `0/0`, and
  `yvariance` and the three errors are nan.
- All y equal: `variancey` is zero, so `r2` at line 36 is nan. The returned
  tuple is not affected.

`LinearFit` reports the first three cases as `Failure(Degenerate)`. A length
mismatch is `Failure(LengthMismatch)`, where the source raises an exception.
`r2` is not part of the returned tuple, so `RSquared` simply requires
`variancey > 0`.

The standard errors at lines 44-46 are square roots. `Fit` holds the three
variances instead. `IsStandardError(e, v)` says that `e` is the non-negative
square root of `v`, and `StandardErrorUnique` shows that the variance fixes
it.

Two notes on what the code does, as opposed to what one might expect:

- Rescaling y by `c` scales the three errors by `|c|`, not by `c`, because
  each error is a square root. `StandardErrorScales` states this.
- On a noiseless line, `r2 == 1` only when the line is not flat. A flat line
  makes `variancey` zero, and the source's `r2` is then `0/0`.

## Model

| member | source | states |
|---|---|---|
| Chi2Fit.LinearFit | chi2fit.py:22-67 | fails with `LengthMismatch` exactly when `len(x) != len(y)`, and with `Degenerate` exactly when the lengths agree but there are fewer than three points or all x are equal; on success the inputs have equal length of at least 3 with varying x, and all three returned variances are non-negative |
| Chi2Fit.CentredSumOfSquares | chi2fit.py:30-31 | `variancex` (and `variancey`) is never negative, and is positive exactly when the values are not all equal |
| Chi2Fit.Covariance | chi2fit.py:32 | `covariance`; no contract of its own: `CovarianceSelf` and `CovarianceBounded` state its properties |
| Chi2Fit.CovarianceSelf | chi2fit.py:30-32 | the covariance of x with itself is `variancex` |
| Chi2Fit.CovarianceBounded | chi2fit.py:30-32 | `covariance**2 <= variancex * variancey` (Cauchy–Schwarz) |
| Chi2Fit.Slope | chi2fit.py:34 | `slope`; no contract of its own: `SlopeSign`, `SlopeBounded`, and in `FitProperties` `NormalEquationsCharacterise`, `LeastSquares`, `ShiftX`, `ScaleY` and `ExactLineRecovered` state its properties |
| Chi2Fit.SlopeSign | chi2fit.py:34 | the slope is positive exactly when the covariance is, and zero exactly when the covariance is |
| Chi2Fit.SlopeBounded | chi2fit.py:30-34 | `slope**2 * variancex <= variancey`: the fitted line accounts for at most all of y's variation |
| Chi2Fit.Intercept | chi2fit.py:28-35 | the fitted line passes through the centroid: `slope*meanx + intercept == meany` |
| Chi2Fit.Residuals | chi2fit.py:34-38 | the residuals have one entry per point, sum to zero, and are orthogonal to x (the two normal equations) |
| Chi2Fit.ResidualSumOfSquares | chi2fit.py:30-38 | the residual sum of squares is `variancey - slope*covariance` |
| Chi2Fit.YVariance | chi2fit.py:38-39 | `yvariance` is the residual sum of squares over `N-2` and is non-negative |
| Chi2Fit.YVarianceZeroIff | chi2fit.py:38-39 | `yvariance` is zero exactly when every residual is zero, that is, when every point lies on the fitted line |
| Chi2Fit.SlopeVariance | chi2fit.py:41 | `slopevariance` is non-negative |
| Chi2Fit.InterceptVariance | chi2fit.py:42 | `interceptvariance` is non-negative and equals `slopevariance` times the mean of `x**2` |
| Chi2Fit.RSquared | chi2fit.py:30-36 | `0 <= r2 <= 1`, and `r2 == 1 - (residual sum of squares)/variancey` |
| Chi2Fit.StandardErrorUnique | chi2fit.py:44-46 | a variance has only one non-negative square root, so the returned errors are determined by the variances |
| FitProperties.NormalEquationsCharacterise | chi2fit.py:34-38 | a line's residuals sum to zero and are orthogonal to x if and only if it is the fitted line |
| FitProperties.LeastSquares | chi2fit.py:34-38 | no line has a smaller residual sum of squares than the fitted line, and only the fitted line attains that minimum |
| FitProperties.ExactLineRecovered | chi2fit.py:30-39 | points exactly on `y = m*x + b` with varying x give `slope == m`, `intercept == b`, every residual 0, `yvariance == 0` when N >= 3, and `r2 == 1` when `m != 0` |
| FitProperties.ExactLineFit | chi2fit.py:22-67 | on such points with N >= 3, `linearFit` returns `(m, b)` with all three variances zero |
| FitProperties.ShiftX | chi2fit.py:28-35 | shifting every x by `k` leaves the slope unchanged and moves the intercept to `intercept - k*slope` |
| FitProperties.ShiftXResiduals | chi2fit.py:28-38 | shifting every x by `k` leaves every residual unchanged |
| FitProperties.ShiftXVariances | chi2fit.py:30-41 | shifting x leaves `variancex`, `yvariance` and `slopevariance` unchanged |
| FitProperties.ShiftXRSquared | chi2fit.py:36 | shifting x leaves `r2` unchanged |
| FitProperties.ScaleY | chi2fit.py:28-35 | replacing y by `c*y + d` multiplies the slope by `c` and maps the intercept to `c*intercept + d` |
| FitProperties.ScaleYResiduals | chi2fit.py:28-38 | replacing y by `c*y + d` multiplies every residual by `c` |
| FitProperties.ScaleYResidualSquares | chi2fit.py:38-39 | replacing y by `c*y + d` multiplies the residual sum of squares by `c*c` |
| FitProperties.ScaleYVariance | chi2fit.py:39 | replacing y by `c*y + d` multiplies `yvariance` by `c*c` |
| FitProperties.ScaleYSlopeVariance | chi2fit.py:41 | replacing y by `c*y + d` multiplies `slopevariance` by `c*c` |
| FitProperties.ScaleYInterceptVariance | chi2fit.py:42 | replacing y by `c*y + d` multiplies `interceptvariance` by `c*c` |
| FitProperties.StandardErrorScales | chi2fit.py:44-46 | the standard error of `c*c*v` is `|c|` times that of `v`, so rescaling y by `c` scales every returned error by `|c|` |
| FitProperties.CentredSumOfSquaresScale | chi2fit.py:31 | replacing y by `c*y + d` multiplies `variancey` by `c*c` |
| FitProperties.ScaleYRSquared | chi2fit.py:36 | replacing y by `c*y + d` with `c != 0` leaves `r2` unchanged |
| FitProperties.FitThroughCentroid | chi2fit.py:28-67 | a successful `linearFit` returns a line through the centroid of the points |
| FitProperties.PrintInfoIrrelevant | chi2fit.py:48-67 | the report flag never changes what `linearFit` returns |
| FitProperties.NoiselessExample | chi2fit.py:6-67 | `linearFit([0,1,2,3,4], [1,3,5,7,9])` gives slope 2, intercept 1 and zero variances |
| FitProperties.TwoPointsExample | chi2fit.py:34-35 | with two points `(0,0)` and `(1,2)` the slope is 2 and the intercept 0, although `LinearFit` reports them as degenerate |
| FitProperties.DegenerateExamples | chi2fit.py:22-39 | constant x, or only two points, is degenerate; unequal lengths are a length mismatch |
| Vector.CentredSquaresPositiveIffVaries | chi2fit.py:30-31 | `sum((s - mean(s))**2)` is non-negative, and positive exactly when `s` holds two different values |
| Vector.CauchySchwarz | chi2fit.py:32-36 | `sum(a*b)**2 <= sum(a**2) * sum(b**2)`, which equivalently bounds `r2` by 1 |

## Left out

- The `printinfo` report (chi2fit.py:48-65). It calls SciPy's normal and chi distributions to get asymmetric bounds on `yerr`, then prints text. Those routines cannot be seen, and the report only produces output. `LinearFit` takes the flag and ignores it, and `PrintInfoIrrelevant` records that the flag has no effect on the result.
- The `__main__` block (chi2fit.py:69-143). It is a Monte Carlo harness built on random noise, histograms and plotting, and its claims are statistical.
- compare_results.py is not part of this model. It is a plotting wrapper.
- Floating point. Rounding is not modelled. Division by zero, whether it raises or yields nan, is modelled as `Failure(Degenerate)`, or as a precondition for `r2`, which is not returned. Because rounding is not modelled, an input whose `variancex` is zero exactly but a tiny positive double in the source (three x values of 0.1, say) is `Degenerate` here. The source instead returns a finite fit with huge variances.
- Chi2Fit.LinearFit: for exactly two points with different x, the source still returns a finite slope and intercept (with nan errors), but the model returns `Failure(Degenerate)` and drops them. `Fit` has no way to carry an undefined variance. `Slope` and `Intercept` on their own are defined for two points, as `TwoPointsExample` shows.
- Chi2Fit.LinearFit: integer input is not modelled. `scipy.array` turns a list of integers into a fixed-width integer array, and `x**2` at line 42 can then wrap around on overflow. The model works over `real` and has no wrap-around.
- The square roots at chi2fit.py:44-46. Dafny has no real square root, so `Fit` carries the variances. `IsStandardError` and `StandardErrorUnique` pin the errors down.
- Chi2Fit.LinearFit: its contract states the error cases and the non-negativity of the variances, but it does not restate the centroid property. That property is proved separately, in `FitThroughCentroid`.
