/**
 * Ordinary least-squares line fit and its coefficient of determination (R²),
 * over exact reals. The division by zero that yields NaN or Infinity in the
 * original floating-point code is an explicit degenerate outcome here.
 */
module Regression {

  /** A fitted line y = slope·x + intercept, or the degenerate fit whose
      slope is the NaN of a zero denominator. */
  datatype Fit = DegenerateFit | Line(slope: real, intercept: real)

  /** A goodness-of-fit value, or the NaN or −Infinity a zero denominator produces. */
  datatype Score = DegenerateScore | Finite(value: real)

  /** What the regression of one series reports: the line and its R². */
  datatype RegressionResult = RegressionResult(fit: Fit, rSquared: Score)

  /** The five running totals `linearRegression` computes before it divides. */
  datatype Totals = Totals(n: real, sumX: real, sumY: real, sumXY: real, sumX2: real)

  // ---------------------------------------------------------------------------
  // Left folds, in the order of the original `reduce` calls. Each total is a
  // recursive fold over a prefix behind a non-recursive name.

  function SumTo(s: seq<real>, k: nat): real
    requires k <= |s|
  {
    if k == 0 then 0.0 else SumTo(s, k - 1) + s[k - 1]
  }

  /** Σs, the `reduce((a, b) => a + b, 0)` of the original. */
  function Sum(s: seq<real>): real
  {
    SumTo(s, |s|)
  }

  /** The products u[i]·v[i] of paired values. */
  function Products(u: seq<real>, v: seq<real>): (r: seq<real>)
    requires |u| == |v|
    ensures |r| == |u|
    ensures forall i :: 0 <= i < |r| ==> r[i] == u[i] * v[i]
  {
    seq(|u|, i requires 0 <= i < |u| => u[i] * v[i])
  }

  /** Σu·v over paired values. */
  function SumOfProducts(u: seq<real>, v: seq<real>): real
    requires |u| == |v|
  {
    Sum(Products(u, v))
  }

  /** Σs². */
  function SumOfSquares(s: seq<real>): real
  {
    SumOfProducts(s, s)
  }

  /** The arithmetic mean Σs / n of a non-empty series: n copies of it add
      up to the sum. */
  function Mean(s: seq<real>): (m: real)
    requires |s| > 0
    ensures |s| as real * m == Sum(s)
  {
    Sum(s) / |s| as real
  }

  /** All values of the series are equal (vacuously so for an empty one). */
  predicate Constant(s: seq<real>)
  {
    forall i, j :: 0 <= i < |s| && 0 <= j < |s| ==> s[i] == s[j]
  }

  /** The predictions slope·x[i] + intercept of a line at every x. */
  function Fitted(x: seq<real>, slope: real, intercept: real): (r: seq<real>)
    ensures |r| == |x|
    ensures forall i :: 0 <= i < |r| ==> r[i] == slope * x[i] + intercept
  {
    seq(|x|, i requires 0 <= i < |x| => slope * x[i] + intercept)
  }

  /** The residuals y[i] − (slope·x[i] + intercept) of a line against the points. */
  function Residuals(x: seq<real>, y: seq<real>, slope: real, intercept: real): (r: seq<real>)
    requires |x| == |y|
    ensures |r| == |x|
    ensures forall i :: 0 <= i < |r| ==> r[i] == y[i] - (slope * x[i] + intercept)
  {
    seq(|x|, i requires 0 <= i < |x| => y[i] - (slope * x[i] + intercept))
  }

  /** The deviations s[i] − m of every value from a centre m. */
  function Deviations(s: seq<real>, m: real): (r: seq<real>)
    ensures |r| == |s|
    ensures forall i :: 0 <= i < |r| ==> r[i] == s[i] - m
  {
    seq(|s|, i requires 0 <= i < |s| => s[i] - m)
  }

  /** Σ(y − ȳ)², the total sum of squares. */
  function SsTotal(y: seq<real>): (r: real)
    requires |y| > 0
    ensures r >= 0.0
  {
    SumOfSquaresNonNegative(Deviations(y, Mean(y)));
    SumOfSquares(Deviations(y, Mean(y)))
  }

  /** Σ(y − (slope·x + intercept))², the residual sum of squares. */
  function SsResidual(x: seq<real>, y: seq<real>, slope: real, intercept: real): (r: real)
    requires |x| == |y|
    ensures r >= 0.0
  {
    SumOfSquaresNonNegative(Residuals(x, y, slope, intercept));
    SumOfSquares(Residuals(x, y, slope, intercept))
  }

  // ---------------------------------------------------------------------------
  // The closed form over the totals

  /** The slope denominator n·Σx² − (Σx)². */
  function Denominator(t: Totals): real
  {
    t.n * t.sumX2 - t.sumX * t.sumX
  }

  /** The slope and intercept of `linearRegression`, computed from its totals.
      A zero denominator, or no points at all, gives NaN there. */
  function SolveLine(t: Totals): Fit
  {
    var d := Denominator(t);
    if d == 0.0 || t.n == 0.0 then DegenerateFit
    else
      var slope := (t.n * t.sumXY - t.sumX * t.sumY) / d;
      Line(slope, (t.sumY - slope * t.sumX) / t.n)
  }

  /** The normal equations of the least-squares line y = a·x + b, multiplied
      out so that they hold without division:
      a·(n·Σx² − (Σx)²) = n·Σxy − Σx·Σy and n·b = Σy − a·Σx. */
  predicate Solves(t: Totals, a: real, b: real)
  {
    a * Denominator(t) == t.n * t.sumXY - t.sumX * t.sumY && t.n * b == t.sumY - a * t.sumX
  }

  // ---------------------------------------------------------------------------
  // The operations of the original code

  /** The totals n, Σx, Σy, Σxy and Σx² of paired series. */
  function TotalsOf(x: seq<real>, y: seq<real>): Totals
    requires |x| == |y|
  {
    Totals(|x| as real, Sum(x), Sum(y), SumOfProducts(x, y), SumOfSquares(x))
  }

  /** The closed-form least-squares slope and intercept of the points (x[i], y[i]). */
  function LeastSquares(x: seq<real>, y: seq<real>): Fit
    requires |x| == |y|
  {
    SolveLine(TotalsOf(x, y))
  }

  /** R² = 1 − ssRes/ssTot of any line against the points; it never exceeds 1.
      With no points the mean of y is NaN, and with constant y the ratio
      divides by zero: both are degenerate. */
  function RSquared(x: seq<real>, y: seq<real>, slope: real, intercept: real): (r: Score)
    requires |x| == |y|
    ensures r.Finite? ==> r.value <= 1.0
  {
    if |y| == 0 then DegenerateScore
    else
      var ssTotal := SsTotal(y);
      var ssRes := SsResidual(x, y, slope, intercept);
      if ssTotal == 0.0 then DegenerateScore
      else Finite(1.0 - ssRes / ssTotal)
  }

  /** Fit a line and score it on the same points. A degenerate fit has a NaN
      slope, which makes its R² NaN as well. */
  function LinearRegression(x: seq<real>, y: seq<real>): (r: RegressionResult)
    requires |x| == |y|
    ensures r.fit == LeastSquares(x, y)
    ensures r.fit.Line? ==> r.rSquared == RSquared(x, y, r.fit.slope, r.fit.intercept)
    ensures r.fit.DegenerateFit? ==> r.rSquared == DegenerateScore
    ensures r.rSquared.Finite? ==> r.fit.Line? && 0.0 <= r.rSquared.value <= 1.0
  {
    var fit := LeastSquares(x, y);
    if fit.DegenerateFit? then RegressionResult(fit, DegenerateScore)
    else
      FitNoWorseThanMean(x, y);
      RegressionResult(fit, RSquared(x, y, fit.slope, fit.intercept))
  }

  // ---------------------------------------------------------------------------
  // Arithmetic over plain reals. Each product is passed in as a parameter of
  // its own, so that the solver treats it as one unknown, and the identities
  // are stated per element; the lemmas below lift them to whole sums.

  lemma {:induction false} SquarePositive(v: real)
    ensures v * v >= 0.0
    ensures v != 0.0 ==> v * v > 0.0
  {
    if v < 0.0 {
      var w := -v;
      assert w * w > 0.0;
      assert v * v == w * w;
    }
  }

  lemma {:induction false} SquareZero(v: real)
    ensures v * v == 0.0 <==> v == 0.0
  {
    if v != 0.0 {
      assert (v * v) / v == v;
    }
  }

  lemma {:induction false} ResidualProductArith(xi: real, yi: real, ei: real, a: real, b: real, xe: real, xy: real, xx: real)
    requires ei == yi - (a * xi + b)
    requires xe == xi * ei && xy == xi * yi && xx == xi * xi
    ensures xe == xy - a * xx - b * xi
  {
  }

  lemma {:induction false} SquareOfDifference(p: real, d: real, m: real, dd: real, pp: real)
    requires d == p - m && dd == d * d && pp == p * p
    ensures dd == pp - 2.0 * m * p + m * m
  {
  }

  lemma {:induction false} SquareOfSum(p: real, e: real, g: real, pp: real, ee: real, gg: real, eg: real)
    requires p == e + g && pp == p * p && ee == e * e && gg == g * g && eg == e * g
    ensures pp == ee + gg + 2.0 * eg
  {
  }

  lemma {:induction false} CrossArith(xi: real, ei: real, gi: real, a: real, c: real, eg: real, xe: real)
    requires gi == a * xi + c && eg == ei * gi && xe == xi * ei
    ensures eg == a * xe + c * ei
  {
  }

  /** The closed form is the only solution of the normal equations, and a
      solution exists exactly when the denominator and n are non-zero. */
  lemma {:induction false} SolveLineIffSolves(t: Totals, a: real, b: real)
    ensures SolveLine(t) == Line(a, b) <==> Denominator(t) != 0.0 && t.n != 0.0 && Solves(t, a, b)
  {
    var d := Denominator(t);
    if d != 0.0 && t.n != 0.0 {
      var num := t.n * t.sumXY - t.sumX * t.sumY;
      if Solves(t, a, b) {
        assert a == num / d;
        assert b == (t.sumY - a * t.sumX) / t.n;
      }
    }
  }

  /** Whenever the closed form gives a line, that line solves the normal equations. */
  lemma {:induction false} SolveLineSolves(t: Totals)
    ensures SolveLine(t).Line? ==> Solves(t, SolveLine(t).slope, SolveLine(t).intercept)
  {
    if SolveLine(t).Line? {
      SolveLineIffSolves(t, SolveLine(t).slope, SolveLine(t).intercept);
    }
  }

  /** Residual totals that follow from the normal equations both vanish. */
  lemma {:induction false} ResidualTotalsVanish(t: Totals, a: real, b: real, se: real, sxe: real)
    requires t.n != 0.0 && Solves(t, a, b)
    requires se == t.sumY - a * t.sumX - t.n * b
    requires sxe == t.sumXY - a * t.sumX2 - b * t.sumX
    ensures se == 0.0 && sxe == 0.0
  {
    calc {
      t.n * sxe;
      t.n * t.sumXY - a * (t.n * t.sumX2) - (t.n * b) * t.sumX;
      t.n * t.sumXY - a * (t.n * t.sumX2) - (t.sumY - a * t.sumX) * t.sumX;
      (t.n * t.sumXY - t.sumX * t.sumY) - a * Denominator(t);
      0.0;
    }
  }

  /** Residual totals that vanish make the line a solution of the normal equations. */
  lemma {:induction false} VanishingResidualsSolve(t: Totals, a: real, b: real, se: real, sxe: real)
    requires se == 0.0 && sxe == 0.0
    requires se == t.sumY - a * t.sumX - t.n * b
    requires sxe == t.sumXY - a * t.sumX2 - b * t.sumX
    ensures Solves(t, a, b)
  {
    calc {
      t.n * t.sumXY - t.sumX * t.sumY;
      t.n * (a * t.sumX2 + b * t.sumX) - t.sumX * (a * t.sumX + t.n * b);
      a * Denominator(t);
    }
  }

  lemma {:induction false} ScaledSpreadArith(n: real, s: real, q: real, m: real, t: real, den: real)
    requires n * m == s
    requires t == q - 2.0 * m * s + n * (m * m)
    requires den == n * q - s * s
    ensures den == n * t
  {
    calc {
      n * t;
      n * q - 2.0 * (n * m) * s + (n * m) * (n * m);
      n * q - s * s;
    }
  }

  // ---------------------------------------------------------------------------
  // Algebra of the fold, by induction on the prefix length

  lemma {:induction false} SumOfAffineTo(w: seq<real>, u: seq<real>, v: seq<real>, a: real, b: real, c: real, k: nat)
    requires |u| == |v| == |w| && k <= |w|
    requires forall i :: 0 <= i < |w| ==> w[i] == a * u[i] + b * v[i] + c
    ensures SumTo(w, k) == a * SumTo(u, k) + b * SumTo(v, k) + k as real * c
  {
    if k > 0 {
      SumOfAffineTo(w, u, v, a, b, c, k - 1);
      assert k as real * c == (k - 1) as real * c + c;
    }
  }

  /** The sum is linear: Σ(a·u + b·v + c) = a·Σu + b·Σv + n·c. */
  lemma {:induction false} SumOfAffine(w: seq<real>, u: seq<real>, v: seq<real>, a: real, b: real, c: real)
    requires |u| == |v| == |w|
    requires forall i :: 0 <= i < |w| ==> w[i] == a * u[i] + b * v[i] + c
    ensures Sum(w) == a * Sum(u) + b * Sum(v) + |w| as real * c
  {
    SumOfAffineTo(w, u, v, a, b, c, |w|);
  }

  lemma {:induction false} SumOfCombinationTo(w: seq<real>, u: seq<real>, v: seq<real>, z: seq<real>, a: real, b: real, c: real, k: nat)
    requires |u| == |v| == |z| == |w| && k <= |w|
    requires forall i :: 0 <= i < |w| ==> w[i] == a * u[i] + b * v[i] + c * z[i]
    ensures SumTo(w, k) == a * SumTo(u, k) + b * SumTo(v, k) + c * SumTo(z, k)
  {
    if k > 0 {
      SumOfCombinationTo(w, u, v, z, a, b, c, k - 1);
    }
  }

  /** The sum is linear: Σ(a·u + b·v + c·z) = a·Σu + b·Σv + c·Σz. */
  lemma {:induction false} SumOfCombination(w: seq<real>, u: seq<real>, v: seq<real>, z: seq<real>, a: real, b: real, c: real)
    requires |u| == |v| == |z| == |w|
    requires forall i :: 0 <= i < |w| ==> w[i] == a * u[i] + b * v[i] + c * z[i]
    ensures Sum(w) == a * Sum(u) + b * Sum(v) + c * Sum(z)
  {
    SumOfCombinationTo(w, u, v, z, a, b, c, |w|);
  }

  lemma {:induction false} SumOfConstantTo(s: seq<real>, c: real, k: nat)
    requires k <= |s|
    requires forall i :: 0 <= i < |s| ==> s[i] == c
    ensures SumTo(s, k) == k as real * c
  {
    if k > 0 {
      SumOfConstantTo(s, c, k - 1);
    }
  }

  lemma {:induction false} SumOfNonNegativeTo(s: seq<real>, k: nat)
    requires k <= |s|
    requires forall i :: 0 <= i < |s| ==> s[i] >= 0.0
    ensures SumTo(s, k) >= 0.0
    ensures SumTo(s, k) == 0.0 <==> forall i :: 0 <= i < k ==> s[i] == 0.0
  {
    if k > 0 {
      SumOfNonNegativeTo(s, k - 1);
    }
  }

  /** A sum of squares is never negative. */
  lemma {:induction false} SumOfSquaresNonNegative(s: seq<real>)
    ensures SumOfSquares(s) >= 0.0
  {
    var sq := Products(s, s);
    forall i | 0 <= i < |sq| ensures sq[i] >= 0.0 {
      SquarePositive(s[i]);
    }
    SumOfNonNegativeTo(sq, |sq|);
  }

  /** A sum of squares is zero exactly when every term is zero. */
  lemma {:induction false} SumOfSquaresZero(s: seq<real>)
    ensures SumOfSquares(s) == 0.0 <==> forall i :: 0 <= i < |s| ==> s[i] == 0.0
  {
    var sq := Products(s, s);
    forall i | 0 <= i < |sq| ensures sq[i] >= 0.0 && (sq[i] == 0.0 <==> s[i] == 0.0) {
      SquarePositive(s[i]);
      SquareZero(s[i]);
    }
    SumOfNonNegativeTo(sq, |sq|);
  }

  // ---------------------------------------------------------------------------
  // The totals of the residuals, the spread and the denominator
  //
  // The `*Pointwise` lemmas state each element in the coefficient form
  // `a * u[i] + b * v[i] + c` (with `1.0 *`, `-m *` or `+ 0.0` written out)
  // that `SumOfAffine` and `SumOfCombination` expect; they exist only to
  // match those lemmas' requires.

  /** Σe = Σy − a·Σx − n·b for the residuals e of the line y = a·x + b. */
  lemma {:induction false} SumOfResiduals(x: seq<real>, y: seq<real>, a: real, b: real)
    requires |x| == |y|
    ensures Sum(Residuals(x, y, a, b)) == Sum(y) - a * Sum(x) - |x| as real * b
  {
    SumOfAffine(Residuals(x, y, a, b), y, x, 1.0, -a, -b);
  }

  /** Σx·e = Σxy − a·Σx² − b·Σx for the residuals e of the line y = a·x + b. */
  lemma {:induction false} ProductsOfResiduals(x: seq<real>, y: seq<real>, a: real, b: real)
    requires |x| == |y|
    ensures SumOfProducts(x, Residuals(x, y, a, b))
         == SumOfProducts(x, y) - a * SumOfSquares(x) - b * Sum(x)
  {
    ProductsOfResidualsPointwise(x, y, a, b);
    SumOfCombination(Products(x, Residuals(x, y, a, b)), Products(x, y), Products(x, x), x, 1.0, -a, -b);
  }

  lemma {:induction false} ProductsOfResidualsPointwise(x: seq<real>, y: seq<real>, a: real, b: real)
    requires |x| == |y|
    ensures forall i :: 0 <= i < |x| ==>
              Products(x, Residuals(x, y, a, b))[i] == 1.0 * Products(x, y)[i] + -a * Products(x, x)[i] + -b * x[i]
  {
    var e := Residuals(x, y, a, b);
    var xe, xy, xx := Products(x, e), Products(x, y), Products(x, x);
    forall i | 0 <= i < |x| ensures xe[i] == 1.0 * xy[i] + -a * xx[i] + -b * x[i] {
      ResidualProductArith(x[i], y[i], e[i], a, b, xe[i], xy[i], xx[i]);
    }
  }

  /** Σ(s − m)² = Σs² − 2m·Σs + n·m². */
  lemma {:induction false} SpreadExpand(s: seq<real>, m: real)
    ensures SumOfSquares(Deviations(s, m)) == SumOfSquares(s) - 2.0 * m * Sum(s) + |s| as real * (m * m)
  {
    SpreadPointwise(s, m);
    SumOfAffine(Products(Deviations(s, m), Deviations(s, m)), Products(s, s), s, 1.0, -2.0 * m, m * m);
  }

  lemma {:induction false} SpreadPointwise(s: seq<real>, m: real)
    ensures forall i :: 0 <= i < |s| ==>
              Products(Deviations(s, m), Deviations(s, m))[i] == 1.0 * Products(s, s)[i] + -2.0 * m * s[i] + m * m
  {
    var d := Deviations(s, m);
    var dd, ss := Products(d, d), Products(s, s);
    forall i | 0 <= i < |s| ensures dd[i] == 1.0 * ss[i] + -2.0 * m * s[i] + m * m {
      SquareOfDifference(s[i], d[i], m, dd[i], ss[i]);
    }
  }

  /** The mean of equal values is that value. */
  lemma {:induction false} MeanOfConstant(s: seq<real>, c: real)
    requires |s| > 0
    requires forall i :: 0 <= i < |s| ==> s[i] == c
    ensures Mean(s) == c
  {
    SumOfConstantTo(s, c, |s|);
    assert Sum(s) == |s| as real * c;
  }

  /** n·Σ(x − x̄)² equals the slope denominator. */
  lemma {:induction false} DenominatorIsScaledSpread(x: seq<real>, y: seq<real>)
    requires |x| == |y| && |x| > 0
    ensures Denominator(TotalsOf(x, y)) == |x| as real * SsTotal(x)
  {
    var n, m := |x| as real, Mean(x);
    SpreadExpand(x, m);
    ScaledSpreadArith(n, Sum(x), SumOfSquares(x), m, SsTotal(x), Denominator(TotalsOf(x, y)));
  }

  /** The spread Σ(s − s̄)² vanishes exactly when all values are equal. */
  lemma {:induction false} SpreadZeroIffConstant(s: seq<real>)
    requires |s| > 0
    ensures SsTotal(s) == 0.0 <==> Constant(s)
  {
    var m := Mean(s);
    var dev := Deviations(s, m);
    SumOfSquaresZero(dev);
    if Constant(s) {
      MeanOfConstant(s, s[0]);
      assert forall i :: 0 <= i < |dev| ==> dev[i] == 0.0;
    }
    if SsTotal(s) == 0.0 {
      forall i, j | 0 <= i < |s| && 0 <= j < |s| ensures s[i] == s[j] {
        assert dev[i] == 0.0 && dev[j] == 0.0;
      }
    }
  }

  // ---------------------------------------------------------------------------
  // What the fit and the score promise

  /** With no points the denominator is zero, so the fit is degenerate. */
  lemma {:induction false} EmptyDenominator()
    ensures Denominator(TotalsOf([], [])) == 0.0
  {
  }

  /** The fit is degenerate exactly when there are no points or all x are equal. */
  lemma {:induction false} DegenerateIffConstantX(x: seq<real>, y: seq<real>)
    requires |x| == |y|
    ensures LeastSquares(x, y).DegenerateFit? <==> |x| == 0 || Constant(x)
  {
    if |x| > 0 {
      DenominatorIsScaledSpread(x, y);
      SpreadZeroIffConstant(x);
    }
  }

  /** The fitted coefficients solve the normal equations over the totals of
      the points: the closed form without its divisions. */
  lemma {:induction false} CoefficientEquations(x: seq<real>, y: seq<real>)
    requires |x| == |y| && LeastSquares(x, y).Line?
    ensures |x| > 0
    ensures Solves(TotalsOf(x, y), LeastSquares(x, y).slope, LeastSquares(x, y).intercept)
  {
    SolveLineSolves(TotalsOf(x, y));
  }

  /** A line solving the normal equations has residuals that sum to zero and
      are uncorrelated with x. */
  lemma {:induction false} NormalEquationsFor(x: seq<real>, y: seq<real>, a: real, b: real)
    requires |x| == |y| && |x| > 0 && Solves(TotalsOf(x, y), a, b)
    ensures Sum(Residuals(x, y, a, b)) == 0.0
    ensures SumOfProducts(x, Residuals(x, y, a, b)) == 0.0
  {
    SumOfResiduals(x, y, a, b);
    ProductsOfResiduals(x, y, a, b);
    ResidualTotalsVanish(TotalsOf(x, y), a, b, Sum(Residuals(x, y, a, b)), SumOfProducts(x, Residuals(x, y, a, b)));
  }

  /** The fitted line's residuals sum to zero and are uncorrelated with x:
      the conditions that make it the least-squares line. */
  lemma {:induction false} NormalEquations(x: seq<real>, y: seq<real>)
    requires |x| == |y| && LeastSquares(x, y).Line?
    ensures Sum(Residuals(x, y, LeastSquares(x, y).slope, LeastSquares(x, y).intercept)) == 0.0
    ensures SumOfProducts(x, Residuals(x, y, LeastSquares(x, y).slope, LeastSquares(x, y).intercept)) == 0.0
  {
    CoefficientEquations(x, y);
    NormalEquationsFor(x, y, LeastSquares(x, y).slope, LeastSquares(x, y).intercept);
  }

  /** A line whose residuals sum to zero and are uncorrelated with x solves
      the normal equations. */
  lemma {:induction false} ZeroResidualTotalsSolve(x: seq<real>, y: seq<real>, a: real, b: real)
    requires |x| == |y|
    requires Sum(Residuals(x, y, a, b)) == 0.0 && SumOfProducts(x, Residuals(x, y, a, b)) == 0.0
    ensures Solves(TotalsOf(x, y), a, b)
  {
    SumOfResiduals(x, y, a, b);
    ProductsOfResiduals(x, y, a, b);
    VanishingResidualsSolve(TotalsOf(x, y), a, b, Sum(Residuals(x, y, a, b)), SumOfProducts(x, Residuals(x, y, a, b)));
  }

  /** Points lying exactly on y = a·x + b leave residuals whose totals vanish. */
  lemma {:induction false} CollinearResidualTotals(x: seq<real>, y: seq<real>, a: real, b: real)
    requires |x| == |y|
    requires forall i :: 0 <= i < |x| ==> y[i] == a * x[i] + b
    ensures Sum(Residuals(x, y, a, b)) == 0.0 && SumOfProducts(x, Residuals(x, y, a, b)) == 0.0
  {
    var e := Residuals(x, y, a, b);
    SumOfConstantTo(e, 0.0, |e|);
    SumOfConstantTo(Products(x, e), 0.0, |x|);
  }

  /** Points lying exactly on y = a·x + b, with two distinct x values among
      them, are fitted by exactly that line. */
  lemma {:induction false} RecoversCollinear(x: seq<real>, y: seq<real>, a: real, b: real)
    requires |x| == |y| && |x| > 0 && !Constant(x)
    requires forall i :: 0 <= i < |x| ==> y[i] == a * x[i] + b
    ensures LeastSquares(x, y) == Line(a, b)
  {
    CollinearResidualTotals(x, y, a, b);
    ZeroResidualTotalsSolve(x, y, a, b);
    DegenerateIffConstantX(x, y);
    SolveLineIffSolves(TotalsOf(x, y), a, b);
  }

  /** Σ(y − m)² = Σe² + Σ(ŷ − m)² + 2·Σe·(ŷ − m) for any line and any centre m. */
  lemma {:induction false} SquaresOfSplit(x: seq<real>, y: seq<real>, a: real, b: real, m: real)
    requires |x| == |y|
    ensures SumOfSquares(Deviations(y, m))
         == SsResidual(x, y, a, b) + SumOfSquares(Deviations(Fitted(x, a, b), m))
            + 2.0 * SumOfProducts(Residuals(x, y, a, b), Deviations(Fitted(x, a, b), m))
  {
    var dy, e, g := Deviations(y, m), Residuals(x, y, a, b), Deviations(Fitted(x, a, b), m);
    SquaresOfSplitPointwise(x, y, a, b, m);
    SumOfCombination(Products(dy, dy), Products(e, e), Products(g, g), Products(e, g), 1.0, 1.0, 2.0);
  }

  lemma {:induction false} SquaresOfSplitPointwise(x: seq<real>, y: seq<real>, a: real, b: real, m: real)
    requires |x| == |y|
    ensures var dy, e, g := Deviations(y, m), Residuals(x, y, a, b), Deviations(Fitted(x, a, b), m);
            forall i :: 0 <= i < |x| ==>
              Products(dy, dy)[i] == 1.0 * Products(e, e)[i] + 1.0 * Products(g, g)[i] + 2.0 * Products(e, g)[i]
  {
    var dy, e, g := Deviations(y, m), Residuals(x, y, a, b), Deviations(Fitted(x, a, b), m);
    var dd, ee, gg, eg := Products(dy, dy), Products(e, e), Products(g, g), Products(e, g);
    forall i | 0 <= i < |x| ensures dd[i] == 1.0 * ee[i] + 1.0 * gg[i] + 2.0 * eg[i] {
      SquareOfSum(dy[i], e[i], g[i], dd[i], ee[i], gg[i], eg[i]);
    }
  }

  /** Σe·(ŷ − m) = a·Σx·e + (b − m)·Σe for the residuals e of y = a·x + b. */
  lemma {:induction false} CrossTerms(x: seq<real>, y: seq<real>, a: real, b: real, m: real)
    requires |x| == |y|
    ensures SumOfProducts(Residuals(x, y, a, b), Deviations(Fitted(x, a, b), m))
         == a * SumOfProducts(x, Residuals(x, y, a, b)) + (b - m) * Sum(Residuals(x, y, a, b))
  {
    var e, g := Residuals(x, y, a, b), Deviations(Fitted(x, a, b), m);
    CrossTermsPointwise(x, y, a, b, m);
    SumOfAffine(Products(e, g), Products(x, e), e, a, b - m, 0.0);
  }

  lemma {:induction false} CrossTermsPointwise(x: seq<real>, y: seq<real>, a: real, b: real, m: real)
    requires |x| == |y|
    ensures forall i :: 0 <= i < |x| ==>
              Products(Residuals(x, y, a, b), Deviations(Fitted(x, a, b), m))[i]
              == a * Products(x, Residuals(x, y, a, b))[i] + (b - m) * Residuals(x, y, a, b)[i] + 0.0
  {
    var e, g := Residuals(x, y, a, b), Deviations(Fitted(x, a, b), m);
    var eg, xe := Products(e, g), Products(x, e);
    forall i | 0 <= i < |x| ensures eg[i] == a * xe[i] + (b - m) * e[i] + 0.0 {
      CrossArith(x[i], e[i], g[i], a, b - m, eg[i], xe[i]);
    }
  }

  /** Total variation splits into residual and explained variation for the
      least-squares line: Σ(y − ȳ)² = Σe² + Σ(ŷ − ȳ)². */
  lemma {:induction false} VariationDecomposes(x: seq<real>, y: seq<real>)
    requires |x| == |y| && |y| > 0 && LeastSquares(x, y).Line?
    ensures SsTotal(y)
         == SsResidual(x, y, LeastSquares(x, y).slope, LeastSquares(x, y).intercept)
            + SumOfSquares(Deviations(Fitted(x, LeastSquares(x, y).slope, LeastSquares(x, y).intercept), Mean(y)))
  {
    var a, b, m := LeastSquares(x, y).slope, LeastSquares(x, y).intercept, Mean(y);
    NormalEquations(x, y);
    SquaresOfSplit(x, y, a, b, m);
    CrossTerms(x, y, a, b, m);
  }

  /** The least-squares line never does worse than the horizontal line at ȳ:
      ssRes ≤ ssTot, so its R² lies in [0, 1]. */
  lemma {:induction false} FitNoWorseThanMean(x: seq<real>, y: seq<real>)
    requires |x| == |y| && |y| > 0 && LeastSquares(x, y).Line?
    ensures SsResidual(x, y, LeastSquares(x, y).slope, LeastSquares(x, y).intercept) <= SsTotal(y)
    ensures RSquared(x, y, LeastSquares(x, y).slope, LeastSquares(x, y).intercept).Finite?
        ==> RSquared(x, y, LeastSquares(x, y).slope, LeastSquares(x, y).intercept).value >= 0.0
  {
    var fit := LeastSquares(x, y);
    VariationDecomposes(x, y);
    SumOfSquaresNonNegative(Deviations(Fitted(x, fit.slope, fit.intercept), Mean(y)));
    var ssRes, ssTot := SsResidual(x, y, fit.slope, fit.intercept), SsTotal(y);
    if ssTot != 0.0 {
      assert ssRes / ssTot <= 1.0;
    }
  }

  /** When y is not constant, R² is 1 exactly when every residual is zero. */
  lemma {:induction false} PerfectFitIffZeroResiduals(x: seq<real>, y: seq<real>, slope: real, intercept: real)
    requires |x| == |y| && |y| > 0 && SsTotal(y) > 0.0
    ensures RSquared(x, y, slope, intercept) == Finite(1.0)
        <==> forall i :: 0 <= i < |x| ==> y[i] == slope * x[i] + intercept
  {
    var r := Residuals(x, y, slope, intercept);
    SumOfSquaresZero(r);
    var ssRes, ssTot := SsResidual(x, y, slope, intercept), SsTotal(y);
    if RSquared(x, y, slope, intercept) == Finite(1.0) {
      assert ssRes / ssTot == 0.0;
      assert ssRes == (ssRes / ssTot) * ssTot;
      forall i | 0 <= i < |x| ensures y[i] == slope * x[i] + intercept {
        assert r[i] == 0.0;
      }
    }
    if forall i :: 0 <= i < |x| ==> y[i] == slope * x[i] + intercept {
      assert forall i :: 0 <= i < |r| ==> r[i] == 0.0;
    }
  }

  /** When y is not constant and the fit is the line y = a·x + b, the
      reported R² is 1 exactly when every point lies on that line. */
  lemma {:induction false} PerfectRegressionIffOnFittedLine(x: seq<real>, y: seq<real>, a: real, b: real)
    requires |x| == |y| && |y| > 0 && !Constant(y) && LeastSquares(x, y) == Line(a, b)
    ensures LinearRegression(x, y).rSquared == Finite(1.0) <==> forall i :: 0 <= i < |x| ==> y[i] == a * x[i] + b
  {
    SpreadZeroIffConstant(y);
    PerfectFitIffZeroResiduals(x, y, a, b);
  }

  /** A zero slope denominator comes with a zero numerator, so the slope of
      script.js is then 0/0 (NaN) and never ±Infinity. */
  lemma {:induction false} ZeroDenominatorZeroNumerator(x: seq<real>, y: seq<real>)
    requires |x| == |y| && Denominator(TotalsOf(x, y)) == 0.0
    ensures |x| as real * SumOfProducts(x, y) - Sum(x) * Sum(y) == 0.0
  {
    if |x| > 0 {
      DegenerateIffConstantX(x, y);
      var c := x[0];
      assert forall i :: 0 <= i < |x| ==> x[i] == c;
      SumOfConstantTo(x, c, |x|);
      var xy := Products(x, y);
      assert forall i :: 0 <= i < |xy| ==> xy[i] == c * y[i] + 0.0 * y[i] + 0.0;
      SumOfAffine(xy, y, y, c, 0.0, 0.0);
    }
  }

  /** n·Σx² is never less than (Σx)², so the slope denominator is never
      negative. */
  lemma {:induction false} DenominatorNonNegative(x: seq<real>, y: seq<real>)
    requires |x| == |y|
    ensures Denominator(TotalsOf(x, y)) >= 0.0
  {
    if |x| > 0 {
      DenominatorIsScaledSpread(x, y);
    }
  }

  /** R² is degenerate exactly when there are no points or all y are equal. */
  lemma {:induction false} DegenerateScoreIffConstantY(x: seq<real>, y: seq<real>, slope: real, intercept: real)
    requires |x| == |y|
    ensures RSquared(x, y, slope, intercept).DegenerateScore? <==> |y| == 0 || Constant(y)
  {
    if |y| > 0 {
      SpreadZeroIffConstant(y);
    }
  }

  /** The points (1,2), (2,4), (3,6) give the line y = 2x + 0 with R² = 1. */
  lemma {:induction false} DoublingExample()
    ensures LinearRegression([1.0, 2.0, 3.0], [2.0, 4.0, 6.0])
         == RegressionResult(Line(2.0, 0.0), Finite(1.0))
  {
    var x, y := [1.0, 2.0, 3.0], [2.0, 4.0, 6.0];
    assert x[0] != x[1];
    RecoversCollinear(x, y, 2.0, 0.0);
    assert y[0] != y[1];
    SpreadZeroIffConstant(y);
    PerfectFitIffZeroResiduals(x, y, 2.0, 0.0);
  }

  lemma {:induction false} SumOfFour(s: seq<real>)
    requires |s| == 4
    ensures Sum(s) == s[0] + s[1] + s[2] + s[3]
  {
    assert SumTo(s, 1) == s[0];
    assert SumTo(s, 2) == s[0] + s[1];
    assert SumTo(s, 3) == s[0] + s[1] + s[2];
  }

  /** The points (0,0), (1,0), (2,1), (3,1) give the line y = 0.4x − 0.1 with R² = 0.8. */
  lemma {:induction false} StaircaseExample()
    ensures LinearRegression([0.0, 1.0, 2.0, 3.0], [0.0, 0.0, 1.0, 1.0])
         == RegressionResult(Line(0.4, -0.1), Finite(0.8))
  {
    var x, y := [0.0, 1.0, 2.0, 3.0], [0.0, 0.0, 1.0, 1.0];
    SumOfFour(x);
    SumOfFour(y);
    SumOfFour(Products(x, y));
    SumOfFour(Products(x, x));
    var t := TotalsOf(x, y);
    assert t == Totals(4.0, 6.0, 2.0, 5.0, 14.0);
    SolveLineIffSolves(t, 0.4, -0.1);
    var dev, e := Deviations(y, Mean(y)), Residuals(x, y, 0.4, -0.1);
    assert Mean(y) == 0.5;
    SumOfFour(Products(dev, dev));
    SumOfFour(Products(e, e));
    assert SsTotal(y) == 1.0;
    assert SsResidual(x, y, 0.4, -0.1) == 0.2;
  }
}
