/** Spend forecasting: an ordinary least-squares line through the monthly history, extrapolated with a band. */
module Forecast {
  import opened Reals

  // ---------------------------------------------------------------------------------------------
  // Vectors

  function Sum(s: seq<real>): real {
    if s == [] then 0.0 else Sum(s[..|s| - 1]) + s[|s| - 1]
  }

  function Dot(s: seq<real>, t: seq<real>): real
    requires |s| == |t|
  {
    if s == [] then 0.0 else Dot(s[..|s| - 1], t[..|t| - 1]) + Times(s[|s| - 1], t[|t| - 1])
  }

  /** s + k t */
  function Combine(s: seq<real>, k: real, t: seq<real>): (r: seq<real>)
    requires |s| == |t|
    ensures |r| == |s|
  {
    seq(|s|, i requires 0 <= i < |s| => s[i] + Times(k, t[i]))
  }

  function Constant(n: nat, c: real): (r: seq<real>)
    ensures |r| == n
  {
    seq(n, i requires 0 <= i < n => c)
  }

  lemma {:induction false} DotCombine(s: seq<real>, k: real, t: seq<real>, z: seq<real>)
    requires |s| == |t| == |z|
    ensures Dot(Combine(s, k, t), z) == Dot(s, z) + Times(k, Dot(t, z))
  {
    if s != [] {
      var n := |s| - 1;
      DotCombine(s[..n], k, t[..n], z[..n]);
      assert Combine(s, k, t)[..n] == Combine(s[..n], k, t[..n]);
      CombineTerm(s[n], k, t[n], z[n], Dot(t[..n], z[..n]));
    }
  }

  lemma CombineTerm(x: real, k: real, y: real, z: real, d: real)
    ensures Times(x + Times(k, y), z) == Times(x, z) + Times(k, Times(y, z))
    ensures Times(k, d + Times(y, z)) == Times(k, d) + Times(k, Times(y, z))
  {
    TimesSplit(x, Times(k, y), z);
    TimesSwap(k, y, z);
  }

  lemma {:induction false} DotSymmetric(s: seq<real>, t: seq<real>)
    requires |s| == |t|
    ensures Dot(s, t) == Dot(t, s)
  {
    if s != [] { DotSymmetric(s[..|s| - 1], t[..|t| - 1]); }
  }

  lemma {:induction false} DotConstant(s: seq<real>, c: real)
    ensures Dot(s, Constant(|s|, c)) == Times(c, Sum(s))
  {
    if s != [] {
      var n := |s| - 1;
      DotConstant(s[..n], c);
      assert Constant(|s|, c)[..n] == Constant(n, c);
      TimesSplit(Sum(s[..n]), s[n], c);
    }
  }

  lemma Square(x: real)
    ensures Times(x, x) >= 0.0 && (Times(x, x) == 0.0 ==> x == 0.0)
  {
    if x > 0.0 {
      PositiveTimes(x, x);
    } else if x < 0.0 {
      PositiveTimes(-x, -x);
      assert Times(x, x) == Times(-x, -x);
    }
  }

  /** A sum of squares is never negative, and zero only for the zero vector. */
  lemma {:induction false} SquaresDefinite(s: seq<real>, i: nat)
    requires i < |s|
    ensures Dot(s, s) >= 0.0 && (Dot(s, s) == 0.0 ==> s[i] == 0.0)
  {
    var n := |s| - 1;
    Square(s[n]);
    if i < n { SquaresDefinite(s[..n], i); } else if n > 0 { SquaresDefinite(s[..n], 0); }
  }

  // ---------------------------------------------------------------------------------------------
  // The fit

  function XVals(n: nat): (r: seq<real>)
    ensures |r| == n
  {
    seq(n, i requires 0 <= i < n => i as real)
  }

  function Mean(s: seq<real>): real
    requires s != []
  {
    Sum(s) / |s| as real
  }

  function Centered(s: seq<real>): (r: seq<real>)
    requires s != []
    ensures |r| == |s|
  {
    seq(|s|, i requires 0 <= i < |s| => s[i] - Mean(s))
  }

  function Denominator(n: nat): real
    requires n > 0
  {
    Dot(Centered(XVals(n)), Centered(XVals(n)))
  }

  function Slope(y: seq<real>): real
    requires y != []
  {
    var denom := Denominator(|y|);
    if denom == 0.0 then 0.0 else Dot(Centered(XVals(|y|)), Centered(y)) / denom
  }

  function Intercept(y: seq<real>): real
    requires y != []
  {
    Mean(y) - Times(Slope(y), Mean(XVals(|y|)))
  }

  /** How far the history lies from the line a + b x. */
  function Errors(y: seq<real>, a: real, b: real): (r: seq<real>)
    ensures |r| == |y|
  {
    seq(|y|, i requires 0 <= i < |y| => y[i] - (a + Times(b, i as real)))
  }

  function SquaredError(y: seq<real>, a: real, b: real): real {
    Dot(Errors(y, a, b), Errors(y, a, b))
  }

  function Residuals(y: seq<real>): seq<real>
    requires y != []
  {
    Errors(y, Intercept(y), Slope(y))
  }

  function ResidualVariance(y: seq<real>): real
    requires y != []
  {
    SquaredError(y, Intercept(y), Slope(y)) / |y| as real
  }

  // ---------------------------------------------------------------------------------------------
  // Why it is the best line

  lemma {:induction false} SumShift(s: seq<real>, c: real)
    ensures Sum(Combine(s, -1.0, Constant(|s|, c))) == Sum(s) - Times(|s| as real, c)
  {
    if s != [] {
      var n := |s| - 1;
      SumShift(s[..n], c);
      assert Combine(s, -1.0, Constant(|s|, c))[..n] == Combine(s[..n], -1.0, Constant(n, c));
      TimesSplit(n as real, 1.0, c);
    }
  }

  lemma CenteredSumsToZero(s: seq<real>)
    requires s != []
    ensures Sum(Centered(s)) == 0.0
  {
    var c := Mean(s);
    SumShift(s, c);
    assert Centered(s) == Combine(s, -1.0, Constant(|s|, c));
    TimesQuotient(Sum(s), |s| as real);
  }

  lemma TimesQuotient(x: real, n: real)
    requires n != 0.0
    ensures Times(n, x / n) == x
  {
  }

  /** From the second month on there is a spread to divide by. */
  lemma DenominatorPositive(n: nat)
    requires n >= 2
    ensures Denominator(n) > 0.0
  {
    var u := Centered(XVals(n));
    SquaresDefinite(u, 0);
    SquaresDefinite(u, 1);
    assert u[1] - u[0] == 1.0;
  }

  /** A residual is the centred value less the slope times the centred month. */
  lemma ResidualsCentered(y: seq<real>)
    requires y != []
    ensures Residuals(y) == Combine(Centered(y), -Slope(y), Centered(XVals(|y|)))
  {
    var (b, m) := (Slope(y), Mean(XVals(|y|)));
    forall i | 0 <= i < |y| ensures Residuals(y)[i] == Combine(Centered(y), -b, Centered(XVals(|y|)))[i] {
      ResidualTerm(y[i], Mean(y), b, i as real, m);
    }
  }

  lemma ResidualTerm(y: real, my: real, b: real, x: real, mx: real)
    ensures y - (my - Times(b, mx) + Times(b, x)) == y - my + Times(-b, x - mx)
  {
  }

  /** The residuals balance: they sum to zero, also when weighted by the centred months. */
  lemma ResidualsBalance(y: seq<real>)
    requires |y| >= 2
    ensures Sum(Residuals(y)) == 0.0
    ensures Dot(Residuals(y), Centered(XVals(|y|))) == 0.0
  {
    var (u, v, b) := (Centered(XVals(|y|)), Centered(y), Slope(y));
    ResidualsCentered(y);
    CenteredSumsToZero(XVals(|y|));
    CenteredSumsToZero(y);
    DenominatorPositive(|y|);
    var ones := Constant(|y|, 1.0);
    DotCombine(v, -b, u, ones);
    DotConstant(u, 1.0);
    DotConstant(v, 1.0);
    DotConstant(Residuals(y), 1.0);
    TimesUnit(Sum(u));
    TimesUnit(Sum(v));
    TimesUnit(Sum(Residuals(y)));
    assert Times(-b, 0.0) == 0.0;
    DotCombine(v, -b, u, u);
    DotSymmetric(u, v);
    assert Times(-b, Dot(u, u)) == -Dot(u, v);
  }

  /** The error of any line is the residual plus a combination of the constant and the centred months. */
  lemma ErrorsSplit(y: seq<real>, a: real, b: real)
    requires y != []
    ensures var (c, d, u) := (Mean(y) - a - Times(b, Mean(XVals(|y|))), Slope(y) - b, Centered(XVals(|y|)));
            Errors(y, a, b) == Combine(Residuals(y), 1.0, Combine(Constant(|y|, c), d, u))
  {
    var (m, s) := (Mean(XVals(|y|)), Slope(y));
    forall i | 0 <= i < |y|
      ensures Errors(y, a, b)[i]
           == Residuals(y)[i] + Times(1.0, (Mean(y) - a - Times(b, m)) + Times(s - b, i as real - m))
    {
      ErrorTerm(y[i], Mean(y), a, b, s, i as real, m);
    }
  }

  lemma ErrorTerm(y: real, my: real, a: real, b: real, s: real, x: real, mx: real)
    ensures y - (a + Times(b, x))
         == y - (my - Times(s, mx) + Times(s, x)) + Times(1.0, my - a - Times(b, mx) + Times(s - b, x - mx))
  {
  }

  /** Pythagoras: the squared error of any line is that of the fit plus that of their difference. */
  lemma ErrorsPythagoras(y: seq<real>, a: real, b: real)
    requires |y| >= 2
    ensures var (c, d, u) := (Mean(y) - a - Times(b, Mean(XVals(|y|))), Slope(y) - b, Centered(XVals(|y|)));
            var w := Combine(Constant(|y|, c), d, u);
            SquaredError(y, a, b) == SquaredError(y, Intercept(y), Slope(y)) + Dot(w, w)
  {
    var (c, d, u, r) := (Mean(y) - a - Times(b, Mean(XVals(|y|))), Slope(y) - b, Centered(XVals(|y|)), Residuals(y));
    var w := Combine(Constant(|y|, c), d, u);
    var e := Errors(y, a, b);
    ErrorsSplit(y, a, b);
    ResidualsBalance(y);
    DotCombine(Constant(|y|, c), d, u, r);
    DotConstant(r, c);
    DotSymmetric(Constant(|y|, c), r);
    DotSymmetric(u, r);
    assert Times(c, 0.0) == 0.0 && Times(d, 0.0) == 0.0;
    assert Dot(w, r) == 0.0;
    DotCombine(r, 1.0, w, e);
    DotSymmetric(r, e);
    DotSymmetric(w, e);
    DotCombine(r, 1.0, w, r);
    DotCombine(r, 1.0, w, w);
    DotSymmetric(r, w);
    TimesUnit(Dot(w, e));
    TimesUnit(Dot(w, r));
    TimesUnit(Dot(w, w));
  }

  /** The fitted line is the one line of least squared error. */
  lemma {:induction false} LeastSquares(y: seq<real>, a: real, b: real)
    requires |y| >= 2
    ensures SquaredError(y, Intercept(y), Slope(y)) <= SquaredError(y, a, b)
    ensures SquaredError(y, Intercept(y), Slope(y)) == SquaredError(y, a, b) <==> a == Intercept(y) && b == Slope(y)
  {
    var (c, d, u) := (Mean(y) - a - Times(b, Mean(XVals(|y|))), Slope(y) - b, Centered(XVals(|y|)));
    var w := Combine(Constant(|y|, c), d, u);
    ErrorsPythagoras(y, a, b);
    SquaresDefinite(w, 0);
    SquaresDefinite(w, 1);
    if Dot(w, w) == 0.0 {
      assert u[1] == u[0] + 1.0;
      assert w[0] == c + Times(d, u[0]) && w[1] == c + Times(d, u[1]);
      StepOfOne(c, d, u[0]);
    }
  }

  lemma StepOfOne(c: real, d: real, x: real)
    requires c + Times(d, x) == 0.0 && c + Times(d, x + 1.0) == 0.0
    ensures d == 0.0 && c == 0.0
  {
    assert Times(d, x + 1.0) == Times(d, x) + d;
  }

  /** A history that lies on a line is fitted by that line, without residual. */
  lemma ExactLine(y: seq<real>, a: real, b: real)
    requires |y| >= 2 && forall i :: 0 <= i < |y| ==> y[i] == a + Times(b, i as real)
    ensures Intercept(y) == a && Slope(y) == b && ResidualVariance(y) == 0.0
  {
    var e := Errors(y, a, b);
    assert e == Constant(|y|, 0.0);
    DotConstant(e, 0.0);
    assert SquaredError(y, a, b) == 0.0;
    LeastSquares(y, a, b);
    SquaresDefinite(Residuals(y), 0);
  }

  // ---------------------------------------------------------------------------------------------
  // The projection

  datatype Point = Point(monthOffset: int, predicted: real, lower: real, upper: real)

  datatype SpendForecast = SpendForecast(trendPct: real, residualStddev: real, points: seq<Point>)

  datatype Result = TooShort | BadHorizon | Success(forecast: SpendForecast)

  function Predicted(y: seq<real>, offset: int): real
    requires y != []
  {
    Max(Intercept(y) + Times(Slope(y), (|y| + offset - 1) as real), 0.0)
  }

  /** The prediction is the value, floored at zero, of the line of least squared error, and the residual variance is the
      mean of that error. */
  lemma PredictsOnBestLine(y: seq<real>, a: real, b: real, offset: int)
    requires |y| >= 2 && forall a', b' :: SquaredError(y, a, b) <= SquaredError(y, a', b')
    ensures Predicted(y, offset) == Max(a + Times(b, (|y| + offset - 1) as real), 0.0)
    ensures Times(|y| as real, ResidualVariance(y)) == Dot(Errors(y, a, b), Errors(y, a, b))
  {
    assert SquaredError(y, a, b) <= SquaredError(y, Intercept(y), Slope(y));
    LeastSquares(y, a, b);
    TimesQuotient(SquaredError(y, a, b), |y| as real);
  }

  /** `stddev` is the square root of the residual variance. The points follow the fitted line, floored at zero, each
      inside its band. */
  method MakeForecast(y: seq<real>, horizonMonths: int, stddev: real) returns (r: Result)
    requires |y| >= 2 ==> stddev >= 0.0 && stddev * stddev == ResidualVariance(y)
    ensures r.TooShort? <==> |y| < 2
    ensures r.BadHorizon? <==> |y| >= 2 && horizonMonths <= 0
    ensures r.Success? ==>
      && |r.forecast.points| == horizonMonths && r.forecast.residualStddev == stddev
      && r.forecast.trendPct == (if y[0] == 0.0 then 0.0 else (y[|y| - 1] - y[0]) / y[0] * 100.0)
      && forall k :: 0 <= k < horizonMonths ==>
           var p := r.forecast.points[k];
           && p.monthOffset == k + 1 && p.predicted == Predicted(y, k + 1)
           && 0.0 <= p.lower <= p.predicted <= p.upper
           && p.lower == Max(p.predicted - 1.96 * stddev, 0.0) && p.upper == p.predicted + 1.96 * stddev
  {
    if |y| < 2 { return TooShort; }
    if horizonMonths <= 0 { return BadHorizon; }
    var slope := Slope(y);
    var intercept := Intercept(y);
    var width := 1.96 * stddev;
    var points: seq<Point> := [];
    var startIdx := |y|;
    for offset := 1 to horizonMonths + 1
      invariant |points| == offset - 1
      invariant forall k :: 0 <= k < |points| ==>
        var p := Predicted(y, k + 1);
        points[k] == Point(k + 1, p, Max(p - width, 0.0), p + width)
    {
      var monthIndex := (startIdx + (offset - 1)) as real;
      var prediction := Max(intercept + Times(slope, monthIndex), 0.0);
      var lower := Max(prediction - width, 0.0);
      var upper := Max(prediction + width, lower);
      points := points + [Point(offset, prediction, lower, upper)];
    }
    var baseline, latest := y[0], y[|y| - 1];
    var trendPct := if baseline == 0.0 then 0.0 else (latest - baseline) / baseline * 100.0;
    return Success(SpendForecast(trendPct, stddev, points));
  }

  /** A history on a line is extrapolated exactly, floored at zero, with a band of zero width. */
  lemma LineExtrapolated(y: seq<real>, a: real, b: real, offset: int, stddev: real)
    requires |y| >= 2 && forall i :: 0 <= i < |y| ==> y[i] == a + Times(b, i as real)
    requires stddev >= 0.0 && stddev * stddev == ResidualVariance(y)
    ensures Predicted(y, offset) == Max(a + Times(b, (|y| + offset - 1) as real), 0.0)
    ensures 1.96 * stddev == 0.0
  {
    ExactLine(y, a, b);
    Square(stddev);
    assert Times(stddev, stddev) == 0.0;
  }
}
