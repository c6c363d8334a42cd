/**
 * The per-slice trend fit and outlier test of plot.py (lines 38-45), in exact
 * real arithmetic: an ordinary least-squares line of the outcome on GDP per
 * capita, the residuals from it, their population variance, and the flag
 * |residual| / std(residuals) > t written in squared form so that no square
 * root is needed.
 */
module Regression {

  function Sum(v: seq<real>): real {
    if v == [] then 0.0 else v[0] + Sum(v[1..])
  }

  function Mean(v: seq<real>): real
    requires |v| > 0
  {
    Sum(v) / (|v| as real)
  }

  /** The magnitude |x|. */
  function Magnitude(x: real): (m: real)
    ensures m >= 0.0
    ensures x != 0.0 ==> m > 0.0
  {
    if x < 0.0 then -x else x
  }

  /**
   * The square of x, written as |x| times x with its sign made positive so
   * that each factor is visibly non-negative; SquareIsProduct shows it is x * x.
   */
  function Square(x: real): (p: real)
    ensures p >= 0.0
    ensures x != 0.0 ==> p > 0.0
  {
    if x < 0.0 then (-x) * Magnitude(x) else x * Magnitude(x)
  }

  /** The sum of squared deviations of v from m; never negative. */
  function SquaredDeviation(v: seq<real>, m: real): (d: real)
    ensures d >= 0.0
  {
    if v == [] then 0.0 else Square(v[0] - m) + SquaredDeviation(v[1..], m)
  }

  /** The sum of the products of the deviations of xs from mx and of ys from my. */
  function CrossDeviation(xs: seq<real>, ys: seq<real>, mx: real, my: real): real
    requires |xs| == |ys|
  {
    if xs == [] then 0.0 else (xs[0] - mx) * (ys[0] - my) + CrossDeviation(xs[1..], ys[1..], mx, my)
  }

  /**
   * The least-squares slope Sxy / Sxx; when every x is the same (Sxx = 0) the
   * minimum-norm solution has slope 0, so the line is the mean of y.
   */
  function Slope(xs: seq<real>, ys: seq<real>): real
    requires |xs| == |ys| > 0
  {
    var sxx := SquaredDeviation(xs, Mean(xs));
    if sxx == 0.0 then 0.0 else CrossDeviation(xs, ys, Mean(xs), Mean(ys)) / sxx
  }

  function Intercept(xs: seq<real>, ys: seq<real>): real
    requires |xs| == |ys| > 0
  {
    Mean(ys) - Slope(xs, ys) * Mean(xs)
  }

  /** The values a + b * x of the line at every x. */
  function Line(xs: seq<real>, a: real, b: real): (fs: seq<real>)
    ensures |fs| == |xs|
    ensures forall k :: 0 <= k < |xs| ==> fs[k] == a + b * xs[k]
  {
    if xs == [] then [] else [a + b * xs[0]] + Line(xs[1..], a, b)
  }

  /** Element-wise difference ys - fs. */
  function Minus(ys: seq<real>, fs: seq<real>): (ds: seq<real>)
    requires |ys| == |fs|
    ensures |ds| == |ys|
    ensures forall k :: 0 <= k < |ys| ==> ds[k] == ys[k] - fs[k]
  {
    if ys == [] then [] else [ys[0] - fs[0]] + Minus(ys[1..], fs[1..])
  }

  /** model.fit(x, y).predict(x) */
  function Fitted(xs: seq<real>, ys: seq<real>): (fs: seq<real>)
    requires |xs| == |ys| > 0
    ensures |fs| == |xs|
    ensures forall k :: 0 <= k < |xs| ==> fs[k] == Intercept(xs, ys) + Slope(xs, ys) * xs[k]
  {
    Line(xs, Intercept(xs, ys), Slope(xs, ys))
  }

  /** y - fitted_y */
  function Residuals(xs: seq<real>, ys: seq<real>): (rs: seq<real>)
    requires |xs| == |ys| > 0
    ensures |rs| == |xs|
    ensures forall k :: 0 <= k < |xs| ==> rs[k] == ys[k] - Fitted(xs, ys)[k]
  {
    Minus(ys, Fitted(xs, ys))
  }

  /** np.std(v) ** 2: the population variance (divisor n). */
  function Variance(v: seq<real>): (spread: real)
    requires |v| > 0
    ensures spread >= 0.0
  {
    SquaredDeviation(v, Mean(v)) / (|v| as real)
  }

  /** r is more than t standard deviations from zero; false when the spread is zero. */
  predicate Exceeds(r: real, variance: real, t: real) {
    variance > 0.0 && r * r > t * t * variance
  }

  function Flags(rs: seq<real>, variance: real, t: real): (fs: seq<bool>)
    ensures |fs| == |rs|
    ensures forall k :: 0 <= k < |rs| ==> fs[k] == Exceeds(rs[k], variance, t)
  {
    if rs == [] then [] else [Exceeds(rs[0], variance, t)] + Flags(rs[1..], variance, t)
  }

  /** outlier_mask = |residuals / std(residuals)| > t */
  function OutlierMask(xs: seq<real>, ys: seq<real>, t: real): (mask: seq<bool>)
    requires |xs| == |ys| > 0
    ensures |mask| == |xs|
    ensures forall k :: 0 <= k < |xs| ==>
      mask[k] == Exceeds(Residuals(xs, ys)[k], Variance(Residuals(xs, ys)), t)
  {
    var rs := Residuals(xs, ys);
    Flags(rs, Variance(rs), t)
  }

  /**
   * The comparison as numpy evaluates it, given the standard deviation s:
   * r / 0 is an infinity (which exceeds t) unless r is 0, where it is NaN
   * (which exceeds nothing).
   */
  predicate SourceFlag(r: real, s: real, t: real) {
    if s == 0.0 then r != 0.0 else (if r < 0.0 then -r else r) / s > t
  }

  // ---------------------------------------------------------------------------
  // Properties of the fit
  // ---------------------------------------------------------------------------

  lemma {:induction false} SumOfLine(xs: seq<real>, a: real, b: real)
    ensures Sum(Line(xs, a, b)) == (|xs| as real) * a + b * Sum(xs)
  {
    if xs != [] {
      SumOfLine(xs[1..], a, b);
      assert Line(xs, a, b)[1..] == Line(xs[1..], a, b);
    }
  }

  lemma {:induction false} SumOfMinus(ys: seq<real>, fs: seq<real>)
    requires |ys| == |fs|
    ensures Sum(Minus(ys, fs)) == Sum(ys) - Sum(fs)
  {
    if ys != [] {
      SumOfMinus(ys[1..], fs[1..]);
      assert Minus(ys, fs)[1..] == Minus(ys[1..], fs[1..]);
    }
  }

  /** The least-squares line passes through the means, so the residuals sum to zero. */
  lemma {:induction false} ResidualsSumToZero(xs: seq<real>, ys: seq<real>)
    requires |xs| == |ys| > 0
    ensures Sum(Residuals(xs, ys)) == 0.0
  {
    assert Residuals(xs, ys) == Minus(ys, Line(xs, Intercept(xs, ys), Slope(xs, ys)));
    LineThroughMeans(xs, ys, Intercept(xs, ys), Slope(xs, ys));
  }

  /** The mean residual of the least-squares line is zero. */
  lemma ResidualsMeanIsZero(xs: seq<real>, ys: seq<real>)
    requires |xs| == |ys| > 0
    ensures Mean(Residuals(xs, ys)) == 0.0
  {
    ResidualsSumToZero(xs, ys);
  }

  /** Any line through the point of means (mean x, mean y) leaves residuals that sum to zero. */
  lemma {:induction false} LineThroughMeans(xs: seq<real>, ys: seq<real>, a: real, b: real)
    requires |xs| == |ys| > 0
    requires a == Mean(ys) - b * Mean(xs)
    ensures Sum(Minus(ys, Line(xs, a, b))) == 0.0
  {
    SumOfMinus(ys, Line(xs, a, b));
    SumOfLine(xs, a, b);
    MeanTimesCount(xs);
    MeanTimesCount(ys);
    CentredLine(Sum(Minus(ys, Line(xs, a, b))), Sum(ys), Sum(xs), |xs| as real, a, b, Mean(ys), Mean(xs));
  }

  lemma {:induction false} MeanTimesCount(v: seq<real>)
    requires |v| > 0
    ensures (|v| as real) * Mean(v) == Sum(v)
  {
    DivTimes(Sum(v), |v| as real);
  }

  lemma DivTimes(x: real, n: real)
    requires n != 0.0
    ensures n * (x / n) == x
  {
  }

  /** A line through the point of means has residuals summing to zero. */
  lemma CentredLine(sr: real, sy: real, sx: real, n: real, a: real, b: real, my: real, mx: real)
    requires sr == sy - (n * a + b * sx)
    requires sy == n * my && sx == n * mx && a == my - b * mx
    ensures sr == 0.0
  {
  }

  /** A zero sum of squared deviations means every value equals the centre. */
  lemma {:induction false} ZeroSpreadIsConstant(v: seq<real>, m: real)
    requires SquaredDeviation(v, m) == 0.0
    ensures forall k :: 0 <= k < |v| ==> v[k] == m
  {
    if v != [] {
      ZeroSpreadIsConstant(v[1..], m);
      forall k | 0 <= k < |v| ensures v[k] == m {
        if k > 0 { assert v[k] == v[1..][k - 1]; }
      }
    }
  }

  /**
   * When the residuals have zero spread, every residual is zero: the points
   * lie exactly on the fitted line.
   */
  lemma {:induction false} ZeroVarianceMeansExactFit(xs: seq<real>, ys: seq<real>)
    requires |xs| == |ys| > 0
    requires Variance(Residuals(xs, ys)) == 0.0
    ensures forall k :: 0 <= k < |xs| ==> Residuals(xs, ys)[k] == 0.0 && Fitted(xs, ys)[k] == ys[k]
  {
    var rs := Residuals(xs, ys);
    ResidualsMeanIsZero(xs, ys);
    ZeroSpreadIsConstant(rs, Mean(rs));
  }

  /** A sequence whose entries all equal c sums to |v| * c and has no spread around c. */
  lemma {:induction false} ConstantSequence(v: seq<real>, c: real)
    requires forall k :: 0 <= k < |v| ==> v[k] == c
    ensures Sum(v) == (|v| as real) * c
    ensures SquaredDeviation(v, c) == 0.0
  {
    if v != [] {
      ConstantSequence(v[1..], c);
      SquareIsProduct(v[0] - c);
    }
  }

  /**
   * When every x is the same the fitted line is flat at the mean of y
   * (the Sxx = 0 case, where the minimum-norm least-squares slope is 0).
   */
  lemma FlatGdpFitsMean(xs: seq<real>, ys: seq<real>)
    requires |xs| == |ys| > 0
    requires forall k :: 0 <= k < |xs| ==> xs[k] == xs[0]
    ensures Slope(xs, ys) == 0.0
    ensures forall k :: 0 <= k < |xs| ==> Fitted(xs, ys)[k] == Mean(ys)
  {
    ConstantSequence(xs, xs[0]);
    var n := |xs| as real;
    assert Mean(xs) == xs[0] by {
      assert Sum(xs) == n * xs[0];
      DivTimes(xs[0], n);
    }
  }

  lemma SquareIsProduct(x: real)
    ensures Square(x) == x * x
  {
  }

  lemma ProductPositive(x: real, y: real)
    requires x > 0.0 && y > 0.0
    ensures x * y > 0.0
  {
  }

  lemma SquareMonotone(a: real, b: real)
    requires a >= 0.0 && b >= 0.0
    ensures a > b <==> a * a > b * b
  {
    assert a * a - b * b == (a - b) * (a + b);
    if a > b {
      ProductPositive(a - b, a + b);
    } else if a < b {
      ProductPositive(b - a, b + a);
    }
  }

  /**
   * The squared-form flag agrees with the source's |r / std| > t for every
   * residual r of the slice, std being the non-negative square root of the
   * residual variance, including the zero-spread case where the source
   * compares NaN.
   */
  lemma {:induction false} MaskMatchesSourceTest(xs: seq<real>, ys: seq<real>, t: real, s: real, k: int)
    requires |xs| == |ys| > 0
    requires t >= 0.0 && s >= 0.0 && s * s == Variance(Residuals(xs, ys))
    requires 0 <= k < |xs|
    ensures OutlierMask(xs, ys, t)[k] == SourceFlag(Residuals(xs, ys)[k], s, t)
  {
    var rs := Residuals(xs, ys);
    assert OutlierMask(xs, ys, t)[k] == Exceeds(rs[k], Variance(rs), t);
    if s == 0.0 {
      ZeroVarianceMeansExactFit(xs, ys);
    } else {
      ScaledTestIsSquaredTest(rs[k], s, t, Variance(rs));
    }
  }

  /** For s > 0: |r| / s > t exactly when r^2 > t^2 s^2. */
  lemma ScaledTestIsSquaredTest(r: real, s: real, t: real, variance: real)
    requires t >= 0.0 && s > 0.0 && s * s == variance
    ensures SourceFlag(r, s, t) == Exceeds(r, variance, t)
  {
    var ar := if r < 0.0 then -r else r;
    assert ar * ar == r * r;
    ProductPositive(s, s);
    assert ar / s > t <==> ar > t * s by {
      DivTimes(ar, s);
      assert s * (ar / s) == ar;
      if ar / s > t {
        ProductPositive(s, ar / s - t);
      } else {
        assert t - ar / s >= 0.0;
        assert s * (t - ar / s) >= 0.0 by {
          if t - ar / s > 0.0 { ProductPositive(s, t - ar / s); }
        }
      }
    }
    assert t * s >= 0.0 by {
      if t > 0.0 { ProductPositive(t, s); }
    }
    SquareMonotone(ar, t * s);
    assert (t * s) * (t * s) == t * t * variance;
  }

  /** With a single row the fitted value is the row's own value and nothing is flagged. */
  lemma {:induction false} SingleRowIsNeverOutlier(xs: seq<real>, ys: seq<real>, t: real)
    requires |xs| == |ys| == 1
    ensures Fitted(xs, ys) == ys
    ensures OutlierMask(xs, ys, t) == [false]
  {
    assert xs[1..] == [] && ys[1..] == [];
    assert Sum(xs) == xs[0] && Sum(ys) == ys[0];
    assert SquaredDeviation(xs, Mean(xs)) == 0.0;
    assert Fitted(xs, ys)[0] == ys[0];
    var rs := Residuals(xs, ys);
    assert rs == [0.0];
    assert rs[1..] == [];
    assert Sum(rs) == 0.0;
    assert SquaredDeviation(rs, Mean(rs)) == 0.0;
  }

  /** An outlier's residual is never zero, whatever the threshold. */
  lemma ExceedsIsNonZero(r: real, variance: real, t: real)
    requires Exceeds(r, variance, t)
    ensures r != 0.0
    ensures r > 0.0 || r < 0.0
  {
    assert t * t >= 0.0;
    assert t * t * variance >= 0.0;
  }
}
