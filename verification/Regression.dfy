/**
 The statistics of the plotting scripts over exact reals: least squares and Pearson's
 correlation.
 */
module Regression {
  import opened Common

  datatype Line = Line(slope: real, intercept: real, rSquared: Option<real>)

  function Sum(xs: seq<real>): real {
    if xs == [] then 0.0 else Sum(xs[..|xs| - 1]) + xs[|xs| - 1]
  }

  function Mean(xs: seq<real>): real
    requires xs != []
  {
    Sum(xs) / |xs| as real
  }

  /** Sum of (x - u) * (y - v) over the pairs. */
  function Cross(xs: seq<real>, ys: seq<real>, u: real, v: real): real
    requires |xs| == |ys|
  {
    if xs == [] then 0.0 else
    var n := |xs| - 1;
    Cross(xs[..n], ys[..n], u, v) + (xs[n] - u) * (ys[n] - v)
  }

  /** x ** 2 */
  function Sq(x: real): real {
    x * x
  }

  /** The height of a line at x. */
  function At(slope: real, intercept: real, x: real): real {
    slope * x + intercept
  }

  /** Sum of squared residuals of a line. */
  function Residual(xs: seq<real>, ys: seq<real>, slope: real, intercept: real): real
    requires |xs| == |ys|
  {
    if xs == [] then 0.0 else
    var n := |xs| - 1;
    Residual(xs[..n], ys[..n], slope, intercept) + Sq(ys[n] - At(slope, intercept, xs[n]))
  }

  function LinearRegression(xs: seq<real>, ys: seq<real>): Option<Line> {
    if |xs| != |ys| || |xs| < 2 then None else
    var xMean, yMean := Mean(xs), Mean(ys);
    var denom := Cross(xs, xs, xMean, xMean);
    if denom == 0.0 then None else
    var slope := Cross(xs, ys, xMean, yMean) / denom;
    var intercept := yMean - slope * xMean;
    var totalVar := Cross(ys, ys, yMean, yMean);
    Some(Line(slope, intercept,
              if totalVar == 0.0 then None
              else Some(Clamp(1.0 - Residual(xs, ys, slope, intercept) / totalVar))))
  }

  /** max(0.0, x) */
  function Clamp(x: real): real {
    if x < 0.0 then 0.0 else x
  }

  /** `sqrt` is the real square root. */
  ghost predicate IsSqrt(sqrt: real -> real) {
    forall x | x >= 0.0 :: sqrt(x) >= 0.0 && sqrt(x) * sqrt(x) == x
  }

  function PearsonCorrelation(sqrt: real -> real, xs: seq<real>, ys: seq<real>): Option<real> {
    if |xs| != |ys| || |xs| < 2 then None else
    var xMean, yMean := Mean(xs), Mean(ys);
    var num := Cross(xs, ys, xMean, yMean);
    var xDen, yDen := sqrt(Cross(xs, xs, xMean, xMean)), sqrt(Cross(ys, ys, yMean, yMean));
    if xDen == 0.0 || yDen == 0.0 then None else Some(Ratio(num, xDen, yDen))
  }

  function Ratio(num: real, xDen: real, yDen: real): real
    requires xDen != 0.0 && yDen != 0.0
  {
    assert xDen * yDen != 0.0;
    num / (xDen * yDen)
  }

  // ----- the expansion everything follows from

  /** The residual of a line as a polynomial in its slope m and its offset c from the centre (u, v). */
  ghost function Quadratic(n: real, yy: real, xy: real, xx: real, sy: real, sx: real, u: real, v: real, m: real,
                           c: real): real {
    yy - 2.0 * m * xy + m * m * xx + n * c * c - 2.0 * c * (sy - n * v) + 2.0 * m * c * (sx - n * u)
  }

  ghost function Times(x: real, y: real): real {
    x * y
  }

  lemma QuadraticStep(n: real, yy: real, xy: real, xx: real, sy: real, sx: real, u: real, v: real, m: real, c: real,
                      x: real, y: real)
    ensures var dx, dy := x - u, y - v;
            Quadratic(n + 1.0, yy + Times(dy, dy), xy + Times(dx, dy), xx + Times(dx, dx), sy + y, sx + x, u, v, m, c)
            == Quadratic(n, yy, xy, xx, sy, sx, u, v, m, c) + Times(dy - Times(m, dx) - c, dy - Times(m, dx) - c)
  {
    var dx, dy := x - u, y - v;
    Square(dy, dx, m, c);
    ExpandStep(n, c, m, yy, xy, xx, sy, sx, u, v, x, y);
  }

  lemma CrossNext(xs: seq<real>, ys: seq<real>, u: real, v: real)
    requires |xs| == |ys| > 0
    ensures var n := |xs| - 1; Cross(xs, ys, u, v) == Cross(xs[..n], ys[..n], u, v) + Times(xs[n] - u, ys[n] - v)
  {
  }

  lemma ResidualNext(xs: seq<real>, ys: seq<real>, u: real, v: real, m: real, b: real, c: real)
    requires |xs| == |ys| > 0 && c == b + m * u - v
    ensures var n := |xs| - 1;
            var r := (ys[n] - v) - Times(m, xs[n] - u) - c;
            Residual(xs, ys, m, b) == Residual(xs[..n], ys[..n], m, b) + Times(r, r)
  {
    hide Times, Sq, At;
    Deviation(xs[|xs| - 1], ys[|xs| - 1], u, v, m, b, c);
  }

  lemma Deviation(x: real, y: real, u: real, v: real, m: real, b: real, c: real)
    requires c == b + m * u - v
    ensures var r := (y - v) - Times(m, x - u) - c;
            Sq(y - At(m, b, x)) == Times(r, r)
  {
  }

  lemma Square(dy: real, dx: real, m: real, c: real)
    ensures (dy - m * dx - c) * (dy - m * dx - c)
            == dy * dy - 2.0 * m * (dx * dy) + m * m * (dx * dx) + c * c - 2.0 * c * dy + 2.0 * m * c * dx
  {
  }

  lemma ExpandStep(n: real, c: real, m: real, yy: real, xy: real, xx: real, sy: real, sx: real,
                   u: real, v: real, x: real, y: real)
    ensures var dx, dy := x - u, y - v;
            Quadratic(n + 1.0, yy + dy * dy, xy + dx * dy, xx + dx * dx, sy + y, sx + x, u, v, m, c)
            == Quadratic(n, yy, xy, xx, sy, sx, u, v, m, c)
               + (dy * dy - 2.0 * m * (dx * dy) + m * m * (dx * dx) + c * c - 2.0 * c * dy + 2.0 * m * c * dx)
  {
  }

  /** The residual of every line, from the sums about any centre. */
  lemma {:induction false} ResidualExpanded(xs: seq<real>, ys: seq<real>, u: real, v: real, m: real, b: real)
    requires |xs| == |ys|
    ensures Residual(xs, ys, m, b)
            == Quadratic(|xs| as real, Cross(ys, ys, v, v), Cross(xs, ys, u, v), Cross(xs, xs, u, u), Sum(ys), Sum(xs),
                         u, v, m, b + m * u - v)
  {
    hide Quadratic, Cross, Residual, Times;
    if xs == [] {
      NoPoints(u, v, m, b, b + m * u - v);
    } else {
      var n := |xs| - 1;
      var c := b + m * u - v;
      ResidualExpanded(xs[..n], ys[..n], u, v, m, b);
      ResidualNext(xs, ys, u, v, m, b, c);
      CrossNext(ys, ys, v, v);
      CrossNext(xs, ys, u, v);
      CrossNext(xs, xs, u, u);
      QuadraticStep(n as real, Cross(ys[..n], ys[..n], v, v), Cross(xs[..n], ys[..n], u, v),
                    Cross(xs[..n], xs[..n], u, u),
                    Sum(ys[..n]), Sum(xs[..n]), u, v, m, c, xs[n], ys[n]);
    }
  }

  lemma NoPoints(u: real, v: real, m: real, b: real, c: real)
    ensures Residual([], [], m, b) == 0.0 == Quadratic(0.0, 0.0, 0.0, 0.0, 0.0, 0.0, u, v, m, c)
    ensures Cross([], [], v, v) == Cross([], [], u, v) == Cross([], [], u, u) == 0.0
  {
  }

  // ----- least squares

  /** About the means, the residual is the least one plus a square for the slope and one for the offset. */
  lemma ResidualAboutMeans(xs: seq<real>, ys: seq<real>, m: real, b: real)
    requires |xs| == |ys| >= 2 && LinearRegression(xs, ys).Some?
    ensures var line := LinearRegression(xs, ys).value;
            var xx := Cross(xs, xs, Mean(xs), Mean(xs));
            var dm, dc := m - line.slope, b + m * Mean(xs) - Mean(ys);
            xx != 0.0
            && Residual(xs, ys, m, b)
               == Cross(ys, ys, Mean(ys), Mean(ys)) - line.slope * Cross(xs, ys, Mean(xs), Mean(ys))
                  + xx * (dm * dm) + |xs| as real * (dc * dc)
  {
    hide Cross, Residual, Quadratic, LinearRegression, Mean;
    var u, v := Mean(xs), Mean(ys);
    var n, xx, xy, yy := |xs| as real, Cross(xs, xs, u, u), Cross(xs, ys, u, v), Cross(ys, ys, v, v);
    var slope := LinearRegression(xs, ys).value.slope;
    ResidualExpanded(xs, ys, u, v, m, b);
    MeanIs(xs);
    MeanIs(ys);
    LineIs(xs, ys);
    CompleteSquare(n, yy, xy, xx, Sum(ys), Sum(xs), u, v, m, b + m * u - v, slope);
  }

  lemma MeanIs(xs: seq<real>)
    requires xs != []
    ensures Sum(xs) == |xs| as real * Mean(xs)
  {
  }

  lemma LineIs(xs: seq<real>, ys: seq<real>)
    requires LinearRegression(xs, ys).Some?
    ensures |xs| == |ys| >= 2
    ensures var line, u, v := LinearRegression(xs, ys).value, Mean(xs), Mean(ys);
            Cross(xs, xs, u, u) != 0.0 && line.slope * Cross(xs, xs, u, u) == Cross(xs, ys, u, v)
            && line.intercept + line.slope * u - v == 0.0
  {
    hide Cross, Residual, Mean;
    var u, v := Mean(xs), Mean(ys);
    Quotient(Cross(xs, ys, u, v), Cross(xs, xs, u, u));
  }

  lemma Quotient(x: real, y: real)
    requires y != 0.0
    ensures x / y * y == x
  {
  }

  lemma CompleteSquare(n: real, yy: real, xy: real, xx: real, sy: real, sx: real, u: real, v: real, m: real, c: real,
                       slope: real)
    requires slope * xx == xy && sy == n * v && sx == n * u
    ensures var dm := m - slope;
            Quadratic(n, yy, xy, xx, sy, sx, u, v, m, c) == yy - slope * xy + xx * (dm * dm) + n * (c * c)
  {
    var dm := m - slope;
    assert xx * (dm * dm) == m * m * xx - 2.0 * m * (slope * xx) + slope * (slope * xx);
  }

  lemma {:induction false} CrossSelf(xs: seq<real>, u: real)
    ensures Cross(xs, xs, u, u) >= 0.0
    ensures Cross(xs, xs, u, u) == 0.0 <==> forall i | 0 <= i < |xs| :: xs[i] == u
  {
    if xs == [] {
    } else {
      var n := |xs| - 1;
      hide Cross, Times;
      CrossSelf(xs[..n], u);
      CrossNext(xs, xs, u, u);
      TimesSquare(xs[n] - u);
      if forall i | 0 <= i < n :: xs[i] == u {
        assert forall i | 0 <= i < n :: xs[..n][i] == u;
      } else {
        var i :| 0 <= i < n && xs[i] != u;
        assert xs[..n][i] != u;
      }
    }
  }

  lemma NonNegative(x: real)
    ensures x * x >= 0.0 && (x * x == 0.0 <==> x == 0.0)
  {
    if x > 0.0 {
      Scale(x, x);
    } else if x < 0.0 {
      Scale(-x, -x);
    }
  }

  /** The fitted line leaves a smaller sum of squared residuals than every other line. */
  lemma LeastSquares(xs: seq<real>, ys: seq<real>, m: real, b: real)
    ensures LinearRegression(xs, ys).Some? ==>
              var line := LinearRegression(xs, ys).value;
              |xs| == |ys| && Residual(xs, ys, line.slope, line.intercept) <= Residual(xs, ys, m, b)
              && (Residual(xs, ys, line.slope, line.intercept) == Residual(xs, ys, m, b)
                  <==> m == line.slope && b == line.intercept)
  {
    hide Cross, Residual, LinearRegression, Mean;
    if LinearRegression(xs, ys).Some? {
      LineIs(xs, ys);
      var line, u, v := LinearRegression(xs, ys).value, Mean(xs), Mean(ys);
      var xx, n := Cross(xs, xs, u, u), |xs| as real;
      ResidualAboutMeans(xs, ys, m, b);
      ResidualAboutMeans(xs, ys, line.slope, line.intercept);
      CrossSelf(xs, u);
      var dm, dc := m - line.slope, b + m * u - v;
      Excess(xx, n, dm, dc);
      if dm == 0.0 && dc == 0.0 {
        assert m == line.slope;
      }
      assert m == line.slope && b == line.intercept ==> dc == 0.0;
    }
  }

  lemma Excess(xx: real, n: real, dm: real, dc: real)
    requires xx > 0.0 && n > 0.0
    ensures xx * (dm * dm) + n * (dc * dc) >= 0.0
    ensures xx * (dm * dm) + n * (dc * dc) == 0.0 <==> dm == 0.0 && dc == 0.0
  {
    NonNegative(dm);
    NonNegative(dc);
    Scale(xx, dm * dm);
    Scale(n, dc * dc);
  }

  lemma Scale(k: real, x: real)
    requires k > 0.0 && x >= 0.0
    ensures k * x >= 0.0 && (k * x == 0.0 <==> x == 0.0)
  {
  }

  /** No line is fitted exactly when the inputs do not pair up, are fewer than two, or share one x. */
  lemma FitsExactlyWhen(xs: seq<real>, ys: seq<real>)
    ensures LinearRegression(xs, ys).Some?
            <==> |xs| == |ys| >= 2 && exists i, k | 0 <= i < k < |xs| :: xs[i] != xs[k]
  {
    if |xs| == |ys| >= 2 {
      var u := Mean(xs);
      CrossSelf(xs, u);
      if forall i | 0 <= i < |xs| :: xs[i] == xs[0] {
        ConstantSum(xs, xs[0]);
        assert forall i | 0 <= i < |xs| :: xs[i] == u by {
          MeanIs(xs);
          Cancel(|xs| as real, xs[0], u);
        }
      } else {
        var i :| 0 <= i < |xs| && xs[i] != xs[0];
        assert xs[0] != xs[i] && 0 < i;
        assert xs[0] != u || xs[i] != u;
      }
    }
  }

  lemma {:induction false} ConstantSum(xs: seq<real>, x: real)
    requires forall i | 0 <= i < |xs| :: xs[i] == x
    ensures Sum(xs) == |xs| as real * x
  {
    if xs == [] {
    } else {
      ConstantSum(xs[..|xs| - 1], x);
    }
  }

  lemma Cancel(n: real, x: real, y: real)
    requires n > 0.0 && n * x == n * y
    ensures x == y
  {
    assert n * (x - y) == 0.0;
  }

  // ----- r squared and the correlation

  /** Without the clamp, r squared is the squared cross sum over both square sums. */
  lemma RSquaredIs(xs: seq<real>, ys: seq<real>)
    requires LinearRegression(xs, ys).Some? && LinearRegression(xs, ys).value.rSquared.Some?
    ensures |xs| == |ys| >= 2
    ensures var line, u, v := LinearRegression(xs, ys).value, Mean(xs), Mean(ys);
            var xx, xy, yy := Cross(xs, xs, u, u), Cross(xs, ys, u, v), Cross(ys, ys, v, v);
            var raw := if yy == 0.0 then 0.0 else 1.0 - Residual(xs, ys, line.slope, line.intercept) / yy;
            xx > 0.0 && yy > 0.0 && raw * (xx * yy) == xy * xy && 0.0 <= raw <= 1.0 && line.rSquared == Some(raw)
  {
    hide Cross, Residual, LinearRegression, Mean;
    LineIs(xs, ys);
    var line, u, v := LinearRegression(xs, ys).value, Mean(xs), Mean(ys);
    var xx, xy, yy := Cross(xs, xs, u, u), Cross(xs, ys, u, v), Cross(ys, ys, v, v);
    var res := Residual(xs, ys, line.slope, line.intercept);
    RSquaredDefinition(xs, ys);
    CrossSelf(xs, u);
    CrossSelf(ys, v);
    ResidualAboutMeans(xs, ys, line.slope, line.intercept);
    ResidualNonNegative(xs, ys, line.slope, line.intercept);
    Share(res, xx, xy, yy, line.slope);
  }

  lemma PearsonDefinition(sqrt: real -> real, xs: seq<real>, ys: seq<real>)
    requires |xs| == |ys| >= 2
    ensures var u, v := Mean(xs), Mean(ys);
            var xx, xy, yy := Cross(xs, xs, u, u), Cross(xs, ys, u, v), Cross(ys, ys, v, v);
            var r := PearsonCorrelation(sqrt, xs, ys);
            (r.Some? <==> sqrt(xx) != 0.0 && sqrt(yy) != 0.0)
            && (r.Some? ==> r.value == Ratio(xy, sqrt(xx), sqrt(yy)))
            && (LinearRegression(xs, ys).Some? <==> xx != 0.0)
            && (xx != 0.0 ==> (LinearRegression(xs, ys).value.rSquared.Some? <==> yy != 0.0))
  {
    hide Cross, Residual, Mean, Ratio;
  }

  lemma RSquaredDefinition(xs: seq<real>, ys: seq<real>)
    requires LinearRegression(xs, ys).Some? && LinearRegression(xs, ys).value.rSquared.Some?
    ensures |xs| == |ys| >= 2
    ensures var line := LinearRegression(xs, ys).value;
            var yy := Cross(ys, ys, Mean(ys), Mean(ys));
            yy != 0.0 && line.rSquared == Some(Clamp(1.0 - Residual(xs, ys, line.slope, line.intercept) / yy))
  {
  }

  lemma {:induction false} ResidualNonNegative(xs: seq<real>, ys: seq<real>, m: real, b: real)
    requires |xs| == |ys|
    ensures Residual(xs, ys, m, b) >= 0.0
  {
    hide Residual, Times;
    NoPoints(0.0, 0.0, m, b, b);
    assert xs == [] ==> ys == [];
    if xs == [] {
    } else {
      var n := |xs| - 1;
      ResidualNonNegative(xs[..n], ys[..n], m, b);
      ResidualNext(xs, ys, 0.0, 0.0, m, b, b);
      TimesSquare((ys[n] - 0.0) - Times(m, xs[n] - 0.0) - b);
    }
  }

  lemma TimesSquare(x: real)
    ensures Times(x, x) >= 0.0 && (Times(x, x) == 0.0 <==> x == 0.0)
  {
    NonNegative(x);
  }

  lemma Share(res: real, xx: real, xy: real, yy: real, slope: real)
    requires xx > 0.0 && yy > 0.0 && slope * xx == xy && res == yy - slope * xy && res >= 0.0
    ensures var raw := 1.0 - res / yy; raw * (xx * yy) == xy * xy && 0.0 <= raw <= 1.0
  {
    var raw := 1.0 - res / yy;
    Quotient(res, yy);
    assert raw * yy == slope * xy;
    assert raw * (xx * yy) == (raw * yy) * xx == slope * xy * xx == (slope * xx) * xy == xy * xy;
    NonNegative(xy);
    Scale(xx, yy);
    assert (raw - 1.0) * yy == -res;
    if raw < 0.0 {
      Scale(-raw, xx * yy);
    }
    if raw > 1.0 {
      Scale(raw - 1.0, yy);
    }
  }

  /**
   The clamp never fires, r squared lies in [0, 1], and it is the square of the correlation, which
   lies in [-1, 1] and has the sign of the slope.
   */
  lemma RSquaredIsSquaredCorrelation(sqrt: real -> real, xs: seq<real>, ys: seq<real>)
    requires IsSqrt(sqrt)
    ensures PearsonCorrelation(sqrt, xs, ys).Some?
            <==> LinearRegression(xs, ys).Some? && LinearRegression(xs, ys).value.rSquared.Some?
    ensures PearsonCorrelation(sqrt, xs, ys).Some? ==>
              var r, line := PearsonCorrelation(sqrt, xs, ys).value, LinearRegression(xs, ys).value;
              var yy := Cross(ys, ys, Mean(ys), Mean(ys));
              -1.0 <= r <= 1.0 && line.rSquared == Some(Sq(r)) && yy != 0.0
              && 1.0 - Residual(xs, ys, line.slope, line.intercept) / yy == Sq(r)
              && (r > 0.0 <==> line.slope > 0.0) && (r < 0.0 <==> line.slope < 0.0)
  {
    if |xs| == |ys| >= 2 {
      hide *;
      CorrelationExists(sqrt, xs, ys);
      if PearsonCorrelation(sqrt, xs, ys).Some? {
        CorrelationValue(sqrt, xs, ys);
        CorrelationIsScaledSlope(sqrt, xs, ys);
      }
    }
  }

  lemma CorrelationExists(sqrt: real -> real, xs: seq<real>, ys: seq<real>)
    requires IsSqrt(sqrt) && |xs| == |ys| >= 2
    ensures PearsonCorrelation(sqrt, xs, ys).Some?
            <==> LinearRegression(xs, ys).Some? && LinearRegression(xs, ys).value.rSquared.Some?
  {
    hide *;
    var xx, yy := Cross(xs, xs, Mean(xs), Mean(xs)), Cross(ys, ys, Mean(ys), Mean(ys));
    CrossSelf(xs, Mean(xs));
    CrossSelf(ys, Mean(ys));
    RootZero(sqrt, xx);
    RootZero(sqrt, yy);
    PearsonDefinition(sqrt, xs, ys);
  }

  lemma CorrelationValue(sqrt: real -> real, xs: seq<real>, ys: seq<real>)
    requires IsSqrt(sqrt) && |xs| == |ys| >= 2 && PearsonCorrelation(sqrt, xs, ys).Some?
    requires LinearRegression(xs, ys).Some? && LinearRegression(xs, ys).value.rSquared.Some?
    ensures var r, line := PearsonCorrelation(sqrt, xs, ys).value, LinearRegression(xs, ys).value;
            var yy := Cross(ys, ys, Mean(ys), Mean(ys));
            -1.0 <= r <= 1.0 && line.rSquared == Some(Sq(r)) && yy != 0.0
            && 1.0 - Residual(xs, ys, line.slope, line.intercept) / yy == Sq(r)
  {
    hide *;
    var u, v := Mean(xs), Mean(ys);
    var xx, xy, yy := Cross(xs, xs, u, u), Cross(xs, ys, u, v), Cross(ys, ys, v, v);
    RSquaredIs(xs, ys);
    RootZero(sqrt, xx);
    RootZero(sqrt, yy);
    PearsonDefinition(sqrt, xs, ys);
    var line := LinearRegression(xs, ys).value;
    CorrelationSquared(sqrt(xx), sqrt(yy), xx, xy, yy, 1.0 - Residual(xs, ys, line.slope, line.intercept) / yy);
  }

  lemma RootZero(sqrt: real -> real, x: real)
    requires IsSqrt(sqrt) && x >= 0.0
    ensures sqrt(x) == 0.0 <==> x == 0.0
    ensures sqrt(x) >= 0.0 && sqrt(x) * sqrt(x) == x
  {
    NonNegative(sqrt(x));
  }

  lemma CorrelationSquared(sx: real, sy: real, xx: real, xy: real, yy: real, raw: real)
    requires sx > 0.0 && sy > 0.0 && sx * sx == xx && sy * sy == yy && raw * (xx * yy) == xy * xy && 0.0 <= raw <= 1.0
    ensures var r := Ratio(xy, sx, sy); Sq(r) == raw && -1.0 <= r <= 1.0
  {
    Scale(sx, sy);
    var d := sx * sy;
    var r := Ratio(xy, sx, sy);
    Quotient(xy, d);
    Regroup(sx, sy);
    NonNegative(d);
    SquareOfRatio(r, d, xy, raw, xx * yy);
    Cancel(d * d, r * r, raw);
    if r > 1.0 {
      Scale(r - 1.0, r);
    } else if r < -1.0 {
      Scale(-r - 1.0, -r);
    }
  }

  /** The correlation is the slope in units of the two deviations, and so has its sign. */
  lemma CorrelationIsScaledSlope(sqrt: real -> real, xs: seq<real>, ys: seq<real>)
    requires IsSqrt(sqrt) && PearsonCorrelation(sqrt, xs, ys).Some?
    ensures |xs| == |ys| >= 2 && LinearRegression(xs, ys).Some?
    ensures var r, slope := PearsonCorrelation(sqrt, xs, ys).value, LinearRegression(xs, ys).value.slope;
            r * sqrt(Cross(ys, ys, Mean(ys), Mean(ys))) == slope * sqrt(Cross(xs, xs, Mean(xs), Mean(xs)))
            && (r > 0.0 <==> slope > 0.0) && (r < 0.0 <==> slope < 0.0)
  {
    hide *;
    Paired(sqrt, xs, ys);
    Deviations(sqrt, xs, ys);
    var u, v := Mean(xs), Mean(ys);
    var xx, xy, yy := Cross(xs, xs, u, u), Cross(xs, ys, u, v), Cross(ys, ys, v, v);
    RatioScales(sqrt(xx), sqrt(yy), xx, xy, LinearRegression(xs, ys).value.slope);
  }

  lemma Deviations(sqrt: real -> real, xs: seq<real>, ys: seq<real>)
    requires IsSqrt(sqrt) && PearsonCorrelation(sqrt, xs, ys).Some? && |xs| == |ys| >= 2
    requires LinearRegression(xs, ys).Some?
    ensures var u, v := Mean(xs), Mean(ys);
            var xx, xy, yy := Cross(xs, xs, u, u), Cross(xs, ys, u, v), Cross(ys, ys, v, v);
            sqrt(xx) > 0.0 && sqrt(yy) > 0.0 && sqrt(xx) * sqrt(xx) == xx
            && LinearRegression(xs, ys).value.slope * xx == xy
            && PearsonCorrelation(sqrt, xs, ys).value == Ratio(xy, sqrt(xx), sqrt(yy))
  {
    hide *;
    CrossSelf(xs, Mean(xs));
    CrossSelf(ys, Mean(ys));
    RootZero(sqrt, Cross(xs, xs, Mean(xs), Mean(xs)));
    RootZero(sqrt, Cross(ys, ys, Mean(ys), Mean(ys)));
    PearsonDefinition(sqrt, xs, ys);
    LineIs(xs, ys);
  }

  lemma Paired(sqrt: real -> real, xs: seq<real>, ys: seq<real>)
    requires IsSqrt(sqrt) && PearsonCorrelation(sqrt, xs, ys).Some?
    ensures |xs| == |ys| >= 2 && LinearRegression(xs, ys).Some? && LinearRegression(xs, ys).value.rSquared.Some?
  {
    hide Cross, Mean, Ratio, IsSqrt, LinearRegression;
    CorrelationExists(sqrt, xs, ys);
  }

  lemma RatioScales(sx: real, sy: real, xx: real, xy: real, slope: real)
    requires sx > 0.0 && sy > 0.0 && sx * sx == xx && slope * xx == xy
    ensures var r := Ratio(xy, sx, sy);
            r * sy == slope * sx && (r > 0.0 <==> slope > 0.0) && (r < 0.0 <==> slope < 0.0)
  {
    Scale(sx, sy);
    var r := Ratio(xy, sx, sy);
    Quotient(xy, sx * sy);
    assert sx * (r * sy) == sx * (slope * sx);
    Cancel(sx, r * sy, slope * sx);
    SameSign(r, sy);
    SameSign(slope, sx);
  }

  lemma SameSign(x: real, k: real)
    requires k > 0.0
    ensures (x * k > 0.0 <==> x > 0.0) && (x * k < 0.0 <==> x < 0.0)
  {
    if x >= 0.0 {
      Scale(k, x);
    } else {
      Scale(k, -x);
    }
  }

  /** All points lie on a line. */
  ghost predicate OnLine(xs: seq<real>, ys: seq<real>, slope: real, intercept: real)
    requires |xs| == |ys|
  {
    forall i | 0 <= i < |xs| :: ys[i] == At(slope, intercept, xs[i])
  }

  lemma {:induction false} NoResidual(xs: seq<real>, ys: seq<real>, m: real, b: real)
    requires |xs| == |ys|
    ensures Residual(xs, ys, m, b) == 0.0 <==> OnLine(xs, ys, m, b)
  {
    if xs == [] {
    } else {
      var n := |xs| - 1;
      hide At;
      NoResidual(xs[..n], ys[..n], m, b);
      ResidualNonNegative(xs[..n], ys[..n], m, b);
      NonNegative(ys[n] - At(m, b, xs[n]));
      assert OnLine(xs, ys, m, b) <==> OnLine(xs[..n], ys[..n], m, b) && ys[n] == At(m, b, xs[n]) by {
        assert forall i | 0 <= i < n :: xs[..n][i] == xs[i] && ys[..n][i] == ys[i];
      }
    }
  }

  /** The correlation is 1 exactly when all points lie on a rising line, and -1 exactly when on a falling one. */
  lemma PerfectCorrelation(sqrt: real -> real, xs: seq<real>, ys: seq<real>)
    requires IsSqrt(sqrt) && PearsonCorrelation(sqrt, xs, ys).Some?
    ensures |xs| == |ys|
    ensures PearsonCorrelation(sqrt, xs, ys).value == 1.0 <==> exists m, b :: m > 0.0 && OnLine(xs, ys, m, b)
    ensures PearsonCorrelation(sqrt, xs, ys).value == -1.0 <==> exists m, b :: m < 0.0 && OnLine(xs, ys, m, b)
  {
    hide *;
    Paired(sqrt, xs, ys);
    CorrelationIsScaledSlope(sqrt, xs, ys);
    RSquaredIsSquaredCorrelation(sqrt, xs, ys);
    var r, line := PearsonCorrelation(sqrt, xs, ys).value, LinearRegression(xs, ys).value;
    NoResidual(xs, ys, line.slope, line.intercept);
    ShareZero(Residual(xs, ys, line.slope, line.intercept), Cross(ys, ys, Mean(ys), Mean(ys)), r);
    forall m, b | OnLine(xs, ys, m, b) ensures m == line.slope && Residual(xs, ys, line.slope, line.intercept) == 0.0 {
      NoResidual(xs, ys, m, b);
      LeastSquares(xs, ys, m, b);
      ResidualNonNegative(xs, ys, line.slope, line.intercept);
    }
  }

  lemma ShareZero(res: real, yy: real, r: real)
    requires yy != 0.0 && 1.0 - res / yy == Sq(r)
    ensures res == 0.0 <==> r == 1.0 || r == -1.0
  {
    Quotient(res, yy);
    if res == 0.0 {
      assert (r - 1.0) * (r + 1.0) == 0.0;
    }
  }

  lemma SquareOfRatio(r: real, d: real, xy: real, raw: real, q: real)
    requires r * d == xy && d * d == q && raw * q == xy * xy
    ensures (d * d) * (r * r) == (d * d) * raw
  {
    calc {
      (d * d) * (r * r);
    == { Regroup(d, r); }
      (d * r) * (d * r);
    == { assert d * r == xy; SquareEqual(d * r, xy); }
      xy * xy;
    ==
      q * raw;
    == { MulEqual(raw, d * d, q); }
      (d * d) * raw;
    }
  }

  lemma MulEqual(x: real, y: real, z: real)
    requires y == z
    ensures x * y == x * z
  {
  }

  lemma SquareEqual(x: real, y: real)
    requires x == y
    ensures x * x == y * y
  {
  }

  lemma Regroup(x: real, y: real)
    ensures (x * y) * (x * y) == (x * x) * (y * y)
  {
  }
}
