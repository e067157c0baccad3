/**
 Ordinary least squares over two equally long sequences.

 Three places fit the same line: the trend of a series (series.go), the order effect
 (describe.go) and the throughput/CPU correlation (gates.go).  They share the sums below.
 */
module LeastSquares {

  function Sum(xs: seq<real>): real {
    if xs == [] then 0.0 else Sum(xs[..|xs| - 1]) + xs[|xs| - 1]
  }

  function Mean(xs: seq<real>): real
    requires xs != []
  {
    Sum(xs) / |xs| as real
  }

  /** The sum of (xs[i] - cx) * (ys[i] - cy). */
  function CoDev(xs: seq<real>, cx: real, ys: seq<real>, cy: real): real
    requires |xs| == |ys|
  {
    if xs == [] then 0.0
    else
      var n := |xs| - 1;
      CoDev(xs[..n], cx, ys[..n], cy) + Times(xs[n] - cx, ys[n] - cy)
  }

  /** The sum of squared residuals of ys against the line a + b * x. */
  function Residuals(xs: seq<real>, ys: seq<real>, a: real, b: real): real
    requires |xs| == |ys|
  {
    if xs == [] then 0.0
    else
      var n := |xs| - 1;
      Residuals(xs[..n], ys[..n], a, b) + Times(ys[n] - Line(a, b, xs[n]), ys[n] - Line(a, b, xs[n]))
  }

  // Products are named so that proofs about sums can leave them unopened.
  function Times(x: real, y: real): real { x * y }

  function Line(a: real, b: real, x: real): real { a + b * x }

  datatype Moments = Moments(mx: real, my: real, sxy: real, sxx: real, syy: real)

  function MomentsOf(xs: seq<real>, ys: seq<real>): Moments
    requires |xs| == |ys| > 0
  {
    var mx, my := Mean(xs), Mean(ys);
    Moments(mx, my, CoDev(xs, mx, ys, my), CoDev(xs, mx, xs, mx), CoDev(ys, my, ys, my))
  }

  /** The fitted gradient and, through the point of means, the intercept. */
  function Gradient(m: Moments): real
    requires m.sxx != 0.0
  {
    m.sxy / m.sxx
  }

  function Intercept(m: Moments): real
    requires m.sxx != 0.0
  {
    m.my - Times(Gradient(m), m.mx)
  }

  /** r squared for r = sxy / sqrt(sxx * syy), without the root; 1 for a flat ys, as the callers have it. */
  function Determination(m: Moments): real
    requires m.sxx != 0.0
  {
    if m.syy == 0.0 then 1.0 else Times(m.sxy / m.sxx, m.sxy / m.syy)
  }

  // ---------- the loops ----------

  lemma SumStep(xs: seq<real>, i: nat)
    requires i < |xs|
    ensures Sum(xs[..i + 1]) == Sum(xs[..i]) + xs[i]
  {
    assert xs[..i + 1][..i] == xs[..i];
  }

  lemma CoDevStep(xs: seq<real>, cx: real, ys: seq<real>, cy: real, i: nat)
    requires i < |xs| == |ys|
    ensures CoDev(xs[..i + 1], cx, ys[..i + 1], cy) == CoDev(xs[..i], cx, ys[..i], cy) + Times(xs[i] - cx, ys[i] - cy)
  {
    assert xs[..i + 1][..i] == xs[..i] && ys[..i + 1][..i] == ys[..i];
  }

  /** `for i := range values { s += values[i] }` */
  method ComputeSum(xs: seq<real>) returns (s: real)
    ensures s == Sum(xs)
  {
    s := 0.0;
    for i := 0 to |xs|
      invariant s == Sum(xs[..i])
    {
      SumStep(xs, i);
      s := s + xs[i];
    }
    assert xs[..|xs|] == xs;
  }

  /** The second pass: the centred products, accumulated together. */
  method ComputeProducts(xs: seq<real>, mx: real, ys: seq<real>, my: real) returns (sxy: real, sxx: real, syy: real)
    requires |xs| == |ys|
    ensures sxy == CoDev(xs, mx, ys, my) && sxx == CoDev(xs, mx, xs, mx) && syy == CoDev(ys, my, ys, my)
  {
    sxy, sxx, syy := 0.0, 0.0, 0.0;
    for i := 0 to |xs|
      invariant sxy == CoDev(xs[..i], mx, ys[..i], my)
      invariant sxx == CoDev(xs[..i], mx, xs[..i], mx)
      invariant syy == CoDev(ys[..i], my, ys[..i], my)
    {
      CoDevStep(xs, mx, ys, my, i);
      CoDevStep(xs, mx, xs, mx, i);
      CoDevStep(ys, my, ys, my, i);
      hide *;
      var dx, dy := xs[i] - mx, ys[i] - my;
      sxy, sxx, syy := sxy + Times(dx, dy), sxx + Times(dx, dx), syy + Times(dy, dy);
    }
    assert xs[..|xs|] == xs && ys[..|ys|] == ys;
  }

  /** The two passes every caller runs: the means first, then the centred products. */
  method ComputeMoments(xs: seq<real>, ys: seq<real>) returns (m: Moments)
    requires |xs| == |ys| > 0
    ensures m == MomentsOf(xs, ys)
  {
    hide CoDev, Sum;
    var sx := ComputeSum(xs);
    var sy := ComputeSum(ys);
    var mx, my := sx / |xs| as real, sy / |xs| as real;
    var sxy, sxx, syy := ComputeProducts(xs, mx, ys, my);
    m := Moments(mx, my, sxy, sxx, syy);
  }

  // ---------- arithmetic, on plain reals ----------

  lemma SquareNonNegative(x: real)
    ensures Times(x, x) >= 0.0
    ensures Times(x, x) == 0.0 <==> x == 0.0
  {
    if x < 0.0 {
      assert Times(x, x) == Times(-x, -x);
      ProductNonNegative(-x, -x);
    } else {
      ProductNonNegative(x, x);
    }
  }

  lemma ProductNonNegative(x: real, y: real)
    requires x >= 0.0 && y >= 0.0
    ensures Times(x, y) >= 0.0
    ensures Times(x, y) == 0.0 <==> x == 0.0 || y == 0.0
  {
  }

  /** The squared error of a line, written around a centre: k points, first-order remainders u and v. */
  function Expanded(syy: real, sxy: real, sxx: real, u: real, v: real, k: real, b: real, e: real): real {
    syy - 2.0 * b * sxy + b * b * sxx + k * e * e + 2.0 * e * (u - b * v)
  }

  lemma ExpandStep(syy: real, sxy: real, sxx: real, u: real, v: real, k: real, b: real, e: real, dx: real, dy: real)
    ensures Expanded(syy, sxy, sxx, u, v, k, b, e) + Times(dy - Times(b, dx) + e, dy - Times(b, dx) + e)
         == Expanded(syy + Times(dy, dy), sxy + Times(dx, dy), sxx + Times(dx, dx), u + dy, v + dx, k + 1.0, b, e)
  {
  }

  lemma Recentre(x: real, y: real, cx: real, cy: real, a: real, b: real)
    ensures y - Line(a, b, x) == (y - cy) - Times(b, x - cx) + (cy - Line(a, b, cx))
  {
  }

  /** With no remainders the error splits into the optimum plus two squares. */
  lemma CompleteTheSquare(syy: real, sxy: real, sxx: real, k: real, b: real, e: real)
    requires sxx != 0.0
    ensures var g := sxy / sxx;
            && Expanded(syy, sxy, sxx, 0.0, 0.0, k, b, e)
               == Expanded(syy, sxy, sxx, 0.0, 0.0, k, g, 0.0) + (Times(sxx, Times(b - g, b - g)) + Times(k, Times(e, e)))
            && Expanded(syy, sxy, sxx, 0.0, 0.0, k, g, 0.0) == syy - Times(g, sxy)
  {
    var g := sxy / sxx;
    CompleteWith(syy, g, sxx, k, b, e);
    assert sxy == g * sxx;
  }

  lemma CompleteWith(syy: real, g: real, sxx: real, k: real, b: real, e: real)
    ensures Expanded(syy, g * sxx, sxx, 0.0, 0.0, k, b, e)
            == Expanded(syy, g * sxx, sxx, 0.0, 0.0, k, g, 0.0) + (Times(sxx, Times(b - g, b - g)) + Times(k, Times(e, e)))
    ensures Expanded(syy, g * sxx, sxx, 0.0, 0.0, k, g, 0.0) == syy - Times(g, g * sxx)
  {
  }

  lemma OptimumAtLeast(sxx: real, k: real, d: real, e: real)
    requires sxx > 0.0 && k > 0.0
    ensures Times(sxx, Times(d, d)) + Times(k, Times(e, e)) >= 0.0
    ensures Times(sxx, Times(d, d)) + Times(k, Times(e, e)) == 0.0 <==> d == 0.0 && e == 0.0
  {
    hide Times;
    SquareNonNegative(d);
    SquareNonNegative(e);
    ProductNonNegative(sxx, Times(d, d));
    ProductNonNegative(k, Times(e, e));
  }

  lemma ShareArithmetic(sxy: real, sxx: real, syy: real)
    requires sxx > 0.0 && syy >= 0.0 && syy - Times(sxy / sxx, sxy) >= 0.0
    ensures sxy * sxy <= sxx * syy
    ensures syy != 0.0 ==> 0.0 <= Times(sxy / sxx, sxy / syy) <= 1.0
    ensures syy != 0.0 ==> Times(1.0 - Times(sxy / sxx, sxy / syy), syy) == syy - Times(sxy / sxx, sxy)
    ensures syy == 0.0 ==> Times(sxy / sxx, sxy) == 0.0
  {
    var g := sxy / sxx;
    assert sxy == g * sxx;
    ProductNonNegative(sxx, syy - g * sxy);
    assert sxx * (g * sxy) == sxy * sxy;
    SquareNonNegative(sxy);
    SquareNonNegative(g);
    ProductNonNegative(g * g, sxx);
    assert g * sxy == (g * g) * sxx;
    if syy != 0.0 {
      var h := sxy / syy;
      assert h * syy == sxy;
      assert (g * h) * syy == g * sxy;
      ShareInUnit(g * h, syy, g * sxy);
    } else {
      assert sxy == 0.0;
    }
  }

  lemma ShareInUnit(r: real, y: real, p: real)
    requires y > 0.0 && r * y == p && 0.0 <= p <= y
    ensures 0.0 <= r <= 1.0 && (1.0 - r) * y == y - p
  {
  }

  // ---------- sums ----------

  lemma {:induction false} ResidualsNonNegative(xs: seq<real>, ys: seq<real>, a: real, b: real)
    requires |xs| == |ys|
    ensures Residuals(xs, ys, a, b) >= 0.0
  {
    if xs != [] {
      var n := |xs| - 1;
      ResidualsNonNegative(xs[..n], ys[..n], a, b);
      SquareNonNegative(ys[n] - (a + b * xs[n]));
    }
  }

  /** A sum of squared deviations is never negative. */
  lemma {:induction false} SpreadNonNegative(xs: seq<real>, c: real)
    ensures CoDev(xs, c, xs, c) >= 0.0
  {
    if xs != [] {
      var n := |xs| - 1;
      SpreadNonNegative(xs[..n], c);
      SquareNonNegative(xs[n] - c);
    }
  }

  lemma {:induction false} NoSpreadNoCovariance(xs: seq<real>, cx: real, ys: seq<real>, cy: real)
    requires |xs| == |ys|
    requires CoDev(xs, cx, xs, cx) == 0.0
    ensures CoDev(xs, cx, ys, cy) == 0.0
  {
    if xs != [] {
      var n := |xs| - 1;
      SpreadNonNegative(xs[..n], cx);
      SquareNonNegative(xs[n] - cx);
      NoSpreadNoCovariance(xs[..n], cx, ys[..n], cy);
      assert xs[n] - cx == 0.0;
    }
  }

  lemma {:induction false} ResidualsExpand(xs: seq<real>, ys: seq<real>, cx: real, cy: real, a: real, b: real)
    requires |xs| == |ys|
    ensures Residuals(xs, ys, a, b) ==
            Expanded(CoDev(ys, cy, ys, cy), CoDev(xs, cx, ys, cy), CoDev(xs, cx, xs, cx),
                     Sum(ys) - Times(|xs| as real, cy), Sum(xs) - Times(|xs| as real, cx), |xs| as real, b, cy - Line(a, b, cx))
  {
    if xs == [] {
      ExpandedNothing(cx, cy, b, cy - Line(a, b, cx));
    } else {
      var n := |xs| - 1;
      ResidualsExpand(xs[..n], ys[..n], cx, cy, a, b);
      Recentre(xs[n], ys[n], cx, cy, a, b);
      ExpandStep(CoDev(ys[..n], cy, ys[..n], cy), CoDev(xs[..n], cx, ys[..n], cy), CoDev(xs[..n], cx, xs[..n], cx),
                 Sum(ys[..n]) - Times(n as real, cy), Sum(xs[..n]) - Times(n as real, cx), n as real, b, cy - Line(a, b, cx),
                 xs[n] - cx, ys[n] - cy);
      NextMultiple(n as real, cx);
      NextMultiple(n as real, cy);
      hide Expanded, Times, Line;
      assert Sum(ys) - Times(n as real + 1.0, cy) == Sum(ys[..n]) - Times(n as real, cy) + (ys[n] - cy);
      assert Sum(xs) - Times(n as real + 1.0, cx) == Sum(xs[..n]) - Times(n as real, cx) + (xs[n] - cx);
    }
  }

  lemma ExpandedNothing(cx: real, cy: real, b: real, e: real)
    ensures Expanded(0.0, 0.0, 0.0, 0.0 - Times(0.0, cy), 0.0 - Times(0.0, cx), 0.0, b, e) == 0.0
  {
  }

  lemma NextMultiple(k: real, c: real)
    ensures Times(k + 1.0, c) == Times(k, c) + c
  {
  }

  /** Around the means the first-order remainders vanish. */
  lemma ResidualsAroundMeans(xs: seq<real>, ys: seq<real>, a: real, b: real)
    requires |xs| == |ys| > 0
    ensures var m := MomentsOf(xs, ys);
            Residuals(xs, ys, a, b) == Expanded(m.syy, m.sxy, m.sxx, 0.0, 0.0, |xs| as real, b, m.my - Line(a, b, m.mx))
  {
    hide Expanded, CoDev, Sum, Residuals, Times, Line;
    var m := MomentsOf(xs, ys);
    ResidualsExpand(xs, ys, m.mx, m.my, a, b);
    MeanTimesCount(Sum(xs), |xs| as real);
    MeanTimesCount(Sum(ys), |xs| as real);
  }

  lemma MeanTimesCount(s: real, n: real)
    requires n > 0.0
    ensures s - Times(n, s / n) == 0.0
  {
  }

  // ---------- the results ----------

  /**
   The gradient is the least-squares optimum: no line has a smaller error, and only the fitted
   line attains it.
   */
  lemma FitIsOptimal(xs: seq<real>, ys: seq<real>, a: real, b: real)
    requires |xs| == |ys| > 0
    requires MomentsOf(xs, ys).sxx != 0.0
    ensures var m := MomentsOf(xs, ys);
            var best := Residuals(xs, ys, Intercept(m), Gradient(m));
            && best <= Residuals(xs, ys, a, b)
            && (best == Residuals(xs, ys, a, b) <==> a == Intercept(m) && b == Gradient(m))
  {
    hide Expanded, Times, CoDev, Sum, Residuals, Line, Mean;
    var m := MomentsOf(xs, ys);
    var g, k := Gradient(m), |xs| as real;
    var e := m.my - Line(a, b, m.mx);
    SpreadNonNegative(xs, m.mx);
    ResidualsAroundMeans(xs, ys, a, b);
    ResidualsAroundMeans(xs, ys, Intercept(m), g);
    ThroughTheMeans(m);
    CompleteTheSquare(m.syy, m.sxy, m.sxx, k, b, e);
    OptimumAtLeast(m.sxx, k, b - g, e);
    OnlyIntercept(m, a);
  }

  lemma ThroughTheMeans(m: Moments)
    requires m.sxx != 0.0
    ensures m.my - Line(Intercept(m), Gradient(m), m.mx) == 0.0
  {
  }

  lemma OnlyIntercept(m: Moments, a: real)
    requires m.sxx != 0.0
    ensures m.my - Line(a, Gradient(m), m.mx) == 0.0 <==> a == Intercept(m)
  {
  }

  /** The error left by the fit. */
  lemma FitError(xs: seq<real>, ys: seq<real>)
    requires |xs| == |ys| > 0
    requires MomentsOf(xs, ys).sxx != 0.0
    ensures var m := MomentsOf(xs, ys);
            Residuals(xs, ys, Intercept(m), Gradient(m)) == m.syy - Times(m.sxy / m.sxx, m.sxy) >= 0.0
  {
    hide Expanded, Times, CoDev, Sum, Residuals, Line, Mean;
    var m := MomentsOf(xs, ys);
    var g := Gradient(m);
    ResidualsAroundMeans(xs, ys, Intercept(m), g);
    ThroughTheMeans(m);
    CompleteTheSquare(m.syy, m.sxy, m.sxx, |xs| as real, g, 0.0);
    ResidualsNonNegative(xs, ys, Intercept(m), g);
  }

  /** Cauchy–Schwarz over sequences of any length. */
  lemma CauchySchwarz(xs: seq<real>, ys: seq<real>)
    requires |xs| == |ys| > 0
    ensures var m := MomentsOf(xs, ys); m.sxx >= 0.0 && m.syy >= 0.0 && m.sxy * m.sxy <= m.sxx * m.syy
  {
    hide CoDev, Sum, Residuals, Times, Mean;
    var m := MomentsOf(xs, ys);
    SpreadNonNegative(xs, m.mx);
    SpreadNonNegative(ys, m.my);
    if m.sxx != 0.0 {
      FitError(xs, ys);
      ShareArithmetic(m.sxy, m.sxx, m.syy);
    } else {
      NoSpreadNoCovariance(xs, m.mx, ys, m.my);
    }
  }

  /** r squared lies in [0,1] and is the share of the spread of ys that the fitted line removes. */
  lemma DeterminationIsExplainedShare(xs: seq<real>, ys: seq<real>)
    requires |xs| == |ys| > 0
    requires MomentsOf(xs, ys).sxx != 0.0
    ensures var m := MomentsOf(xs, ys);
            && 0.0 <= Determination(m) <= 1.0
            && Residuals(xs, ys, Intercept(m), Gradient(m)) == Times(1.0 - Determination(m), m.syy)
  {
    hide CoDev, Sum, Residuals, Times, Mean;
    var m := MomentsOf(xs, ys);
    SpreadNonNegative(xs, m.mx);
    SpreadNonNegative(ys, m.my);
    FitError(xs, ys);
    ShareArithmetic(m.sxy, m.sxx, m.syy);
    ZeroShare(m.syy);
  }

  lemma ZeroShare(y: real)
    ensures Times(1.0 - 1.0, y) == 0.0
  {
  }

  lemma {:induction false} SpreadZeroIff(xs: seq<real>, c: real)
    ensures CoDev(xs, c, xs, c) == 0.0 <==> forall i :: 0 <= i < |xs| ==> xs[i] == c
  {
    if xs != [] {
      hide Times;
      var n := |xs| - 1;
      SpreadZeroIff(xs[..n], c);
      SpreadNonNegative(xs[..n], c);
      SquareNonNegative(xs[n] - c);
      assert forall i :: 0 <= i < n ==> xs[..n][i] == xs[i];
    }
  }

  lemma {:induction false} SumOfConstant(xs: seq<real>, c: real)
    requires forall i :: 0 <= i < |xs| ==> xs[i] == c
    ensures Sum(xs) == Times(|xs| as real, c)
  {
    if xs != [] {
      SumOfConstant(xs[..|xs| - 1], c);
      NextMultiple((|xs| - 1) as real, c);
    }
  }

  lemma MeanOfConstant(xs: seq<real>, c: real)
    requires xs != [] && forall i :: 0 <= i < |xs| ==> xs[i] == c
    ensures Mean(xs) == c
  {
    SumOfConstant(xs, c);
  }
}
