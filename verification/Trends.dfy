/**
 What the trend, variation and order figures say of the points themselves (series/series.go,
 stats/steady.go, stats/describe.go): lines in seconds, squared errors, shares of a mean.
 */
module Trends {
  import opened Describe
  import opened Options
  import opened Steady
  import opened TimeSeries
  import LS = LeastSquares

  // ---------- lines through points ----------

  /** The squared error of the line a + b t over points, t in seconds since the instant t0. */
  function ErrorSince(s: Series, t0: int, a: real, b: real): real {
    if s == [] then 0.0
    else
      var n := |s| - 1;
      ErrorSince(s[..n], t0, a, b) + Miss(s[n], t0, a, b) * Miss(s[n], t0, a, b)
  }

  /** How far the line is from a point. */
  function Miss(p: Point, t0: int, a: real, b: real): real {
    p.v - (a + b * ((p.at - t0) as real / 1_000_000_000.0))
  }

  function SquaredError(s: Series, a: real, b: real): real {
    if s == [] then 0.0 else ErrorSince(s, s[0].at, a, b)
  }

  /** No line through the points has a smaller squared error. */
  ghost predicate IsBestLine(s: Series, a: real, b: real) {
    forall a', b' :: SquaredError(s, a, b) <= SquaredError(s, a', b')
  }

  /** The size of a number, and of a mean too small to divide by. */
  function Size(x: real): real { if x < 0.0 then -x else x }

  predicate TooSmall(mean: real) { -0.000_000_000_001 < mean < 0.000_000_000_001 }

  predicate OneInstant(s: Series) {
    forall i, j :: 0 <= i < |s| && 0 <= j < |s| ==> s[i].at == s[j].at
  }

  /** Three points or more, not all of one instant, with a mean to measure against. */
  predicate HasTrend(s: Series) {
    |s| >= 3 && !OneInstant(s) && !TooSmall(LS.Mean(Values(s)))
  }

  lemma {:induction false} ErrorIsResiduals(s: Series, t0: int, xs: seq<real>, a: real, b: real)
    requires |xs| == |s| && forall i :: 0 <= i < |s| ==> xs[i] == (s[i].at - t0) as real / 1_000_000_000.0
    ensures ErrorSince(s, t0, a, b) == LS.Residuals(xs, Values(s), a, b)
  {
    if s != [] {
      var n := |s| - 1;
      ErrorIsResiduals(s[..n], t0, xs[..n], a, b);
      assert Values(s)[..n] == Values(s[..n]);
    }
  }

  lemma ErrorOf(s: Series, a: real, b: real)
    requires s != []
    ensures SquaredError(s, a, b) == LS.Residuals(Offsets(s), Values(s), a, b)
  {
    ErrorIsResiduals(s, s[0].at, Offsets(s), a, b);
    hide ErrorSince, LS.Residuals;
  }

  /** The fitted gradient is that of every best line. */
  lemma GradientOfBest(s: Series, a: real, b: real)
    requires Fit(s).Some? && IsBestLine(s, a, b)
    ensures b == Fit(s).value.perSecond
  {
    hide Fit, LS.Residuals;
    TrendExistsIff(s);
    var a0 := SlopeIsBestLine(s, a, b);
    ErrorOf(s, a, b);
    ErrorOf(s, a0, Fit(s).value.perSecond);
    hide SquaredError;
    assert SquaredError(s, a, b) <= SquaredError(s, a0, Fit(s).value.perSecond);
  }

  lemma BestLineExists(s: Series) returns (a: real, b: real)
    requires Fit(s).Some?
    ensures IsBestLine(s, a, b)
  {
    var m := LS.MomentsOf(Offsets(s), Values(s));
    a, b := LS.Intercept(m), LS.Gradient(m);
    hide SquaredError, LS.Residuals, LS.MomentsOf, LS.Intercept, LS.Gradient;
    forall a', b'
      ensures SquaredError(s, a, b) <= SquaredError(s, a', b')
    {
      LS.FitIsOptimal(Offsets(s), Values(s), a', b');
      ErrorOf(s, a, b);
      ErrorOf(s, a', b');
    }
  }

  // ---------- trend and variation ----------

  lemma TrendExists(s: Series)
    ensures Fit(s).Some? <==> |s| >= 3 && !OneInstant(s)
    ensures SlopePctPerMin(s).Some? <==> HasTrend(s)
  {
    TrendExistsIff(s);
    hide Fit, LS.Mean;
    if OneInstant(s) {
      assert forall i :: 0 <= i < |s| ==> s[i].at == s[0].at;
    }
  }

  /**
   The trend is what the best line rises in a minute, from its value at 0 s to its value at 60 s, as a
   percentage of the mean.
   */
  lemma TrendIsRiseInAMinute(s: Series, a: real, b: real)
    requires SlopePctPerMin(s).Some? && IsBestLine(s, a, b)
    ensures SlopePctPerMin(s).value * Size(LS.Mean(Values(s))) == 100.0 * ((a + b * 60.0) - (a + b * 0.0))
  {
    GradientOfBest(s, a, b);
    PercentOf(b, LS.Mean(Values(s)));
    hide Fit, LS.Mean, IsBestLine;
  }

  lemma PercentOf(b: real, mean: real)
    requires mean != 0.0
    ensures TrendPct(b, mean) * Size(mean) == 100.0 * (b * 60.0)
  {
    var q := b * 60.0 / Size(mean);
    assert q * Size(mean) == b * 60.0;
    assert TrendPct(b, mean) == q * 100.0;
    Reorder(q, Size(mean));
  }

  lemma Reorder(q: real, d: real)
    ensures (q * 100.0) * d == 100.0 * (q * d)
  {
  }

  predicate OnALine(s: Series, a: real, b: real) {
    forall i :: 0 <= i < |s| ==> s[i].v == a + b * ((s[i].at - s[0].at) as real / 1_000_000_000.0)
  }

  lemma {:induction false} NoError(s: Series, t0: int, a: real, b: real)
    requires forall i :: 0 <= i < |s| ==> s[i].v == a + b * ((s[i].at - t0) as real / 1_000_000_000.0)
    ensures ErrorSince(s, t0, a, b) == 0.0
  {
    if s != [] {
      NoError(s[..|s| - 1], t0, a, b);
    }
  }

  lemma {:induction false} ErrorNonNegative(s: Series, t0: int, a: real, b: real)
    ensures ErrorSince(s, t0, a, b) >= 0.0
  {
    if s != [] {
      var n := |s| - 1;
      ErrorNonNegative(s[..n], t0, a, b);
      NoNegativeSquare(Miss(s[n], t0, a, b));
      hide Miss;
    }
  }

  lemma NoNegativeSquare(x: real)
    ensures x * x >= 0.0
  {
    LS.SquareNonNegative(x);
  }

  /** Points that lie on a line have that line's trend: its rise in a minute as a percentage of their mean. */
  lemma TrendOfALine(s: Series, a: real, b: real)
    requires OnALine(s, a, b)
    ensures SlopePctPerMin(s).Some? <==> HasTrend(s)
    ensures HasTrend(s) ==> SlopePctPerMin(s).value * Size(LS.Mean(Values(s))) == 100.0 * (b * 60.0)
  {
    TrendExists(s);
    if HasTrend(s) {
      NoError(s, s[0].at, a, b);
      forall a', b'
        ensures SquaredError(s, a, b) <= SquaredError(s, a', b')
      {
        ErrorNonNegative(s, s[0].at, a', b');
      }
      TrendIsRiseInAMinute(s, a, b);
    }
  }

  lemma {:induction false} SpreadIsError(s: Series, t0: int, mean: real)
    ensures LS.CoDev(Values(s), mean, Values(s), mean) == ErrorSince(s, t0, mean, 0.0)
  {
    if s != [] {
      var n := |s| - 1;
      SpreadIsError(s[..n], t0, mean);
      assert Values(s)[..n] == Values(s[..n]);
    }
  }

  lemma BesselArithmetic(ss: real, n: nat, mean: real)
    requires n >= 2 && mean != 0.0
    ensures RelativeVariance(ss, n, mean) * (mean * mean) * (n - 1) as real == ss
  {
    var d := (n - 1) as real;
    var v := ss / d;
    assert v * d == ss;
    var p := v / mean;
    assert p * mean == v;
    var q := p / mean;
    assert q * mean == p;
    Regroup(q, mean, d);
  }

  lemma Regroup(q: real, m: real, d: real)
    ensures q * (m * m) * d == ((q * m) * m) * d
  {
  }

  /**
   The squared variation is there for two points or more with a mean to divide by, and is the squared
   error about the mean over n - 1, as a share of the squared mean.
   */
  lemma VariationIsBessel(s: Series)
    ensures CVSquared(s).Some? <==> |s| >= 2 && !TooSmall(LS.Mean(Values(s)))
    ensures var mean := if s == [] then 0.0 else LS.Mean(Values(s));
            CVSquared(s).Some? ==> CVSquared(s).value * (mean * mean) * (|s| - 1) as real == SquaredError(s, mean, 0.0)
  {
    if CVSquared(s).Some? {
      var mean := LS.Mean(Values(s));
      SpreadIsError(s, s[0].at, mean);
      BesselArithmetic(LS.CoDev(Values(s), mean, Values(s), mean), |s|, mean);
      hide RelativeVariance, LS.CoDev, LS.Mean, ErrorSince;
    }
  }

  // ---------- what detection asks of an interval ----------

  /** The variation stays within the bound: s over |mean| at most maxCV, s being the sample's deviation. */
  predicate Even(s: Series, maxCV: real) {
    && |s| >= 2 && !TooSmall(LS.Mean(Values(s))) && maxCV >= 0.0
    && var mean := LS.Mean(Values(s));
       SquaredError(s, mean, 0.0) <= maxCV * maxCV * (mean * mean) * (|s| - 1) as real
  }

  /** In a minute every best line rises or falls by at most, or by more than, a percentage of the mean. */
  ghost predicate Level(s: Series, pct: real) {
    HasTrend(s) && forall a, b :: IsBestLine(s, a, b) ==> 100.0 * Size(b * 60.0) <= pct * Size(LS.Mean(Values(s)))
  }

  ghost predicate Climbing(s: Series, pct: real) {
    HasTrend(s) && forall a, b :: IsBestLine(s, a, b) ==> 100.0 * Size(b * 60.0) > pct * Size(LS.Mean(Values(s)))
  }

  /** The figure is known only to a resolution that exceeds the given share of its mean. */
  predicate Coarse(s: Series, resolution: real, share: real) {
    && resolution > 0.0 && share > 0.0
    && (s == [] || TooSmall(LS.Mean(Values(s))) || resolution > share * Size(LS.Mean(Values(s))))
  }

  lemma SizesScale(pct: real, m: real, rise: real, bound: real)
    requires m > 0.0 && pct * m == 100.0 * rise
    ensures Size(pct) <= bound <==> 100.0 * Size(rise) <= bound * m
  {
    if pct < 0.0 {
      assert (-pct) * m == 100.0 * -rise;
      NegativeProduct(pct, m);
    } else {
      PositiveProductOf(pct, m);
    }
    OrderKept(Size(pct), bound, m);
    assert Size(pct) * m == 100.0 * Size(rise);
  }

  lemma NegativeProduct(p: real, m: real)
    requires p < 0.0 && m > 0.0
    ensures p * m < 0.0
  {
  }

  lemma PositiveProductOf(p: real, m: real)
    requires p >= 0.0 && m > 0.0
    ensures p * m >= 0.0
  {
  }

  lemma OrderKept(x: real, y: real, m: real)
    requires m > 0.0
    ensures x <= y <==> x * m <= y * m
  {
    if x <= y {
      assert (y - x) * m >= 0.0;
    } else {
      assert (x - y) * m > 0.0;
    }
  }

  lemma BestLinesRise(s: Series, pct: real, a: real, b: real)
    requires SlopePctPerMin(s).Some? && IsBestLine(s, a, b)
    ensures Size(SlopePctPerMin(s).value) <= pct <==> 100.0 * Size(b * 60.0) <= pct * Size(LS.Mean(Values(s)))
  {
    TrendIsRiseInAMinute(s, a, b);
    TrendExists(s);
    hide Fit, LS.Mean, IsBestLine, SlopePctPerMin;
    SizesScale(SlopePctPerMin(s).value, Size(LS.Mean(Values(s))), b * 60.0, pct);
  }

  lemma LevelIff(s: Series, pct: real)
    ensures Level(s, pct) <==> SlopePctPerMin(s).Some? && Size(SlopePctPerMin(s).value) <= pct
    ensures Climbing(s, pct) <==> SlopePctPerMin(s).Some? && Size(SlopePctPerMin(s).value) > pct
  {
    TrendExists(s);
    hide Fit, LS.Mean, IsBestLine, SlopePctPerMin, Size, TooSmall, OneInstant;
    if HasTrend(s) {
      var a0, b0 := BestLineExists(s);
      forall a, b | IsBestLine(s, a, b)
        ensures Size(SlopePctPerMin(s).value) <= pct <==> 100.0 * Size(b * 60.0) <= pct * Size(LS.Mean(Values(s)))
      {
        BestLinesRise(s, pct, a, b);
      }
      assert IsBestLine(s, a0, b0);
    }
  }

  lemma EvenIff(s: Series, maxCV: real)
    ensures Even(s, maxCV) <==> CVSquared(s).Some? && maxCV >= 0.0 && CVSquared(s).value <= maxCV * maxCV
  {
    VariationIsBessel(s);
    if CVSquared(s).Some? {
      var mean := LS.Mean(Values(s));
      SquarePositive(mean);
      var d := (|s| - 1) as real;
      var k := (mean * mean) * d;
      PositiveProductOf(mean * mean, d);
      NonZeroProduct(mean * mean, d);
      OrderKept(CVSquared(s).value, maxCV * maxCV, k);
      Associate(CVSquared(s).value, mean * mean, d);
      Associate(maxCV * maxCV, mean * mean, d);
      hide CVSquared, LS.Mean;
    }
  }

  lemma SquarePositive(x: real)
    requires x != 0.0
    ensures x * x > 0.0
  {
  }

  lemma NonZeroProduct(x: real, y: real)
    requires x > 0.0 && y > 0.0
    ensures x * y > 0.0
  {
  }

  lemma Associate(x: real, y: real, z: real)
    ensures x * y * z == x * (y * z)
  {
  }

  lemma CoarseIff(s: Series, cfg: Config)
    ensures Coarse(s, cfg.coResolution, cfg.coMaxQuantumFrac) <==> IsTooCoarse(s, cfg)
  {
    if s != [] && !TooSmall(LS.Mean(Values(s))) {
      var m := Size(LS.Mean(Values(s)));
      var q := cfg.coResolution / m;
      assert q * m == cfg.coResolution;
      OrderKept(q, cfg.coMaxQuantumFrac, m);
    }
    hide LS.Mean;
  }

  /** A corroborating series, over the same interval, climbs where its resolution would let it show. */
  ghost predicate Contradicted(cfg: Config, from: int, to: int) {
    && cfg.corroborate != []
    && Climbing(Clip(cfg.corroborate, from, to), cfg.coMaxSlope)
    && !Coarse(Clip(cfg.corroborate, from, to), cfg.coResolution, cfg.coMaxQuantumFrac)
  }

  /** The points from the instant of point i to that of the last. */
  function From(b: Series, i: nat): Series
    requires i < |b|
  {
    Clip(b, b[i].at, b[|b| - 1].at)
  }

  /** The points from the instant of i on span long enough, vary little, and neither they nor the corroborator climb. */
  ghost predicate Acceptable(b: Series, i: nat, cfg: Config)
    requires i < |b|
  {
    && b[|b| - 1].at - b[i].at >= cfg.minDuration
    && Even(From(b, i), cfg.maxCV) && Level(From(b, i), cfg.maxSlope)
    && !Contradicted(cfg, b[i].at, b[|b| - 1].at)
  }

  lemma AcceptableIff(b: Series, i: nat, cfg: Config)
    requires i < |b|
    ensures Acceptable(b, i, cfg) <==> Qualifies(b, From(b, i), i, cfg)
  {
    hide Even, Level, Climbing, Coarse, IsTooCoarse, CVSquared, SlopePctPerMin, Clip;
    EvenIff(From(b, i), cfg.maxCV);
    LevelIff(From(b, i), cfg.maxSlope);
    var co := Clip(cfg.corroborate, b[i].at, b[|b| - 1].at);
    LevelIff(co, cfg.coMaxSlope);
    CoarseIff(co, cfg);
  }

  /** What a window says of the interval it was found in: its figures, and whether a corroborator agreed. */
  ghost predicate Describes(w: SteadyWindow, b: Series, i: nat, cfg: Config)
    requires i < |b|
  {
    var p, co := From(b, i), Clip(cfg.corroborate, b[i].at, b[|b| - 1].at);
    var mean := if p == [] then 0.0 else LS.Mean(Values(p));
    && p != [] && w.from == b[i].at && w.to == b[|b| - 1].at && w.discarded == b[i].at - b[0].at
    && w.cvSquared * (mean * mean) * (|p| - 1) as real == SquaredError(p, mean, 0.0)
    && (forall a0, b0 :: IsBestLine(p, a0, b0) ==> w.slopePct * Size(mean) == 100.0 * (b0 * 60.0))
    && (w.corroborated <==>
          cfg.corroborate != [] && HasTrend(co) && !Coarse(co, cfg.coResolution, cfg.coMaxQuantumFrac))
    && (w.note == NoTrend <==> cfg.corroborate != [] && !HasTrend(co))
    && (w.note == TooCoarse <==> cfg.corroborate != [] && HasTrend(co) && Coarse(co, cfg.coResolution, cfg.coMaxQuantumFrac))
  }

  lemma JudgeShape(b: Series, i: nat, cfg: Config)
    requires i < |b|
    ensures Judge(b, i, cfg).Some? <==> Qualifies(b, From(b, i), i, cfg)
    ensures Judge(b, i, cfg).Some? ==>
              var w := Judge(b, i, cfg).value;
              && w.from == b[i].at && w.to == b[|b| - 1].at && w.discarded == b[i].at - b[0].at
              && Some(w.cvSquared) == CVSquared(From(b, i)) && Some(w.slopePct) == SlopePctPerMin(From(b, i))
              && w.note == CoNote(cfg, w.from, w.to) && w.corroborated == (cfg.corroborate != [] && w.note == NoNote)
  {
    hide CVSquared, SlopePctPerMin, Clip, CoNote, Vetoes;
  }

  lemma NoteIs(cfg: Config, from: int, to: int)
    ensures var co, note := Clip(cfg.corroborate, from, to), CoNote(cfg, from, to);
            var coarse := Coarse(co, cfg.coResolution, cfg.coMaxQuantumFrac);
            && (cfg.corroborate != [] && note == NoNote <==> cfg.corroborate != [] && HasTrend(co) && !coarse)
            && (note == NoTrend <==> cfg.corroborate != [] && !HasTrend(co))
            && (note == TooCoarse <==> cfg.corroborate != [] && HasTrend(co) && coarse)
  {
    var co := Clip(cfg.corroborate, from, to);
    TrendExists(co);
    CoarseIff(co, cfg);
    hide Coarse, HasTrend, SlopePctPerMin, IsTooCoarse, Clip;
  }

  lemma FiguresOf(s: Series, w: SteadyWindow)
    requires Some(w.cvSquared) == CVSquared(s) && Some(w.slopePct) == SlopePctPerMin(s)
    ensures s != []
    ensures var mean := LS.Mean(Values(s));
            && w.cvSquared * (mean * mean) * (|s| - 1) as real == SquaredError(s, mean, 0.0)
            && forall a, b :: IsBestLine(s, a, b) ==> w.slopePct * Size(mean) == 100.0 * (b * 60.0)
  {
    VariationIsBessel(s);
    hide CVSquared, SlopePctPerMin, IsBestLine, SquaredError, LS.Mean, Size;
    forall a, b | IsBestLine(s, a, b)
      ensures w.slopePct * Size(LS.Mean(Values(s))) == 100.0 * (b * 60.0)
    {
      TrendIsRiseInAMinute(s, a, b);
    }
  }

  lemma JudgedDescribes(b: Series, i: nat, cfg: Config)
    requires i < |b|
    ensures Judge(b, i, cfg).Some? <==> Acceptable(b, i, cfg)
    ensures Judge(b, i, cfg).Some? ==> Describes(Judge(b, i, cfg).value, b, i, cfg)
  {
    hide *;
    JudgeShape(b, i, cfg);
    AcceptableIff(b, i, cfg);
    if Judge(b, i, cfg).Some? {
      var w := Judge(b, i, cfg).value;
      FiguresOf(From(b, i), w);
      NoteIs(cfg, w.from, w.to);
      PutTogether(w, b, i, cfg);
    }
  }

  lemma PutTogether(w: SteadyWindow, b: Series, i: nat, cfg: Config)
    requires i < |b| && w.from == b[i].at && w.to == b[|b| - 1].at && w.discarded == b[i].at - b[0].at
    requires From(b, i) != []
    requires var mean := LS.Mean(Values(From(b, i)));
             && w.cvSquared * (mean * mean) * (|From(b, i)| - 1) as real == SquaredError(From(b, i), mean, 0.0)
             && forall a0, b0 :: IsBestLine(From(b, i), a0, b0) ==> w.slopePct * Size(mean) == 100.0 * (b0 * 60.0)
    requires var co := Clip(cfg.corroborate, w.from, w.to);
             var coarse := Coarse(co, cfg.coResolution, cfg.coMaxQuantumFrac);
             && (w.corroborated <==> cfg.corroborate != [] && HasTrend(co) && !coarse)
             && (w.note == NoTrend <==> cfg.corroborate != [] && !HasTrend(co))
             && (w.note == TooCoarse <==> cfg.corroborate != [] && HasTrend(co) && coarse)
    ensures Describes(w, b, i, cfg)
  {
    hide Coarse, HasTrend, IsBestLine, SquaredError, LS.Mean, Clip, Size;
  }

  /**
   Detection, with nothing taken on trust: an interval is found if and only if the points from some
   instant to the last are acceptable, in terms of their own errors and best lines; it is the earliest,
   and the window says of it what is so.  The points are bins where a width is given, and then those
   from an instant on are a suffix of them.
   */
  lemma DetectionIs(rps: Series, cfg: Config)
    ensures var b, w := if cfg.bucket > 0 then Binned(rps, cfg.bucket) else rps, FirstAccepted(Prepared(rps, cfg), cfg, 0);
            && (w.Some? <==> exists i :: 0 <= i < |b| && Acceptable(b, i, cfg))
            && (w.Some? ==> exists i :: 0 <= i < |b| && EarliestAcceptable(b, i, cfg) && Describes(w.value, b, i, cfg))
            && (Sorted(rps) && cfg.bucket > 0 ==> forall i :: 0 <= i < |b| ==> From(b, i) == b[i..])
  {
    var b := if cfg.bucket > 0 then Binned(rps, cfg.bucket) else rps;
    assert b == Prepared(rps, cfg);
    if Sorted(rps) && cfg.bucket > 0 {
      PreparedSorted(rps, cfg);
      SuffixesOf(b);
    }
    hide Judge, Acceptable, Binned, Describes, From;
    forall j | 0 <= j < |b|
      ensures Judge(b, j, cfg).Some? <==> Acceptable(b, j, cfg)
      ensures Judge(b, j, cfg).Some? ==> Describes(Judge(b, j, cfg).value, b, j, cfg)
    {
      JudgedDescribes(b, j, cfg);
    }
    var k := FirstAcceptedIsEarliest(b, cfg, 0);
    hide FirstAccepted;
    if k < |b| {
      assert EarliestAcceptable(b, k, cfg);
    }
  }

  lemma SuffixesOf(b: Series)
    requires StrictlySorted(b)
    ensures forall i :: 0 <= i < |b| ==> From(b, i) == b[i..]
  {
    hide Clip;
    forall i | 0 <= i < |b|
      ensures From(b, i) == b[i..]
    {
      WindowIsSuffixIff(b, i);
    }
  }

  ghost predicate EarliestAcceptable(b: Series, i: nat, cfg: Config)
    requires i < |b|
  {
    Acceptable(b, i, cfg) && forall j :: 0 <= j < i ==> !Acceptable(b, j, cfg)
  }

  // ---------- the order effect ----------

  /** The line a + b x with no larger squared error over the pairs than any other. */
  ghost predicate FitsBest(xs: seq<real>, ys: seq<real>, a: real, b: real)
    requires |xs| == |ys|
  {
    forall a', b' :: LS.Residuals(xs, ys, a, b) <= LS.Residuals(xs, ys, a', b')
  }

  predicate OnePlace(ordinals: seq<int>) {
    forall i, j :: 0 <= i < |ordinals| && 0 <= j < |ordinals| ==> ordinals[i] == ordinals[j]
  }

  /**
   The order effect is there for three cells or more, not all in one place, with a mean to measure
   against; it is the rise of the best line per place, as a percentage of the mean.
   */
  lemma OrderEffectIsRisePerPlace(ordinals: seq<int>, values: seq<real>)
    ensures OrderFit(ordinals, values).Some? <==>
              |ordinals| == |values| >= 3 && !OnePlace(ordinals) && !TooSmall(LS.Mean(values))
    ensures OrderFit(ordinals, values).Some? ==> forall a, b :: FitsBest(AsReals(ordinals), values, a, b) ==>
              OrderFit(ordinals, values).value.slopePctPerCell * Size(LS.Mean(values)) == 100.0 * b
  {
    hide LS.Mean, OnePlace, FitsBest;
    if |ordinals| == |values| >= 3 {
      PlacesSpread(ordinals);
      if OrderFit(ordinals, values).Some? {
        forall a, b | FitsBest(AsReals(ordinals), values, a, b)
          ensures OrderFit(ordinals, values).value.slopePctPerCell * Size(LS.Mean(values)) == 100.0 * b
        {
          RisePerPlace(ordinals, values, a, b);
        }
      }
      hide LS.CoDev, OrderSlope, LS.Determination;
    }
  }

  lemma BestGradient(xs: seq<real>, ys: seq<real>, a: real, b: real)
    requires |xs| == |ys| > 0 && LS.MomentsOf(xs, ys).sxx != 0.0 && FitsBest(xs, ys, a, b)
    ensures b == LS.Gradient(LS.MomentsOf(xs, ys))
  {
    var m := LS.MomentsOf(xs, ys);
    LS.FitIsOptimal(xs, ys, a, b);
    hide LS.MomentsOf, LS.Residuals, LS.Gradient, LS.Intercept;
    assert LS.Residuals(xs, ys, a, b) <= LS.Residuals(xs, ys, LS.Intercept(m), LS.Gradient(m));
  }

  lemma RisePerPlace(ordinals: seq<int>, values: seq<real>, a: real, b: real)
    requires OrderFit(ordinals, values).Some? && FitsBest(AsReals(ordinals), values, a, b)
    ensures OrderFit(ordinals, values).value.slopePctPerCell * Size(LS.Mean(values)) == 100.0 * b
  {
    var xs := AsReals(ordinals);
    var m := LS.MomentsOf(xs, values);
    BestGradient(xs, values, a, b);
    FlatWhenConstant(xs, values);
    PerPlace(m);
    hide LS.CoDev, LS.Mean, LS.Gradient, OrderSlope, LS.Determination, FitsBest;
  }

  lemma PlacesSpread(ordinals: seq<int>)
    requires ordinals != []
    ensures var xs := AsReals(ordinals); LS.CoDev(xs, LS.Mean(xs), xs, LS.Mean(xs)) == 0.0 <==> OnePlace(ordinals)
  {
    var xs := AsReals(ordinals);
    LS.SpreadZeroIff(xs, LS.Mean(xs));
    hide LS.CoDev, LS.Mean;
    assert forall i :: 0 <= i < |xs| ==> xs[i] == ordinals[i] as real;
    if OnePlace(ordinals) {
      LS.MeanOfConstant(xs, ordinals[0] as real);
    } else {
      var i, j :| 0 <= i < |ordinals| && 0 <= j < |ordinals| && ordinals[i] != ordinals[j];
      assert xs[i] != xs[j];
    }
  }

  lemma FlatWhenConstant(xs: seq<real>, ys: seq<real>)
    requires |xs| == |ys| > 0
    ensures var m := LS.MomentsOf(xs, ys); m.sxx != 0.0 && m.syy == 0.0 ==> LS.Gradient(m) == 0.0
  {
    var m := LS.MomentsOf(xs, ys);
    LS.CauchySchwarz(xs, ys);
    hide LS.MomentsOf;
    FlatIf(m.sxy, m.sxx, m.syy);
    if m.sxx != 0.0 {
      assert LS.Gradient(m) == m.sxy / m.sxx;
    }
  }

  lemma FlatIf(sxy: real, sxx: real, syy: real)
    requires sxy * sxy <= sxx * syy
    ensures sxx != 0.0 && syy == 0.0 ==> sxy / sxx == 0.0
  {
    if syy == 0.0 {
      assert sxx * syy == 0.0;
      NoSquare(sxy);
    }
  }

  lemma NoSquare(x: real)
    ensures x * x <= 0.0 ==> x == 0.0
  {
    LS.SquareNonNegative(x);
  }

  lemma PerPlace(m: LS.Moments)
    requires m.sxx != 0.0 && m.my != 0.0
    ensures OrderSlope(m) * Size(m.my) == 100.0 * LS.Gradient(m)
  {
    var q := LS.Gradient(m) / Size(m.my);
    assert q * Size(m.my) == LS.Gradient(m);
    assert OrderSlope(m) == q * 100.0;
    hide LS.Gradient, OrderSlope;
    Reorder(q, Size(m.my));
  }

  // ---------- the share explained ----------

  predicate AllEqual(ys: seq<real>) {
    forall i, j :: 0 <= i < |ys| && 0 <= j < |ys| ==> ys[i] == ys[j]
  }

  lemma {:induction false} ErrorAboutMean(xs: seq<real>, ys: seq<real>, mean: real)
    requires |xs| == |ys|
    ensures LS.CoDev(ys, mean, ys, mean) == LS.Residuals(xs, ys, mean, 0.0)
  {
    if xs != [] {
      ErrorAboutMean(xs[..|xs| - 1], ys[..|ys| - 1], mean);
    }
  }

  lemma NoSpread(ys: seq<real>)
    requires ys != [] && AllEqual(ys)
    ensures LS.CoDev(ys, LS.Mean(ys), ys, LS.Mean(ys)) == 0.0
  {
    hide LS.CoDev, LS.Mean;
    LS.MeanOfConstant(ys, ys[0]);
    LS.SpreadZeroIff(ys, LS.Mean(ys));
  }

  lemma LeastError(xs: seq<real>, ys: seq<real>, a: real, b: real)
    requires |xs| == |ys| > 0 && LS.MomentsOf(xs, ys).sxx != 0.0 && FitsBest(xs, ys, a, b)
    ensures var m := LS.MomentsOf(xs, ys);
            LS.Residuals(xs, ys, a, b) == LS.Residuals(xs, ys, LS.Intercept(m), LS.Gradient(m))
  {
    var m := LS.MomentsOf(xs, ys);
    LS.FitIsOptimal(xs, ys, a, b);
    hide LS.MomentsOf, LS.Residuals, LS.Gradient, LS.Intercept;
    assert LS.Residuals(xs, ys, a, b) <= LS.Residuals(xs, ys, LS.Intercept(m), LS.Gradient(m));
  }

  lemma DeterminationOfFlat(m: LS.Moments)
    requires m.sxx != 0.0 && m.syy == 0.0
    ensures LS.Determination(m) == 1.0
  {
  }

  /** What the best line takes off the squared error about the mean, as a share of it; all of it where there is none. */
  lemma ShareOfBest(xs: seq<real>, ys: seq<real>, a: real, b: real)
    requires |xs| == |ys| > 0 && LS.MomentsOf(xs, ys).sxx != 0.0 && FitsBest(xs, ys, a, b)
    ensures var r2, flat := LS.Determination(LS.MomentsOf(xs, ys)), LS.Residuals(xs, ys, LS.Mean(ys), 0.0);
            && LS.Times(r2, flat) == flat - LS.Residuals(xs, ys, a, b)
            && (AllEqual(ys) ==> r2 == 1.0)
  {
    var m := LS.MomentsOf(xs, ys);
    assert m.my == LS.Mean(ys) && m.syy == LS.CoDev(ys, m.my, ys, m.my);
    hide *;
    LeastError(xs, ys, a, b);
    LS.DeterminationIsExplainedShare(xs, ys);
    ErrorAboutMean(xs, ys, m.my);
    Complement(LS.Determination(m), m.syy);
    if AllEqual(ys) {
      NoSpread(ys);
      DeterminationOfFlat(m);
    }
  }

  lemma Complement(share: real, whole: real)
    ensures share * whole == LS.Times(share, whole) == whole - LS.Times(1.0 - share, whole)
  {
  }

  /** The order effect's r squared is the share of the values' squared error about their mean that the best line explains. */
  lemma OrderShareIsExplained(ordinals: seq<int>, values: seq<real>, a: real, b: real)
    requires OrderFit(ordinals, values).Some? && FitsBest(AsReals(ordinals), values, a, b)
    ensures var xs, r2 := AsReals(ordinals), OrderFit(ordinals, values).value.r2;
            var flat := LS.Residuals(xs, values, LS.Mean(values), 0.0);
            r2 * flat == flat - LS.Residuals(xs, values, a, b) && (AllEqual(values) ==> r2 == 1.0)
  {
    var m := LS.MomentsOf(AsReals(ordinals), values);
    assert OrderFit(ordinals, values).value.r2 == LS.Determination(m) && m.sxx != 0.0;
    hide *;
    ShareOfBest(AsReals(ordinals), values, a, b);
    Complement(LS.Determination(m), LS.Residuals(AsReals(ordinals), values, LS.Mean(values), 0.0));
  }

  /** So is a trend's. */
  lemma TrendShareIsExplained(s: Series, a: real, b: real)
    requires Fit(s).Some? && IsBestLine(s, a, b)
    ensures var r2, flat := Fit(s).value.r2, SquaredError(s, LS.Mean(Values(s)), 0.0);
            r2 * flat == flat - SquaredError(s, a, b) && (AllEqual(Values(s)) ==> r2 == 1.0)
  {
    var xs, ys := Offsets(s), Values(s);
    ErrorOf(s, a, b);
    ErrorOf(s, LS.Mean(ys), 0.0);
    forall a', b'
      ensures LS.Residuals(xs, ys, a, b) <= LS.Residuals(xs, ys, a', b')
    {
      ErrorOf(s, a', b');
      assert SquaredError(s, a, b) <= SquaredError(s, a', b');
    }
    assert FitsBest(xs, ys, a, b);
    assert Fit(s).value.r2 == LS.Determination(LS.MomentsOf(xs, ys)) && LS.MomentsOf(xs, ys).sxx != 0.0;
    hide *;
    ShareOfBest(xs, ys, a, b);
    Complement(LS.Determination(LS.MomentsOf(xs, ys)), LS.Residuals(xs, ys, LS.Mean(ys), 0.0));
  }

  // ---------- rates ----------

  /** p stands at q's instant, and times the seconds since o it is the rise from o to q. */
  predicate IsRate(p: Point, o: Point, q: Point) {
    p.at == q.at && p.v * ((q.at - o.at) as real / 1_000_000_000.0) == q.v - o.v
  }

  lemma OneRate(o: Point, q: Point)
    requires o.at < q.at
    ensures IsRate(Point(q.at, PerSecond(q.v - o.v, q.at - o.at)), o, q)
  {
    RateTimesInterval(q.v - o.v, q.at - o.at);
    hide PerSecond;
  }

  predicate AllRates(rate: Series, s: Series) {
    |rate| + 1 == |s| && forall k :: 0 <= k < |rate| ==> IsRate(rate[k], s[k], s[k + 1])
  }

  lemma OneMoreRate(rate: Series, p: Point, s: Series)
    requires |s| > 1 && AllRates(rate, s[..|s| - 1]) && IsRate(p, s[|s| - 2], s[|s| - 1])
    ensures AllRates(rate + [p], s)
  {
    hide IsRate;
    var front := s[..|s| - 1];
    forall k | 0 <= k < |rate + [p]|
      ensures IsRate((rate + [p])[k], s[k], s[k + 1])
    {
      assert k < |rate| ==> front[k] == s[k] && front[k + 1] == s[k + 1];
    }
  }

  /** A counter that never falls rises by each of its rates times the seconds of the interval before it. */
  lemma {:induction false} RatesAreRisesPerSecond(s: Series)
    requires StrictlySorted(s) && NeverFalls(s) && s != []
    ensures Differentiated(s).1 == 0 && AllRates(Differentiated(s).0, s)
  {
    hide PerSecond, AllRates;
    if |s| > 1 {
      var n := |s| - 1;
      RatesAreRisesPerSecond(s[..n]);
      OneRate(s[n - 1], s[n]);
      var p := Point(s[n].at, PerSecond(s[n].v - s[n - 1].v, s[n].at - s[n - 1].at));
      OneMoreRate(Differentiated(s[..n]).0, p, s);
    } else {
      NoRates(s);
    }
  }

  lemma NoRates(s: Series)
    requires |s| == 1
    ensures AllRates([], s)
  {
  }
}
