/**
 Steady-state detection (steady.go): the earliest suffix of a load pass flat enough to measure.

 The coefficient of variation is compared through its square, so no root is taken.
 */
module Steady {
  import opened Options
  import opened Reals
  import opened TimeSeries
  import LS = LeastSquares

  /** Why the corroborating series did not answer. */
  datatype Note = NoNote | NoTrend | TooCoarse

  datatype SteadyWindow = SteadyWindow(
    from: int, to: int, discarded: int, cvSquared: real, slopePct: real, corroborated: bool, note: Note)

  datatype Config = Config(
    bucket: int, minDuration: int, maxCV: real, maxSlope: real,
    corroborate: Series, coMaxSlope: real, coResolution: real, coMaxQuantumFrac: real)

  function TrendPct(perSecond: real, mean: real): real
    requires mean != 0.0
  {
    perSecond * 60.0 / Abs(mean) * 100.0
  }

  function SlopePctPerMin(s: Series): Option<real> {
    if Fit(s).None? || Abs(LS.Mean(Values(s))) < NEAR_ZERO then None
    else Some(TrendPct(Fit(s).value.perSecond, LS.Mean(Values(s))))
  }

  method ComputeSlopePctPerMin(s: Series) returns (pct: Option<real>)
    ensures pct == SlopePctPerMin(s)
  {
    hide LS.Sum, TrendPct;
    var t := Slope(s);
    if t.None? { return None; }
    var vs := Values(s);
    var sum := LS.ComputeSum(vs);
    var mean := sum / |vs| as real;
    if Abs(mean) < NEAR_ZERO { return None; }
    pct := Some(TrendPct(t.value.perSecond, mean));
  }

  /** Whether the corroborating series' own quantum is too large a fraction of its mean to see a trend. */
  function IsTooCoarse(co: Series, cfg: Config): bool {
    if cfg.coResolution <= 0.0 || cfg.coMaxQuantumFrac <= 0.0 then false
    else if co == [] || Abs(LS.Mean(Values(co))) < NEAR_ZERO then true
    else cfg.coResolution / Abs(LS.Mean(Values(co))) > cfg.coMaxQuantumFrac
  }

  /** The quantum as a share of the mean is nothing where it would be infinite, and zero where it is not asked for. */
  method TooCoarseToCorroborate(co: Series, cfg: Config) returns (share: Option<real>, coarse: bool)
    ensures coarse == IsTooCoarse(co, cfg)
    ensures cfg.coResolution <= 0.0 || cfg.coMaxQuantumFrac <= 0.0 ==> share == Some(0.0)
    ensures cfg.coResolution > 0.0 && cfg.coMaxQuantumFrac > 0.0 ==>
              && (share.None? <==> co == [] || Abs(LS.Mean(Values(co))) < NEAR_ZERO)
              && (share.Some? ==> share.value * Abs(LS.Mean(Values(co))) == cfg.coResolution)
              && (coarse <==> share.None? || share.value > cfg.coMaxQuantumFrac)
  {
    if cfg.coResolution <= 0.0 || cfg.coMaxQuantumFrac <= 0.0 { return Some(0.0), false; }
    if co == [] { return None, true; }
    var vs := Values(co);
    var sum := LS.ComputeSum(vs);
    var mean := sum / |vs| as real;
    if Abs(mean) < NEAR_ZERO { return None, true; }
    var frac := cfg.coResolution / Abs(mean);
    return Some(frac), frac > cfg.coMaxQuantumFrac;
  }

  // ---------- what it means for one interval to qualify ----------

  predicate Flat(points: Series, cfg: Config) {
    && CVSquared(points).Some? && cfg.maxCV >= 0.0 && CVSquared(points).value <= cfg.maxCV * cfg.maxCV
    && SlopePctPerMin(points).Some? && Abs(SlopePctPerMin(points).value) <= cfg.maxSlope
  }

  /** The corroborating series rejects the interval only when it can answer and its answer is a trend. */
  predicate Vetoes(cfg: Config, from: int, to: int) {
    var co := Clip(cfg.corroborate, from, to);
    && cfg.corroborate != []
    && SlopePctPerMin(co).Some?
    && !IsTooCoarse(co, cfg)
    && Abs(SlopePctPerMin(co).value) > cfg.coMaxSlope
  }

  function CoNote(cfg: Config, from: int, to: int): Note {
    var co := Clip(cfg.corroborate, from, to);
    if cfg.corroborate == [] then NoNote
    else if SlopePctPerMin(co).None? then NoTrend
    else if IsTooCoarse(co, cfg) then TooCoarse
    else NoNote
  }

  predicate Qualifies(b: Series, points: Series, i: nat, cfg: Config)
    requires i < |b|
  {
    var last := b[|b| - 1].at;
    last - b[i].at >= cfg.minDuration && Flat(points, cfg) && !Vetoes(cfg, b[i].at, last)
  }

  /** The window reported for the candidate start i, when it qualifies. */
  function Judge(b: Series, i: nat, cfg: Config): Option<SteadyWindow>
    requires i < |b|
  {
    var from, to := b[i].at, b[|b| - 1].at;
    var points := Clip(b, from, to);
    if !Qualifies(b, points, i, cfg) then None
    else
      var note := CoNote(cfg, from, to);
      Some(SteadyWindow(from, to, from - b[0].at, CVSquared(points).value, SlopePctPerMin(points).value,
                        cfg.corroborate != [] && note == NoNote, note))
  }

  /** Brute force: try every start from i on, to the very end, and take the first that qualifies. */
  function FirstAccepted(b: Series, cfg: Config, i: nat): Option<SteadyWindow>
    requires i <= |b|
    decreases |b| - i
  {
    if i == |b| then None
    else if Judge(b, i, cfg).Some? then Judge(b, i, cfg)
    else FirstAccepted(b, cfg, i + 1)
  }

  function Prepared(rps: Series, cfg: Config): Series {
    if cfg.bucket > 0 then Binned(rps, cfg.bucket) else rps
  }

  lemma PreparedSorted(rps: Series, cfg: Config)
    requires Sorted(rps)
    ensures Sorted(Prepared(rps, cfg))
    ensures cfg.bucket > 0 ==> StrictlySorted(Prepared(rps, cfg))
  {
    if cfg.bucket > 0 && rps != [] {
      BucketStarts(rps, cfg.bucket);
    }
  }

  // ---------- the early-exit search ----------

  /**
   The search walks starts forward, stops at the first that leaves too little time, and never looks
   at the last two; its answer is nevertheless the brute-force one over every start.
   */
  method DetectSteady(rps: Series, cfg: Config) returns (w: Option<SteadyWindow>)
    requires Sorted(rps)
    ensures w == FirstAccepted(Prepared(rps, cfg), cfg, 0)
  {
    hide CVSquared, SlopePctPerMin, IsTooCoarse, Clip, Binned, FirstAccepted;
    var binned := rps;
    if cfg.bucket > 0 {
      binned := Bucket(rps, cfg.bucket);
    }
    PreparedSorted(rps, cfg);
    if |binned| < 3 {
      NoLateStarts(binned, cfg, 0);
      NoneFrom(binned, cfg, 0);
      return None;
    }
    var last := binned[|binned| - 1].at;
    var i := 0;
    while i < |binned| - 2
      invariant i <= |binned| - 2
      invariant i > 0 ==> Judge(binned, i - 1, cfg).None?
      invariant FirstAccepted(binned, cfg, 0) == FirstAccepted(binned, cfg, i)
    {
      SkipRejected(binned, cfg, i);
      var start := binned[i].at;
      if last - start < cfg.minDuration {
        NoneFrom(binned, cfg, i);
        return None;
      }
      var suffix := Window(binned, start, last);
      var cv := ComputeCVSquared(suffix);
      if cv.None? || !(cfg.maxCV >= 0.0 && cv.value <= cfg.maxCV * cfg.maxCV) {
        i := i + 1;
        continue;
      }
      var slopePct := ComputeSlopePctPerMin(suffix);
      if slopePct.None? || Abs(slopePct.value) > cfg.maxSlope {
        i := i + 1;
        continue;
      }
      var win := SteadyWindow(start, last, start - binned[0].at, cv.value, slopePct.value, false, NoNote);
      if cfg.corroborate != [] {
        var co := Window(cfg.corroborate, start, last);
        var coSlope := ComputeSlopePctPerMin(co);
        var _, coarse := TooCoarseToCorroborate(co, cfg);
        if coSlope.None? {
          win := win.(note := NoTrend);
        } else if coarse {
          win := win.(note := TooCoarse);
        } else if Abs(coSlope.value) > cfg.coMaxSlope {
          i := i + 1;
          continue;
        } else {
          win := win.(corroborated := true);
        }
      }
      return Some(win);
    }
    NoLateStarts(binned, cfg, i);
    NoneFrom(binned, cfg, i);
    return None;
  }

  lemma SkipRejected(b: Series, cfg: Config, i: nat)
    requires i < |b|
    ensures FirstAccepted(b, cfg, i) == if Judge(b, i, cfg).Some? then Judge(b, i, cfg) else FirstAccepted(b, cfg, i + 1)
  {
  }

  lemma {:induction false} NoneFrom(b: Series, cfg: Config, i: nat)
    requires i <= |b| && forall j :: i <= j < |b| ==> Judge(b, j, cfg).None?
    ensures FirstAccepted(b, cfg, i).None?
    decreases |b| - i
  {
    if i < |b| {
      NoneFrom(b, cfg, i + 1);
    }
  }

  lemma TrendNeedsThree(s: Series)
    ensures SlopePctPerMin(s).Some? ==> |s| >= 3
  {
  }

  /** Two starts at the same instant are the same candidate. */
  lemma SameInstantSameJudgement(b: Series, i: nat, j: nat, cfg: Config)
    requires i < |b| && j < |b| && b[i].at == b[j].at
    ensures Judge(b, i, cfg) == Judge(b, j, cfg)
  {
  }

  /** A start among the last two can qualify only if an earlier start at the same instant did. */
  lemma NoLateStarts(b: Series, cfg: Config, i: nat)
    requires Sorted(b) && i <= |b| && |b| - i <= 2
    requires i > 0 ==> Judge(b, i - 1, cfg).None?
    ensures forall j :: i <= j < |b| ==> Judge(b, j, cfg).None?
  {
    hide CVSquared, SlopePctPerMin, Clip, CoNote;
    forall j | i <= j < |b|
      ensures Judge(b, j, cfg).None?
    {
      if Judge(b, j, cfg).Some? {
        TrendNeedsThree(Clip(b, b[j].at, b[|b| - 1].at));
        var lo, hi := WindowIsSlice(b, b[j].at, b[|b| - 1].at);
        assert lo <= i - 1;
        SameInstantSameJudgement(b, i - 1, j, cfg);
      }
    }
  }

  // ---------- the results ----------

  /** The answer is the first qualifying start, and there is none exactly when no start qualifies. */
  lemma {:induction false} FirstAcceptedIsEarliest(b: Series, cfg: Config, i: nat) returns (k: nat)
    requires i <= |b|
    ensures i <= k <= |b|
    ensures forall j :: i <= j < k ==> Judge(b, j, cfg).None?
    ensures FirstAccepted(b, cfg, i) == if k < |b| then Judge(b, k, cfg) else None
    ensures k < |b| ==> Judge(b, k, cfg).Some?
    decreases |b| - i
  {
    k := i;
    if i < |b| && Judge(b, i, cfg).None? {
      k := FirstAcceptedIsEarliest(b, cfg, i + 1);
    }
  }

  /** w describes the suffix b[i..], which qualifies while no longer suffix does. */
  ghost predicate IsEarliestSuffix(b: Series, i: nat, cfg: Config, w: SteadyWindow)
    requires i < |b|
  {
    && Qualifies(b, b[i..], i, cfg)
    && (forall j :: 0 <= j < i ==> !Qualifies(b, b[j..], j, cfg))
    && w.from == b[i].at && w.to == b[|b| - 1].at
    && Some(w.cvSquared) == CVSquared(b[i..]) && Some(w.slopePct) == SlopePctPerMin(b[i..])
  }

  /**
   Bucketed, the accepted interval is a suffix of the bins and nothing else: detection succeeds
   exactly when some suffix is long enough, flat and not vetoed, and it starts at the earliest.
   */
  lemma EarliestFlatSuffix(rps: Series, cfg: Config)
    requires Sorted(rps) && cfg.bucket > 0
    ensures var b := Binned(rps, cfg.bucket);
            var w := FirstAccepted(b, cfg, 0);
            && (w.Some? <==> exists i :: 0 <= i < |b| && Qualifies(b, b[i..], i, cfg))
            && (w.Some? ==> exists i :: 0 <= i < |b| && IsEarliestSuffix(b, i, cfg, w.value) && w.value.discarded == b[i].at - rps[0].at)
  {
    hide CVSquared, SlopePctPerMin, IsTooCoarse, Clip, Binned, CoNote, FirstAccepted, Vetoes;
    var b := Binned(rps, cfg.bucket);
    PreparedSorted(rps, cfg);
    forall j | 0 <= j < |b|
      ensures Judge(b, j, cfg).Some? <==> Qualifies(b, b[j..], j, cfg)
    {
      WindowIsSuffixIff(b, j);
    }
    if rps != [] {
      BucketOrigin(rps, cfg.bucket);
    } else {
      assert b == [] by { BinnedEmpty(cfg.bucket); }
    }
    var k := FirstAcceptedIsEarliest(b, cfg, 0);
    if k < |b| {
      WindowIsSuffixIff(b, k);
      var w := FirstAccepted(b, cfg, 0).value;
      assert IsEarliestSuffix(b, k, cfg, w);
    }
  }

  lemma BinnedEmpty(width: int)
    ensures Binned([], width) == []
  {
  }

  /** One configuration asks no more than another: looser bounds, a coarser known instrument, or no second opinion. */
  predicate Relaxes(loose: Config, cfg: Config) {
    && loose.bucket == cfg.bucket
    && loose.minDuration <= cfg.minDuration
    && loose.maxCV >= cfg.maxCV
    && loose.maxSlope >= cfg.maxSlope
    && (loose.corroborate == [] || loose.corroborate == cfg.corroborate)
    && loose.coMaxSlope >= cfg.coMaxSlope
    && loose.coResolution >= cfg.coResolution
    && loose.coMaxQuantumFrac == cfg.coMaxQuantumFrac
  }

  lemma CoarserStaysCoarse(co: Series, cfg: Config, loose: Config)
    requires Relaxes(loose, cfg) && IsTooCoarse(co, cfg)
    ensures IsTooCoarse(co, loose)
  {
    if co != [] && Abs(LS.Mean(Values(co))) >= NEAR_ZERO {
      QuotientMonotone(cfg.coResolution, loose.coResolution, Abs(LS.Mean(Values(co))));
    }
  }

  lemma QuotientMonotone(x: real, y: real, d: real)
    requires x <= y && d > 0.0
    ensures x / d <= y / d
  {
  }

  lemma SquareMonotone(x: real, y: real)
    requires 0.0 <= x <= y
    ensures x * x <= y * y
  {
  }

  lemma RelaxedStillQualifies(b: Series, points: Series, i: nat, cfg: Config, loose: Config)
    requires i < |b| && Relaxes(loose, cfg) && Qualifies(b, points, i, cfg)
    ensures Qualifies(b, points, i, loose)
  {
    SquareMonotone(cfg.maxCV, loose.maxCV);
    var from, to := b[i].at, b[|b| - 1].at;
    var co := Clip(cfg.corroborate, from, to);
    if loose.corroborate != [] && IsTooCoarse(co, cfg) {
      CoarserStaysCoarse(co, cfg, loose);
    }
    hide CVSquared, SlopePctPerMin, IsTooCoarse, Clip;
  }

  /**
   Asking less never costs a window: raising the corroborator's known resolution, removing the
   corroborator or loosening a bound keeps acceptance and can only move the start earlier.
   */
  lemma RelaxingMovesEarlier(b: Series, cfg: Config, loose: Config)
    requires Sorted(b) && Relaxes(loose, cfg)
    ensures var w, w' := FirstAccepted(b, cfg, 0), FirstAccepted(b, loose, 0);
            w.Some? ==> w'.Some? && w'.value.from <= w.value.from && w'.value.to == w.value.to
  {
    hide Qualifies, CoNote, Clip, CVSquared, SlopePctPerMin, FirstAccepted;
    var k := FirstAcceptedIsEarliest(b, cfg, 0);
    var k' := FirstAcceptedIsEarliest(b, loose, 0);
    if k < |b| {
      RelaxedStillQualifies(b, Clip(b, b[k].at, b[|b| - 1].at), k, cfg, loose);
      assert Judge(b, k, loose).Some?;
      assert k' <= k;
    }
  }

  function MoveWindow(w: Option<SteadyWindow>, d: int): Option<SteadyWindow> {
    if w.None? then None else Some(w.value.(from := w.value.from + d, to := w.value.to + d))
  }

  lemma ShiftKeepsTrend(s: Series, d: int)
    ensures SlopePctPerMin(Shift(s, d)) == SlopePctPerMin(s)
  {
    ShiftKeepsShape(s, d);
  }

  lemma ShiftKeepsJudgement(b: Series, i: nat, cfg: Config, d: int)
    requires i < |b|
    ensures Judge(Shift(b, d), i, cfg.(corroborate := Shift(cfg.corroborate, d))) == MoveWindow(Judge(b, i, cfg), d)
  {
    hide CVSquared, SlopePctPerMin, Clip, IsTooCoarse;
    var from, to := b[i].at, b[|b| - 1].at;
    ClipShift(b, from, to, d);
    ClipShift(cfg.corroborate, from, to, d);
    var points, co := Clip(b, from, to), Clip(cfg.corroborate, from, to);
    ShiftKeepsShape(points, d);
    ShiftKeepsTrend(points, d);
    ShiftKeepsTrend(co, d);
    ShiftKeepsCoarseness(co, cfg, d);
  }

  lemma ShiftKeepsCoarseness(co: Series, cfg: Config, d: int)
    ensures IsTooCoarse(Shift(co, d), cfg.(corroborate := Shift(cfg.corroborate, d))) == IsTooCoarse(co, cfg)
  {
    hide LS.Mean;
    ShiftKeepsShape(co, d);
  }

  lemma {:induction false} ShiftKeepsSearch(b: Series, cfg: Config, i: nat, d: int)
    requires i <= |b|
    ensures FirstAccepted(Shift(b, d), cfg.(corroborate := Shift(cfg.corroborate, d)), i) == MoveWindow(FirstAccepted(b, cfg, i), d)
    decreases |b| - i
  {
    if i < |b| {
      ShiftKeepsJudgement(b, i, cfg, d);
      ShiftKeepsSearch(b, cfg, i + 1, d);
      hide Judge;
    }
  }

  /**
   Detection does not depend on where the clock's zero is: moving both series by one offset moves
   the detected window by it and changes nothing else about the answer.
   */
  lemma DetectionFollowsTheClock(rps: Series, cfg: Config, d: int)
    ensures var cfg' := cfg.(corroborate := Shift(cfg.corroborate, d));
            FirstAccepted(Prepared(Shift(rps, d), cfg'), cfg', 0) == MoveWindow(FirstAccepted(Prepared(rps, cfg), cfg, 0), d)
  {
    BinnedShift(rps, cfg.bucket, d);
    ShiftKeepsSearch(Prepared(rps, cfg), cfg, 0, d);
    hide Judge, Binned, FirstAccepted;
  }

  /** The trend in percent per minute does not see the unit of the values. */
  lemma RescalingKeepsTrend(s: Series, k: real)
    requires k > 0.0 && s != []
    requires Abs(LS.Mean(Values(s))) >= NEAR_ZERO && Abs(LS.Times(k, LS.Mean(Values(s)))) >= NEAR_ZERO
    ensures SlopePctPerMin(Scale(s, k)) == SlopePctPerMin(s)
  {
    ScaleKeepsShape(s, k);
    if Fit(s).Some? {
      ScaleTrend(Fit(s).value.perSecond, LS.Mean(Values(s)), k);
    }
    hide TrendPct, LS.Times, LS.Mean, Fit;
  }

  lemma ScaleTrend(g: real, mean: real, k: real)
    requires k > 0.0 && mean != 0.0
    ensures LS.Times(k, mean) != 0.0 && TrendPct(LS.Times(k, g), LS.Times(k, mean)) == TrendPct(g, mean)
  {
    assert Abs(k * mean) == k * Abs(mean);
    CancelScale(g * 60.0, Abs(mean), k);
    assert (k * g) * 60.0 == k * (g * 60.0);
  }
}
