/** Exactly when two samples are said to differ (stats/compare.go), in terms of the samples alone. */
module Decisions {
  import opened Describe
  import opened Options
  import opened Randomness
  import opened Samples
  import C = Compare

  /** Neither interval reaches the other, as far as both are known. */
  predicate Apart(a: Option<Interval>, b: Option<Interval>) {
    a.None? || b.None? || a.value.hi < b.value.lo || b.value.hi < a.value.lo
  }

  /**
   A rise of the median from ma by some amount counts: as a percentage of ma it is at least the floor,
   the range of the old values, and the range of the new ones as a percentage of their own median.
   */
  predicate ClearRise(rise: real, a: Summary, b: Summary, floor: real) {
    && 100.0 * rise >= floor * Size(a.median)
    && rise >= a.max - a.min
    && (b.median != 0.0 ==> rise * Size(b.median) >= (b.max - b.min) * Size(a.median))
  }

  /** With a median of 0 there is nothing to measure a rise against: it counts as none. */
  predicate ClearZero(b: Summary, floor: real) {
    floor <= 0.0 && (b.median == 0.0 || b.max <= b.min)
  }

  // ---------- arithmetic ----------

  lemma Scaled(x: real, y: real, d: real)
    requires d > 0.0
    ensures x / d * 100.0 >= y <==> 100.0 * x >= y * d
  {
    var q := x / d;
    assert q * d == x;
    if q * 100.0 >= y {
      assert (q * 100.0 - y) * d >= 0.0;
    } else {
      assert (y - q * 100.0) * d > 0.0;
    }
  }

  lemma Cross(x: real, y: real, d: real, e: real)
    requires d > 0.0 && e > 0.0
    ensures 100.0 * x >= (y / e * 100.0) * d <==> x * e >= y * d
  {
    var p := y / e;
    assert p * e == y;
    assert (p * 100.0) * d == 100.0 * (p * d);
    assert (p * d) * e == (p * e) * d by { Swap(p, d, e); }
    if x >= p * d {
      assert (x - p * d) * e >= 0.0;
    } else {
      assert (p * d - x) * e > 0.0;
    }
  }

  lemma Swap(p: real, d: real, e: real)
    ensures (p * d) * e == (p * e) * d
  {
  }

  /** The size of the delta against each part of the band. */
  lemma ClearIff(delta: real, a: Summary, b: Summary, floor: real)
    requires a.median != 0.0 && delta >= 0.0
    requires a.spreadPct == SpreadPct(a.min, a.max, a.median) && b.spreadPct == SpreadPct(b.min, b.max, b.median)
    ensures var pct := delta / Size(a.median) * 100.0;
            pct >= floor && pct >= a.spreadPct && pct >= b.spreadPct <==> ClearRise(delta, a, b, floor)
  {
    var d := Size(a.median);
    Scaled(delta, floor, d);
    Scaled(delta, a.spreadPct, d);
    Scaled(delta, b.spreadPct, d);
    SpreadTimes(a.min, a.max, a.median);
    if b.median != 0.0 {
      Cross(delta, b.max - b.min, d, Size(b.median));
    } else {
      NonNegativeOver(delta, d);
    }
    hide SpreadPct;
    SpreadAgain(b.min, b.max, b.median);
  }

  lemma SpreadTimes(min: real, max: real, median: real)
    requires median != 0.0
    ensures SpreadPct(min, max, median) * Size(median) == 100.0 * (max - min)
  {
    ShareOf(max - min, Size(median));
  }

  lemma SpreadAgain(min: real, max: real, median: real)
    ensures SpreadPct(min, max, median) == if median == 0.0 then 0.0 else (max - min) / Size(median) * 100.0
  {
  }

  lemma NonNegativeOver(x: real, d: real)
    requires x >= 0.0 && d > 0.0
    ensures x / d * 100.0 >= 0.0
  {
    Scaled(x, 0.0, d);
  }

  // ---------- the decision ----------

  predicate Rises(a: Summary, b: Summary, floor: real) {
    a.median != 0.0 && b.median > a.median && ClearRise(b.median - a.median, a, b, floor)
  }

  predicate Falls(a: Summary, b: Summary, floor: real) {
    if a.median == 0.0 then ClearZero(b, floor)
    else b.median <= a.median && ClearRise(a.median - b.median, a, b, floor)
  }

  lemma DeltaSize(ma: real, mb: real)
    requires ma != 0.0
    ensures var delta := C.DeltaPct(ma, mb);
            && delta * Size(ma) == 100.0 * (mb - ma)
            && (delta > 0.0 <==> mb > ma)
            && Size(delta) == Size(mb - ma) / Size(ma) * 100.0
  {
    C.PercentSign(mb - ma, Size(ma));
    ShareOf(mb - ma, Size(ma));
    assert C.DeltaPct(ma, mb) == (mb - ma) / Size(ma) * 100.0;
  }

  lemma ZeroBand(b: Summary, floor: real)
    requires b.spreadPct == SpreadPct(b.min, b.max, b.median)
    ensures 0.0 >= floor && 0.0 >= b.spreadPct <==> ClearZero(b, floor)
  {
    SpreadAgain(b.min, b.max, b.median);
    if b.median != 0.0 {
      C.PercentSign(b.max - b.min, Size(b.median));
    }
    hide SpreadPct;
  }

  predicate Enough(a: Summary, b: Summary, minN: int) {
    a.n >= minN && b.n >= minN
  }

  lemma BandReached(a: Summary, b: Summary, cfg: C.Config)
    requires a.spreadPct == SpreadPct(a.min, a.max, a.median) && b.spreadPct == SpreadPct(b.min, b.max, b.median)
    ensures var delta := C.DeltaPct(a.median, b.median);
            && (Size(delta) >= C.Band(a, b, cfg) && delta > 0.0 <==> Rises(a, b, cfg.noiseFloorPct))
            && (Size(delta) >= C.Band(a, b, cfg) && delta <= 0.0 <==> Falls(a, b, cfg.noiseFloorPct))
  {
    hide SpreadPct, ClearRise, ClearZero;
    if a.median == 0.0 {
      ZeroBand(b, cfg.noiseFloorPct);
      assert a.spreadPct == 0.0 by { SpreadAgain(a.min, a.max, a.median); }
    } else {
      DeltaSize(a.median, b.median);
      ClearIff(Size(b.median - a.median), a, b, cfg.noiseFloorPct);
      hide C.DeltaPct;
    }
  }

  lemma DecideIff(a: Summary, b: Summary, cfg: C.Config)
    requires a.spreadPct == SpreadPct(a.min, a.max, a.median) && b.spreadPct == SpreadPct(b.min, b.max, b.median)
    ensures var d := C.Decide(a, b, cfg);
            && (d == C.Insufficient <==> !Enough(a, b, cfg.minN))
            && (d == C.Higher <==> Enough(a, b, cfg.minN) && Apart(a.ci, b.ci) && Rises(a, b, cfg.noiseFloorPct))
            && (d == C.Lower <==> Enough(a, b, cfg.minN) && Apart(a.ci, b.ci) && Falls(a, b, cfg.noiseFloorPct))
  {
    BandReached(a, b, cfg);
    hide SpreadPct, Rises, Falls, C.Band, C.DeltaPct;
  }

  /** A comparison's two summaries are those of its samples, with their intervals. */
  lemma SidesAre(a: seq<real>, b: seq<real>, cfg: C.Config, rnd: Option<Source>)
    requires a != [] && b != []
    ensures Described(a).Some? && Described(b).Some?
    ensures var (c, rnd') := C.Compared(a, b, cfg, rnd);
            && c.a.Some? && c.b.Some?
            && c.a.value == Described(a).value.(ci := c.a.value.ci) && c.b.value == Described(b).value.(ci := c.b.value.ci)
            && c.decision == C.Decide(c.a.value, c.b.value, cfg)
            && c.deltaPct == C.DeltaPct(c.a.value.median, c.b.value.median) && c.bandPct == C.Band(c.a.value, c.b.value, cfg)
  {
    hide Described, Bootstrapped, C.Decide, C.DeltaPct, C.Band;
    Defined(a);
    Defined(b);
  }

  lemma Defined(xs: seq<real>)
    ensures Described(xs).Some? <==> xs != []
    ensures xs != [] ==> var s := Described(xs).value; s.n == |xs| && s.spreadPct == SpreadPct(s.min, s.max, s.median)
  {
    hide Quantile, SpreadPct, Deviations, Sorting.Sort;
  }

  /**
   The decision, exactly.  Without values on both sides, or with too few, nothing is decided.  Otherwise
   Higher is said if and only if the median rises, by at least the floor, the range of the old values and
   the range of the new ones as a share of their median, and the resampled intervals do not touch; Lower
   if and only if it does not rise and falls by as much.
   */
  lemma DecisionIs(a: seq<real>, b: seq<real>, cfg: C.Config, rnd: Option<Source>)
    ensures a == [] || b == [] ==> C.Compared(a, b, cfg, rnd).0.decision == C.Insufficient
    ensures a != [] && b != [] ==>
              var c := C.Compared(a, b, cfg, rnd).0;
              && c.a.Some? && c.b.Some? && Described(a).Some? && Described(b).Some?
              && c.a.value == Described(a).value.(ci := c.a.value.ci) && c.b.value == Described(b).value.(ci := c.b.value.ci)
              && var apart := Apart(c.a.value.ci, c.b.value.ci);
                 && (c.decision == C.Insufficient <==> |a| < cfg.minN || |b| < cfg.minN)
                 && (c.decision == C.Higher <==>
                       |a| >= cfg.minN && |b| >= cfg.minN && apart && Rises(c.a.value, c.b.value, cfg.noiseFloorPct))
                 && (c.decision == C.Lower <==>
                       |a| >= cfg.minN && |b| >= cfg.minN && apart && Falls(c.a.value, c.b.value, cfg.noiseFloorPct))
  {
    Defined(a);
    Defined(b);
    if a != [] && b != [] {
      SidesAre(a, b, cfg, rnd);
      var c := C.Compared(a, b, cfg, rnd).0;
      hide Described, C.Compared, C.Decide, SpreadPct, Rises, Falls, Apart;
      DecideIff(c.a.value, c.b.value, cfg);
    }
    hide *;
  }

  /** The change from ma to mb as a percentage of ma's size, none from 0. */
  predicate IsChange(pct: real, ma: real, mb: real) {
    if ma == 0.0 then pct == 0.0 else pct * Size(ma) == 100.0 * (mb - ma)
  }

  lemma DeltaIsChange(ma: real, mb: real)
    ensures IsChange(C.DeltaPct(ma, mb), ma, mb)
  {
    if ma != 0.0 {
      DeltaSize(ma, mb);
    }
  }

  /** The delta is the change of the median as a percentage of the old one; the band is the largest of its three parts. */
  lemma FiguresAre(a: seq<real>, b: seq<real>, cfg: C.Config, rnd: Option<Source>)
    requires a != [] && b != []
    ensures var c := C.Compared(a, b, cfg, rnd).0;
            && c.a.Some? && c.b.Some?
            && IsChange(c.deltaPct, c.a.value.median, c.b.value.median)
            && c.bandPct >= cfg.noiseFloorPct && c.bandPct >= c.a.value.spreadPct && c.bandPct >= c.b.value.spreadPct
            && (c.bandPct == cfg.noiseFloorPct || c.bandPct == c.a.value.spreadPct || c.bandPct == c.b.value.spreadPct)
  {
    SidesAre(a, b, cfg, rnd);
    var c := C.Compared(a, b, cfg, rnd).0;
    DeltaIsChange(c.a.value.median, c.b.value.median);
    hide Described, C.Compared, C.Decide, C.DeltaPct, IsChange;
  }

  /** The old sample is resampled first, the new one where that left the source; without a source there are no intervals. */
  lemma IntervalsAre(a: seq<real>, b: seq<real>, cfg: C.Config, rnd: Option<Source>)
    requires a != [] && b != []
    ensures var (c, rnd') := C.Compared(a, b, cfg, rnd);
            && c.a.Some? && c.b.Some?
            && match rnd
               case None => c.a.value.ci == None && c.b.value.ci == None && rnd' == None
               case Some(r) =>
                 var (ca, r1) := Bootstrapped(a, cfg.level, cfg.iters, r);
                 var (cb, r2) := Bootstrapped(b, cfg.level, cfg.iters, r1);
                 c.a.value.ci == ca && c.b.value.ci == cb && rnd' == Some(r2)
  {
    Defined(a);
    Defined(b);
    hide Described, Bootstrapped, C.Decide, C.DeltaPct, C.Band;
  }
}
