/**
 Deciding whether two arms differ (compare.go).  The direction is neutral here: Higher and Lower
 say nothing about better or worse.
 */
module Compare {
  import opened Options
  import opened Describe
  import opened Randomness
  import opened Reals
  import Sorting

  datatype Decision = Noise | Higher | Lower | Insufficient

  predicate Significant(d: Decision) { d == Higher || d == Lower }

  datatype Config = Config(noiseFloorPct: real, minN: int, level: real, iters: int)

  datatype Comparison = Comparison(a: Option<Summary>, b: Option<Summary>, deltaPct: real, bandPct: real, decision: Decision)

  function DeltaPct(ma: real, mb: real): real {
    if ma == 0.0 then 0.0 else (mb - ma) / Abs(ma) * 100.0
  }

  function Band(a: Summary, b: Summary, cfg: Config): real {
    Max(cfg.noiseFloorPct, Max(a.spreadPct, b.spreadPct))
  }

  /** The three rules that can decline, in order; what is left is a direction. */
  function Decide(a: Summary, b: Summary, cfg: Config): Decision {
    var delta := DeltaPct(a.median, b.median);
    if a.n < cfg.minN || b.n < cfg.minN then Insufficient
    else if Abs(delta) < Band(a, b, cfg) then Noise
    else if a.ci.Some? && b.ci.Some? && Overlaps(a.ci.value, b.ci.value) then Noise
    else if delta > 0.0 then Higher
    else Lower
  }

  /** The two bootstraps, the baseline's first; without a source there are no intervals. */
  function Intervals(a: seq<real>, b: seq<real>, cfg: Config, rnd: Option<Source>): (Option<Interval>, Option<Interval>, Option<Source>) {
    if rnd.None? then (None, None, None)
    else
      var (ca, r1) := Bootstrapped(a, cfg.level, cfg.iters, rnd.value);
      var (cb, r2) := Bootstrapped(b, cfg.level, cfg.iters, r1);
      (ca, cb, Some(r2))
  }

  /** The comparison, and where the source stands afterwards. */
  function Compared(a: seq<real>, b: seq<real>, cfg: Config, rnd: Option<Source>): (Comparison, Option<Source>) {
    var sa, sb := Described(a), Described(b);
    if sa.None? || sb.None? then (Comparison(sa, sb, 0.0, 0.0, Insufficient), rnd)
    else
      var (ca, cb, rnd') := Intervals(a, b, cfg, rnd);
      var va, vb := sa.value.(ci := ca), sb.value.(ci := cb);
      (Comparison(Some(va), Some(vb), DeltaPct(va.median, vb.median), Band(va, vb, cfg), Decide(va, vb, cfg)), rnd')
  }

  ghost function StateOf(rnd: Rand?): Option<Source>
    reads rnd
  {
    if rnd == null then None else Some(rnd.State())
  }

  method Compare(a: seq<real>, b: seq<real>, cfg: Config, rnd: Rand?) returns (c: Comparison)
    modifies rnd
    ensures (c, StateOf(rnd)) == Compared(a, b, cfg, old(StateOf(rnd)))
  {
    hide Described, Bootstrapped, DeltaPct;
    var sa := Describe.Describe(a);
    var sb := Describe.Describe(b);
    if sa.None? || sb.None? {
      return Comparison(sa, sb, 0.0, 0.0, Insufficient);
    }
    var va, vb := sa.value, sb.value;
    NoIntervalYet(a);
    NoIntervalYet(b);
    if rnd != null {
      var ca := BootstrapMedianCI(a, cfg.level, cfg.iters, rnd);
      if ca.Some? { va := va.(ci := ca); }
      var cb := BootstrapMedianCI(b, cfg.level, cfg.iters, rnd);
      if cb.Some? { vb := vb.(ci := cb); }
    }
    var band := Max(cfg.noiseFloorPct, Max(va.spreadPct, vb.spreadPct));
    var delta := DeltaPct(va.median, vb.median);
    c := Comparison(Some(va), Some(vb), delta, band, Insufficient);
    if va.n < cfg.minN || vb.n < cfg.minN { return; }
    if Abs(delta) < band {
      c := c.(decision := Noise);
      return;
    }
    if va.ci.Some? && vb.ci.Some? && Overlaps(va.ci.value, vb.ci.value) {
      c := c.(decision := Noise);
      return;
    }
    c := c.(decision := if delta > 0.0 then Higher else Lower);
  }

  lemma NoIntervalYet(xs: seq<real>)
    ensures Described(xs).Some? ==> Described(xs).value.ci == None
  {
  }

  // ---------- arithmetic ----------

  lemma CancelPercent(x: real, y: real, d: real)
    requires d > 0.0 && x / d * 100.0 >= y / d * 100.0
    ensures x >= y
  {
    assert (x / d) * d == x && (y / d) * d == y;
    var p, q := x / d, y / d;
    assert (p - q) * d >= 0.0;
  }

  lemma PercentSign(x: real, d: real)
    requires d > 0.0
    ensures x / d * 100.0 > 0.0 <==> x > 0.0
    ensures Abs(x / d * 100.0) == Abs(x) / d * 100.0
  {
    var p := x / d;
    assert p * d == x;
    if x < 0.0 {
      assert (-x) / d == -p by { assert (-p) * d == -x; }
    }
  }

  // ---------- what significance means ----------

  /**
   Significance is honest.  With a positive noise floor, Higher is only ever said when the new
   arm's median is at or above the baseline's largest repetition, Lower only when it is at or
   below the smallest; both need the minimum count, a baseline median to measure against, and
   intervals that do not overlap.
   */
  lemma SignificanceIsHonest(a: seq<real>, b: seq<real>, cfg: Config, rnd: Option<Source>)
    requires cfg.noiseFloorPct > 0.0
    ensures var c := Compared(a, b, cfg, rnd).0;
            Significant(c.decision) ==>
              && a != [] && b != [] && |a| >= cfg.minN && |b| >= cfg.minN && c.a.value.median != 0.0
              && (c.decision == Higher ==> forall x :: x in a ==> x <= c.b.value.median)
              && (c.decision == Lower ==> forall x :: x in a ==> x >= c.b.value.median)
              && (c.a.value.ci.Some? && c.b.value.ci.Some? ==> !Overlaps(c.a.value.ci.value, c.b.value.ci.value))
  {
    var c := Compared(a, b, cfg, rnd).0;
    if Significant(c.decision) {
      SummaryOrdered(a);
      hide Intervals, Quantile, Sorting.Sort, Deviations;
      var sa, sb := Described(a).value, Described(b).value;
      DirectionClearsRange(sa, sb, cfg);
    }
  }

  lemma DirectionClearsRange(a: Summary, b: Summary, cfg: Config)
    requires cfg.noiseFloorPct > 0.0 && a.min <= a.median <= a.max
    requires a.spreadPct == SpreadPct(a.min, a.max, a.median)
    requires Abs(DeltaPct(a.median, b.median)) >= Band(a, b, cfg)
    ensures a.median != 0.0
    ensures if DeltaPct(a.median, b.median) > 0.0 then b.median >= a.max else b.median <= a.min
  {
    var d := Abs(a.median);
    if d != 0.0 {
      PercentSign(b.median - a.median, d);
      CancelPercent(Abs(b.median - a.median), a.max - a.min, d);
    }
  }

  /** Two arms made of the same repetitions are never called different. */
  lemma PermutationsNeverDiffer(a: seq<real>, b: seq<real>, cfg: Config, rnd: Option<Source>)
    requires cfg.noiseFloorPct > 0.0 && multiset(a) == multiset(b)
    ensures !Significant(Compared(a, b, cfg, rnd).0.decision)
  {
    hide Intervals, Described, Decide;
    DescribeForgetsOrder(a, b);
    if Described(a).Some? {
      var (ca, cb, _) := Intervals(a, b, cfg, rnd);
      SameMedianNeverSignificant(Described(a).value.(ci := ca), Described(b).value.(ci := cb), cfg);
    }
  }

  lemma SameMedianNeverSignificant(a: Summary, b: Summary, cfg: Config)
    requires cfg.noiseFloorPct > 0.0 && a.median == b.median
    ensures !Significant(Decide(a, b, cfg))
  {
    hide DeltaPct;
    NoDelta(a.median);
  }

  lemma NoDelta(m: real)
    ensures DeltaPct(m, m) == 0.0
  {
    if m != 0.0 {
      PercentSign(0.0, Abs(m));
    }
  }

  /** Swapping the arms never keeps a direction: Higher one way excludes Higher the other way. */
  lemma SwapNeverAgrees(a: seq<real>, b: seq<real>, cfg: Config, r1: Option<Source>, r2: Option<Source>)
    requires cfg.noiseFloorPct > 0.0
    ensures var c, c' := Compared(a, b, cfg, r1).0, Compared(b, a, cfg, r2).0;
            Significant(c.decision) ==> c'.decision != c.decision
  {
    var c, c' := Compared(a, b, cfg, r1).0, Compared(b, a, cfg, r2).0;
    if Significant(c.decision) && c'.decision == c.decision {
      SummaryOrdered(a);
      SummaryOrdered(b);
      hide Intervals, Described;
      var sa, sb := Described(a).value, Described(b).value;
      PercentSignOf(sa.median, sb.median);
      PercentSignOf(sb.median, sa.median);
    }
  }

  lemma PercentSignOf(x: real, y: real)
    ensures DeltaPct(x, y) > 0.0 ==> y > x
    ensures DeltaPct(x, y) < 0.0 ==> y < x
    ensures DeltaPct(x, y) == 0.0 ==> Abs(DeltaPct(x, y)) == 0.0
  {
    if x != 0.0 {
      PercentSign(y - x, Abs(x));
      PercentSign(x - y, Abs(x));
      assert (x - y) / Abs(x) == -((y - x) / Abs(x)) by {
        var p := (y - x) / Abs(x);
        assert (-p) * Abs(x) == x - y;
      }
    }
  }

  /**
   The random source can only veto.  Whatever it deals, delta, band and counts are the same, and a
   comparison is either declined or given the one decision reached with no source at all.
   */
  lemma RandomnessOnlyVetoes(a: seq<real>, b: seq<real>, cfg: Config, rnd: Option<Source>)
    ensures var c, c0 := Compared(a, b, cfg, rnd).0, Compared(a, b, cfg, None).0;
            && c.deltaPct == c0.deltaPct && c.bandPct == c0.bandPct
            && (c.decision == c0.decision || (c.decision == Noise && Significant(c0.decision)))
  {
    hide DeltaPct, Described, Bootstrapped;
  }
}
