/** What a sample's summary and its resampled interval are, of the values themselves (stats/describe.go). */
module Samples {
  import opened Describe
  import opened Options
  import opened Randomness
  import opened Sorting

  function Size(x: real): real { if x < 0.0 then -x else x }

  // ---------- quantiles ----------

  /**
   A quantile is linear between the ordered values: at level k / (n - 1) it is the k-th of them, counted
   from 0, and from there to the next it rises in proportion.
   */
  lemma QuantileIsLinear(sorted: seq<real>, q: real, k: nat)
    requires 0.0 <= q <= 1.0 && k + 1 < |sorted| && k as real <= q * (|sorted| - 1) as real <= (k + 1) as real
    ensures Quantile(sorted, q) == sorted[k] + (q * (|sorted| - 1) as real - k as real) * (sorted[k + 1] - sorted[k])
  {
    var pos := Position(q, |sorted|);
    PositionInRange(q, |sorted|);
    assert pos.Floor == k || pos == (k + 1) as real;
    if pos.Floor == k && pos != k as real {
      Between(sorted[k], sorted[k + 1], pos - k as real);
    }
  }

  lemma Between(x: real, y: real, f: real)
    ensures Lerp(x, y, f) == x + f * (y - x)
  {
  }

  lemma QuantileOfOne(sorted: seq<real>, q: real)
    requires |sorted| == 1 && 0.0 <= q <= 1.0
    ensures Quantile(sorted, q) == sorted[0]
  {
  }

  // ---------- the summary ----------

  function Distance(x: real, c: real): real { if x < c then c - x else x - c }

  /** The distances of the values from c. */
  function Distances(xs: seq<real>, c: real): (ds: seq<real>)
    ensures |ds| == |xs| && forall i :: 0 <= i < |ds| ==> ds[i] == Distance(xs[i], c)
  {
    seq(|xs|, i requires 0 <= i < |xs| => Distance(xs[i], c))
  }

  lemma DistancesStep(x: real, xs: seq<real>, c: real)
    ensures Distances([x] + xs, c) == [Distance(x, c)] + Distances(xs, c)
  {
    hide Distance;
  }

  lemma {:induction false} DistancesInserted(x: real, xs: seq<real>, c: real)
    ensures multiset(Distances(Insert(x, xs), c)) == multiset{Distance(x, c)} + multiset(Distances(xs, c))
  {
    hide Distances, Distance;
    DistancesStep(x, xs, c);
    if xs != [] && x > xs[0] {
      DistancesInserted(x, xs[1..], c);
      DistancesStep(xs[0], Insert(x, xs[1..]), c);
      DistancesStep(xs[0], xs[1..], c);
      assert xs == [xs[0]] + xs[1..];
    }
  }

  lemma {:induction false} DistancesSorted(xs: seq<real>, c: real)
    ensures multiset(Distances(Sort(xs), c)) == multiset(Distances(xs, c))
  {
    hide Distances, Distance, Insert;
    if xs != [] {
      DistancesSorted(xs[1..], c);
      DistancesInserted(xs[0], Sort(xs[1..]), c);
      DistancesStep(xs[0], xs[1..], c);
      assert xs == [xs[0]] + xs[1..];
    }
  }

  /**
   The summary: its count, median, quartiles and their range are those of the ordered values, and the
   deviation is the median of the distances from the median.
   */
  lemma SummaryIs(xs: seq<real>)
    requires xs != []
    ensures Described(xs).Some?
    ensures var s, sorted := Described(xs).value, Sort(xs);
            && s.n == |xs| && s.values == xs && s.ci == None
            && s.q1 == Quantile(sorted, 0.25) && s.median == Quantile(sorted, 0.5) && s.q3 == Quantile(sorted, 0.75)
            && s.iqr == s.q3 - s.q1
    ensures Described(Distances(xs, Described(xs).value.median)).Some?
    ensures Described(xs).value.mad == Described(Distances(xs, Described(xs).value.median)).value.median
  {
    DeviationIs(xs);
    hide Quantile, Sort, Deviations, SpreadPct;
  }

  /** The range as a percentage of the median's size, none for a median of 0. */
  predicate IsSpread(pct: real, min: real, max: real, median: real) {
    if median == 0.0 then pct == 0.0 else pct * Size(median) == 100.0 * (max - min)
  }

  lemma SpreadIsRangeOverMedian(xs: seq<real>)
    requires xs != []
    ensures Described(xs).Some?
    ensures var s := Described(xs).value; IsSpread(s.spreadPct, s.min, s.max, s.median)
  {
    var sorted := Sort(xs);
    SpreadIs(sorted[0], sorted[|sorted| - 1], Quantile(sorted, 0.5));
    hide Quantile, Sort, Deviations, SpreadPct, IsSpread;
  }

  lemma DeviationIs(xs: seq<real>)
    requires xs != []
    ensures var s := Described(xs).value; s.mad == Described(Distances(xs, s.median)).value.median
  {
    var median, sorted := Quantile(Sort(xs), 0.5), Sort(xs);
    DistancesSorted(xs, median);
    SameDeviations(sorted, median);
    hide Quantile, Sort, Deviations, SpreadPct;
    SortOfPermutation(Distances(xs, median), Distances(sorted, median));
  }

  lemma SameDeviations(sorted: seq<real>, c: real)
    ensures Deviations(sorted, c) == Distances(sorted, c)
  {
  }

  lemma SpreadIs(min: real, max: real, median: real)
    ensures IsSpread(SpreadPct(min, max, median), min, max, median)
  {
    if median != 0.0 {
      ShareOf(max - min, Size(median));
    }
  }

  lemma ShareOf(x: real, d: real)
    requires d > 0.0
    ensures x / d * 100.0 * d == 100.0 * x
  {
    var q := x / d;
    assert q * d == x;
    assert q * 100.0 * d == 100.0 * (q * d);
  }

  // ---------- the resampled interval ----------

  /** Resample i of a run of them: its n draws follow those of the i before it. */
  function Drawn(xs: seq<real>, rnd: Source, i: nat): (r: seq<real>)
    requires xs != []
    ensures |r| == |xs|
  {
    seq(|xs|, j requires 0 <= j < |xs| => xs[rnd.stream(rnd.pos + i * |xs| + j) % |xs|])
  }

  /** The median of each of the resamples. */
  function DrawnMedians(xs: seq<real>, rnd: Source, iters: nat): (ms: seq<real>)
    requires xs != []
    ensures |ms| == iters
  {
    seq(iters, i requires 0 <= i < iters => Described(Drawn(xs, rnd, i)).value.median)
  }

  lemma {:induction false} MediansDrawn(xs: seq<real>, rnd: Source, iters: nat)
    requires xs != []
    ensures Medians(xs, rnd.stream, rnd.pos, iters) == DrawnMedians(xs, rnd, iters)
  {
    hide MedianAt, Drawn, After, Described;
    if iters > 0 {
      MediansDrawn(xs, rnd, iters - 1);
      OneDrawn(xs, rnd, iters - 1);
      assert DrawnMedians(xs, rnd, iters)
          == DrawnMedians(xs, rnd, iters - 1) + [Described(Drawn(xs, rnd, iters - 1)).value.median];
    }
  }

  lemma OneDrawn(xs: seq<real>, rnd: Source, i: nat)
    requires xs != []
    ensures Described(Drawn(xs, rnd, i)).Some?
    ensures MedianAt(xs, rnd.stream, After(rnd.pos, i, |xs|)) == Described(Drawn(xs, rnd, i)).value.median
  {
    assert Resample(xs, rnd.stream, After(rnd.pos, i, |xs|)) == Drawn(xs, rnd, i);
    hide Quantile, Sort, Resample, Drawn, SpreadPct, Deviations;
  }

  /**
   The interval is there for three values or more, some resamples and a level between 0 and 1; its ends
   cut (1 - level) / 2 off either end of the resampled medians, and it costs one draw per value and resample.
   */
  lemma IntervalIs(xs: seq<real>, level: real, iters: int, rnd: Source)
    ensures var (ci, rnd') := Bootstrapped(xs, level, iters, rnd);
            && (ci.Some? <==> |xs| >= 3 && iters > 0 && 0.0 < level < 1.0)
            && rnd' == Source(rnd.stream, if ci.Some? then rnd.pos + iters * |xs| else rnd.pos)
            && (ci.Some? ==>
                  var ms := Sort(DrawnMedians(xs, rnd, iters));
                  && ci.value.lo == Quantile(ms, (1.0 - level) / 2.0)
                  && ci.value.hi == Quantile(ms, (1.0 + level) / 2.0))
  {
    hide Quantile, Sort, Medians, DrawnMedians;
    if CanBootstrap(xs, level, iters) {
      MediansDrawn(xs, rnd, iters);
      assert 1.0 - (1.0 - level) / 2.0 == (1.0 + level) / 2.0;
    }
  }
}
