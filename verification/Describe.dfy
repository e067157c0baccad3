/** Ascending order on reals: what `sort.Float64s` leaves behind. */
module Sorting {

  predicate Ascending(xs: seq<real>) {
    forall i, j :: 0 <= i < j < |xs| ==> xs[i] <= xs[j]
  }

  function Insert(x: real, xs: seq<real>): (r: seq<real>)
    ensures |r| == |xs| + 1
  {
    if xs == [] || x <= xs[0] then [x] + xs else [xs[0]] + Insert(x, xs[1..])
  }

  function Sort(xs: seq<real>): (r: seq<real>)
    ensures |r| == |xs|
  {
    if xs == [] then [] else Insert(xs[0], Sort(xs[1..]))
  }

  lemma {:induction false} InsertBounded(x: real, xs: seq<real>, lo: real)
    requires lo <= x && forall i :: 0 <= i < |xs| ==> lo <= xs[i]
    ensures forall i :: 0 <= i < |Insert(x, xs)| ==> lo <= Insert(x, xs)[i]
  {
    if xs != [] && x > xs[0] {
      InsertBounded(x, xs[1..], lo);
    }
  }

  lemma Prepended(x: real, xs: seq<real>)
    requires Ascending(xs) && forall i :: 0 <= i < |xs| ==> x <= xs[i]
    ensures Ascending([x] + xs)
  {
  }

  lemma FirstIsLeast(xs: seq<real>)
    requires Ascending(xs) && xs != []
    ensures Ascending(xs[1..]) && forall i :: 0 <= i < |xs| ==> xs[0] <= xs[i]
  {
  }

  lemma {:induction false} InsertKeeps(x: real, xs: seq<real>)
    requires Ascending(xs)
    ensures Ascending(Insert(x, xs))
    ensures multiset(Insert(x, xs)) == multiset(xs) + multiset{x}
  {
    hide Ascending;
    if xs == [] {
      Prepended(x, xs);
    } else {
      FirstIsLeast(xs);
      if x <= xs[0] {
        Prepended(x, xs);
      } else {
        InsertKeeps(x, xs[1..]);
        InsertBounded(x, xs[1..], xs[0]);
        Prepended(xs[0], Insert(x, xs[1..]));
        assert xs == [xs[0]] + xs[1..];
      }
    }
  }

  /** Sorting is a sorted permutation. */
  lemma {:induction false} SortSorts(xs: seq<real>)
    ensures Ascending(Sort(xs)) && multiset(Sort(xs)) == multiset(xs)
  {
    if xs != [] {
      SortSorts(xs[1..]);
      InsertKeeps(xs[0], Sort(xs[1..]));
      assert xs == [xs[0]] + xs[1..];
    }
  }

  lemma SameLeast(a: seq<real>, b: seq<real>)
    requires Ascending(a) && Ascending(b) && multiset(a) == multiset(b) && a != []
    ensures b != [] && a[0] == b[0]
  {
    assert |multiset(a)| == |a| && |multiset(b)| == |b|;
    assert a[0] in multiset(b) && a[0] in b;
    assert b[0] in multiset(a) && b[0] in a;
  }

  lemma SameRest(a: seq<real>, b: seq<real>)
    requires multiset(a) == multiset(b) && a != [] && b != [] && a[0] == b[0]
    ensures multiset(a[1..]) == multiset(b[1..])
  {
    assert a == [a[0]] + a[1..] && b == [b[0]] + b[1..];
    assert multiset(a[1..]) == multiset(a) - multiset{a[0]};
    assert multiset(b[1..]) == multiset(b) - multiset{b[0]};
  }

  /** There is only one ascending arrangement of a multiset. */
  lemma {:induction false} AscendingUnique(a: seq<real>, b: seq<real>)
    requires Ascending(a) && Ascending(b) && multiset(a) == multiset(b)
    ensures a == b
  {
    hide Ascending;
    if a == [] {
      assert |multiset(b)| == 0;
    } else {
      SameLeast(a, b);
      SameRest(a, b);
      FirstIsLeast(a);
      FirstIsLeast(b);
      AscendingUnique(a[1..], b[1..]);
      assert a == [a[0]] + a[1..] && b == [b[0]] + b[1..];
    }
  }

  lemma SortOfPermutation(xs: seq<real>, ys: seq<real>)
    requires multiset(xs) == multiset(ys)
    ensures Sort(xs) == Sort(ys)
  {
    SortSorts(xs);
    SortSorts(ys);
    AscendingUnique(Sort(xs), Sort(ys));
  }

  /** `sort.Float64s(a)`: the library's own algorithm is not modelled, its effect is. */
  method SortInPlace(a: array<real>)
    modifies a
    ensures a[..] == Sort(old(a[..]))
  {
    var sorted := Sort(a[..]);
    forall i | 0 <= i < a.Length {
      a[i] := sorted[i];
    }
  }
}

/** An injected random source, read only as a stream of indices (math/rand/v2's Rand.IntN). */
module Randomness {

  /** Where in its stream a source stands. */
  datatype Source = Source(stream: nat -> nat, pos: nat)

  class Rand {
    const stream: nat -> nat
    var pos: nat

    ghost function State(): Source
      reads this
    {
      Source(stream, pos)
    }

    constructor (s: nat -> nat)
      ensures State() == Source(s, 0)
    {
      stream, pos := s, 0;
    }

    method IntN(n: nat) returns (k: nat)
      requires n > 0
      modifies this`pos
      ensures k == stream(old(pos)) % n && pos == old(pos) + 1
    {
      k := stream(pos) % n;
      pos := pos + 1;
    }
  }
}

/** Describing one arm's repetitions, and the bootstrap of a median (describe.go). */
module Describe {
  import opened Options
  import opened Reals
  import opened Sorting
  import opened Randomness
  import LS = LeastSquares

  datatype Interval = Interval(lo: real, hi: real)

  predicate Overlaps(i: Interval, o: Interval) {
    i.lo <= o.hi && o.lo <= i.hi
  }

  /** The value between two neighbours, frac of the way from the first to the second. */
  function Lerp(x: real, y: real, frac: real): real {
    x * (1.0 - frac) + y * frac
  }

  /** Linear interpolation between order statistics. */
  function Quantile(sorted: seq<real>, q: real): real
    requires 0.0 <= q <= 1.0
  {
    if |sorted| == 0 then 0.0
    else if |sorted| == 1 then sorted[0]
    else
      var pos := Position(q, |sorted|);
      PositionInRange(q, |sorted|);
      var lo, hi := pos.Floor, Ceil(pos);
      if lo == hi then sorted[lo] else Lerp(sorted[lo], sorted[hi], pos - lo as real)
  }

  function Position(q: real, n: nat): real { q * (n - 1) as real }

  lemma PositionInRange(q: real, n: nat)
    requires 0.0 <= q <= 1.0 && n > 0
    ensures 0.0 <= Position(q, n) <= (n - 1) as real
    ensures var pos := Position(q, n);
            && 0 <= pos.Floor <= Ceil(pos) < n && Ceil(pos) <= pos.Floor + 1
            && (pos.Floor == Ceil(pos) ==> pos == pos.Floor as real)
  {
    hide Position, Ceil;
    PositionWithin(q, n);
    CeilOfNext(Position(q, n), n - 1);
  }

  lemma PositionWithin(q: real, n: nat)
    requires 0.0 <= q <= 1.0 && n > 0
    ensures 0.0 <= Position(q, n) <= (n - 1) as real
  {
    ScaleWithin(q, (n - 1) as real);
  }

  lemma ScaleWithin(q: real, m: real)
    requires 0.0 <= q <= 1.0 && m >= 0.0
    ensures 0.0 <= q * m <= m
  {
    LS.ProductNonNegative(q, m);
    LS.ProductNonNegative(1.0 - q, m);
    assert q * m + (1.0 - q) * m == m;
  }

  lemma CeilOfNext(pos: real, m: int)
    requires 0.0 <= pos <= m as real
    ensures 0 <= pos.Floor <= Ceil(pos) <= m && Ceil(pos) <= pos.Floor + 1
    ensures pos.Floor == Ceil(pos) ==> pos == pos.Floor as real
  {
  }

  lemma LerpWithin(x: real, y: real, f: real)
    requires x <= y && 0.0 <= f <= 1.0
    ensures x <= Lerp(x, y, f) <= y
  {
    var d := y - x;
    assert Lerp(x, y, f) == x + d * f;
    ScaleWithin(f, d);
  }

  lemma LerpMonotone(x: real, y: real, f: real, g: real)
    requires x <= y && 0.0 <= f <= g <= 1.0
    ensures Lerp(x, y, f) <= Lerp(x, y, g)
  {
    var d := y - x;
    assert Lerp(x, y, f) == x + d * f && Lerp(x, y, g) == x + d * g;
    ScaleWithin(g - f, d) by {
      assert 0.0 <= g - f <= 1.0;
    }
    assert d * g - d * f == (g - f) * d;
  }

  /** The quantile lies between the order statistics on either side of its position. */
  lemma QuantileBetween(sorted: seq<real>, q: real)
    requires Ascending(sorted) && sorted != [] && 0.0 <= q <= 1.0
    ensures var pos := Position(q, |sorted|);
            && 0 <= pos.Floor <= Ceil(pos) < |sorted|
            && sorted[pos.Floor] <= Quantile(sorted, q) <= sorted[Ceil(pos)]
  {
    PositionInRange(q, |sorted|);
    var pos := Position(q, |sorted|);
    if |sorted| > 1 && pos.Floor != Ceil(pos) {
      LerpWithin(sorted[pos.Floor], sorted[Ceil(pos)], pos - pos.Floor as real);
    }
    hide Position, Lerp, Ceil;
  }

  lemma PositionMonotone(p: real, q: real, n: nat)
    requires 0.0 <= p <= q <= 1.0 && n > 0
    ensures Position(p, n) <= Position(q, n)
  {
    ScaleWithin(q - p, (n - 1) as real);
    assert q * (n - 1) as real - p * (n - 1) as real == (q - p) * (n - 1) as real;
  }

  /** A higher level never gives a lower quantile. */
  lemma QuantileMonotone(sorted: seq<real>, p: real, q: real)
    requires Ascending(sorted) && sorted != [] && 0.0 <= p <= q <= 1.0
    ensures Quantile(sorted, p) <= Quantile(sorted, q)
  {
    var n := |sorted|;
    QuantileBetween(sorted, p);
    QuantileBetween(sorted, q);
    PositionInRange(p, n);
    PositionInRange(q, n);
    PositionMonotone(p, q, n);
    var x, y := Position(p, n), Position(q, n);
    hide Position, Lerp;
    Fraction(x);
    Fraction(y);
    if n > 1 && x.Floor == y.Floor && Ceil(x) == Ceil(y) && x.Floor != Ceil(x) {
      LerpMonotone(sorted[x.Floor], sorted[Ceil(x)], x - x.Floor as real, y - y.Floor as real);
    } else if n > 1 {
      FloorsApart(x, y);
    }
  }

  lemma Fraction(x: real)
    ensures 0.0 <= x - x.Floor as real < 1.0
  {
  }

  lemma FloorsApart(x: real, y: real)
    requires x <= y && !(x.Floor == y.Floor && Ceil(x) == Ceil(y) && x.Floor != Ceil(x))
    ensures x == y || Ceil(x) <= y.Floor || (x.Floor == Ceil(x) == y.Floor)
  {
  }

  /** Every quantile is inside the sample's own range. */
  lemma QuantileInRange(sorted: seq<real>, q: real)
    requires Ascending(sorted) && sorted != [] && 0.0 <= q <= 1.0
    ensures sorted[0] <= Quantile(sorted, q) <= sorted[|sorted| - 1]
  {
    QuantileBetween(sorted, q);
    hide Position, Quantile, Ceil;
  }

  /** At least half of the values are on each side of the median. */
  lemma MedianSplits(sorted: seq<real>)
    requires Ascending(sorted) && sorted != []
    ensures exists k: nat, l: nat :: k <= |sorted| && l <= |sorted| && 2 * k >= |sorted| && 2 * l >= |sorted|
              && (forall i :: 0 <= i < k ==> sorted[i] <= Quantile(sorted, 0.5))
              && (forall i :: |sorted| - l <= i < |sorted| ==> sorted[i] >= Quantile(sorted, 0.5))
  {
    QuantileBetween(sorted, 0.5);
    PositionInRange(0.5, |sorted|);
    var pos := Position(0.5, |sorted|);
    var k, l := pos.Floor + 1, |sorted| - Ceil(pos);
    assert 2 * k >= |sorted| && 2 * l >= |sorted|;
    hide Position, Quantile, Ceil;
    assert forall i :: 0 <= i < k ==> sorted[i] <= sorted[pos.Floor];
    assert forall i :: |sorted| - l <= i < |sorted| ==> sorted[i] >= sorted[|sorted| - l];
  }

  // ---------- Describe ----------

  datatype Summary = Summary(
    n: nat, median: real, q1: real, q3: real, iqr: real, min: real, max: real,
    mad: real, spreadPct: real, values: seq<real>, ci: Option<Interval>)

  function Deviations(sorted: seq<real>, centre: real): (devs: seq<real>)
    ensures |devs| == |sorted|
  {
    seq(|sorted|, i requires 0 <= i < |sorted| => Abs(sorted[i] - centre))
  }

  /** The range as a percentage of the median. */
  function SpreadPct(min: real, max: real, median: real): real {
    if median == 0.0 then 0.0 else (max - min) / Abs(median) * 100.0
  }

  function SummaryOf(sorted: seq<real>, values: seq<real>): Summary
    requires sorted != []
  {
    var median, q1, q3 := Quantile(sorted, 0.5), Quantile(sorted, 0.25), Quantile(sorted, 0.75);
    var min, max := sorted[0], sorted[|sorted| - 1];
    Summary(|sorted|, median, q1, q3, q3 - q1, min, max, Quantile(Sort(Deviations(sorted, median)), 0.5),
            SpreadPct(min, max, median), values, None)
  }

  function Described(xs: seq<real>): Option<Summary> {
    if xs == [] then None else Some(SummaryOf(Sort(xs), xs))
  }

  /** Two working copies are filled and sorted in place; the caller's own order is what is kept. */
  method Describe(xs: seq<real>) returns (r: Option<Summary>)
    ensures r == Described(xs)
  {
    hide Quantile, SpreadPct, Sort;
    if |xs| == 0 { return None; }
    var sorted := new real[|xs|](i requires 0 <= i < |xs| => xs[i]);
    assert sorted[..] == xs;
    SortInPlace(sorted);
    var n := sorted.Length;
    var s := sorted[..];
    var median := Quantile(s, 0.5);
    var q1, q3 := Quantile(s, 0.25), Quantile(s, 0.75);
    var devs := new real[n];
    for i := 0 to n
      invariant sorted[..] == s
      invariant devs[..i] == Deviations(s, median)[..i]
    {
      devs[i] := Abs(sorted[i] - median);
    }
    assert devs[..] == Deviations(s, median);
    SortInPlace(devs);
    var mad := Quantile(devs[..], 0.5);
    r := Some(Summary(n, median, q1, q3, q3 - q1, s[0], s[n - 1], mad, SpreadPct(s[0], s[n - 1], median), xs, None));
  }

  /** Only the multiset of repetitions matters: reordering changes no figure but the recorded order itself. */
  lemma DescribeForgetsOrder(xs: seq<real>, ys: seq<real>)
    requires multiset(xs) == multiset(ys)
    ensures Described(xs).Some? == Described(ys).Some?
    ensures Described(xs).Some? ==> Described(xs).value == Described(ys).value.(values := xs)
  {
    SortOfPermutation(xs, ys);
    assert |xs| == |multiset(xs)| == |ys|;
  }

  /** The figures of a summary are ordered and inside the sample. */
  lemma SummaryOrdered(xs: seq<real>)
    requires xs != []
    ensures var s := Described(xs).value;
            && s.min <= s.q1 <= s.median <= s.q3 <= s.max
            && s.min in xs && s.max in xs && (forall x :: x in xs ==> s.min <= x <= s.max)
            && s.iqr >= 0.0 && s.spreadPct >= 0.0
  {
    hide Quantile, SpreadPct, Sort, Ascending;
    var sorted := Sort(xs);
    SortSorts(xs);
    QuantileInRange(sorted, 0.25);
    QuantileMonotone(sorted, 0.25, 0.5);
    QuantileMonotone(sorted, 0.5, 0.75);
    QuantileInRange(sorted, 0.75);
    SameMembers(xs, sorted);
    EndsBound(sorted);
    SpreadNonNegative(sorted[0], sorted[|sorted| - 1], Quantile(sorted, 0.5));
  }

  lemma EndsBound(sorted: seq<real>)
    requires Ascending(sorted) && sorted != []
    ensures sorted[0] in sorted && sorted[|sorted| - 1] in sorted
    ensures forall x :: x in sorted ==> sorted[0] <= x <= sorted[|sorted| - 1]
  {
  }

  lemma SameMembers(xs: seq<real>, ys: seq<real>)
    requires multiset(xs) == multiset(ys)
    ensures forall x :: x in xs <==> x in ys
  {
    assert forall x :: x in xs <==> x in multiset(xs);
    assert forall x :: x in ys <==> x in multiset(ys);
  }

  lemma SpreadNonNegative(min: real, max: real, median: real)
    requires min <= max
    ensures SpreadPct(min, max, median) >= 0.0
  {
  }

  // ---------- BootstrapMedianCI ----------

  /** One resample: |xs| draws, each an index into xs. */
  function Resample(xs: seq<real>, stream: nat -> nat, pos: nat): (r: seq<real>)
    requires xs != []
    ensures |r| == |xs|
  {
    seq(|xs|, j requires 0 <= j < |xs| => xs[stream(pos + j) % |xs|])
  }

  function MedianAt(xs: seq<real>, stream: nat -> nat, pos: nat): real
    requires xs != []
  {
    Quantile(Sort(Resample(xs, stream, pos)), 0.5)
  }

  /** The stream position after i resamples of n draws. */
  function After(pos: nat, i: nat, n: nat): nat { pos + i * n }

  function Medians(xs: seq<real>, stream: nat -> nat, pos: nat, iters: nat): (r: seq<real>)
    requires xs != []
    ensures |r| == iters
  {
    if iters == 0 then []
    else
      var before := Medians(xs, stream, pos, iters - 1);
      before + [MedianAt(xs, stream, After(pos, iters - 1, |xs|))]
  }

  predicate CanBootstrap(xs: seq<real>, level: real, iters: int) {
    |xs| >= 3 && iters > 0 && 0.0 < level < 1.0
  }

  /** The interval, and where the source stands afterwards. */
  function Bootstrapped(xs: seq<real>, level: real, iters: int, rnd: Source): (Option<Interval>, Source) {
    if !CanBootstrap(xs, level, iters) then (None, rnd)
    else
      var medians := Sort(Medians(xs, rnd.stream, rnd.pos, iters));
      var tail := (1.0 - level) / 2.0;
      (Some(Interval(Quantile(medians, tail), Quantile(medians, 1.0 - tail))),
       rnd.(pos := After(rnd.pos, iters, |xs|)))
  }

  /** The inner loop: one resample, drawn and sorted in place. */
  method DrawSample(xs: seq<real>, sample: array<real>, rnd: Rand)
    requires xs != [] && sample.Length == |xs|
    modifies sample, rnd`pos
    ensures rnd.pos == old(rnd.pos) + |xs|
    ensures sample[..] == Sort(Resample(xs, rnd.stream, old(rnd.pos)))
  {
    hide Sort;
    var j := 0;
    while j < |xs|
      invariant 0 <= j <= |xs|
      invariant rnd.pos == old(rnd.pos) + j
      invariant sample[..j] == Resample(xs, rnd.stream, old(rnd.pos))[..j]
    {
      var k := rnd.IntN(|xs|);
      sample[j] := xs[k];
      j := j + 1;
    }
    assert sample[..] == Resample(xs, rnd.stream, old(rnd.pos));
    SortInPlace(sample);
  }

  method BootstrapMedianCI(xs: seq<real>, level: real, iters: int, rnd: Rand) returns (ci: Option<Interval>)
    modifies rnd`pos
    ensures (ci, rnd.State()) == Bootstrapped(xs, level, iters, old(rnd.State()))
  {
    hide Quantile, Sort, Resample;
    if !CanBootstrap(xs, level, iters) { return None; }
    var medians := new real[iters];
    var sample := new real[|xs|];
    ghost var start := rnd.pos;
    var i := 0;
    while i < iters
      invariant 0 <= i <= iters
      invariant rnd.pos == After(start, i, |xs|)
      invariant medians[..i] == Medians(xs, rnd.stream, start, i)
    {
      hide *;
      AfterStep(start, i, |xs|);
      MediansStep(xs, rnd.stream, start, i);
      DrawSample(xs, sample, rnd);
      assert sample.Length == |xs| && sample[..] != [];
      medians[i] := Quantile(sample[..], 0.5);
      assert medians[..i + 1] == medians[..i] + [medians[i]];
      i := i + 1;
    }
    assert medians[..] == medians[..iters];
    SortInPlace(medians);
    var tail := (1.0 - level) / 2.0;
    ci := Some(Interval(Quantile(medians[..], tail), Quantile(medians[..], 1.0 - tail)));
  }

  lemma MediansStep(xs: seq<real>, stream: nat -> nat, pos: nat, i: nat)
    requires xs != []
    ensures Medians(xs, stream, pos, i + 1)
         == Medians(xs, stream, pos, i) + [Quantile(Sort(Resample(xs, stream, After(pos, i, |xs|))), 0.5)]
  {
  }

  lemma AfterStep(pos: nat, i: nat, n: nat)
    ensures After(pos, i + 1, n) == After(pos, i, n) + n
  {
  }

  lemma ResampleMedianInRange(xs: seq<real>, stream: nat -> nat, pos: nat, lo: real, hi: real)
    requires xs != [] && forall x :: x in xs ==> lo <= x <= hi
    ensures lo <= MedianAt(xs, stream, pos) <= hi
  {
    hide Quantile, Sort;
    var sample := Resample(xs, stream, pos);
    var sorted := Sort(sample);
    assert forall j :: 0 <= j < |sample| ==> sample[j] in xs;
    SortSorts(sample);
    SameMembers(sample, sorted);
    assert sorted[0] in sorted && sorted[|sorted| - 1] in sorted;
    assert sorted[0] in sample && sorted[|sorted| - 1] in sample;
    QuantileInRange(sorted, 0.5);
  }

  lemma {:induction false} MediansInRange(xs: seq<real>, stream: nat -> nat, pos: nat, iters: nat, lo: real, hi: real)
    requires xs != [] && forall x :: x in xs ==> lo <= x <= hi
    ensures forall m :: m in Medians(xs, stream, pos, iters) ==> lo <= m <= hi
  {
    hide MedianAt, After;
    if iters > 0 {
      MediansInRange(xs, stream, pos, iters - 1, lo, hi);
      ResampleMedianInRange(xs, stream, After(pos, iters - 1, |xs|), lo, hi);
    }
  }

  /** Whatever the source deals, the interval is a proper one and never leaves the sample's own range. */
  lemma BootstrapInRange(xs: seq<real>, level: real, iters: int, rnd: Source)
    ensures var (ci, _) := Bootstrapped(xs, level, iters, rnd);
            && (ci.Some? <==> CanBootstrap(xs, level, iters))
            && (ci.Some? ==> Described(xs).value.min <= ci.value.lo <= ci.value.hi <= Described(xs).value.max)
  {
    hide Quantile, Sort, SpreadPct, Medians, Deviations, After;
    if CanBootstrap(xs, level, iters) {
      SummaryOrdered(xs);
      var s := Described(xs).value;
      var ms := Medians(xs, rnd.stream, rnd.pos, iters);
      MediansInRange(xs, rnd.stream, rnd.pos, iters, s.min, s.max);
      IntervalInRange(ms, s.min, s.max, (1.0 - level) / 2.0);
    }
  }

  lemma IntervalInRange(ms: seq<real>, lo: real, hi: real, tail: real)
    requires ms != [] && (forall m :: m in ms ==> lo <= m <= hi) && 0.0 <= tail <= 0.5
    ensures lo <= Quantile(Sort(ms), tail) <= Quantile(Sort(ms), 1.0 - tail) <= hi
  {
    hide Quantile, Sort;
    var sorted := Sort(ms);
    SortSorts(ms);
    SameMembers(ms, sorted);
    assert sorted[0] in sorted && sorted[|sorted| - 1] in sorted;
    QuantileInRange(sorted, tail);
    QuantileMonotone(sorted, tail, 1.0 - tail);
    QuantileInRange(sorted, 1.0 - tail);
  }

  // ---------- OrderEffect ----------

  datatype Order = Order(slopePctPerCell: real, r2: real)

  function AsReals(ns: seq<int>): (xs: seq<real>)
    ensures |xs| == |ns|
  {
    seq(|ns|, i requires 0 <= i < |ns| => ns[i] as real)
  }

  function OrderSlope(m: LS.Moments): real
    requires m.sxx != 0.0 && m.my != 0.0
  {
    LS.Gradient(m) / Abs(m.my) * 100.0
  }

  /** The regression of values on execution position. */
  function OrderFit(ordinals: seq<int>, values: seq<real>): Option<Order> {
    if |ordinals| != |values| || |ordinals| < 3 then None
    else
      var m := LS.MomentsOf(AsReals(ordinals), values);
      if Abs(m.my) < NEAR_ZERO || m.sxx == 0.0 then None
      else if m.syy == 0.0 then Some(Order(0.0, 1.0))
      else Some(Order(OrderSlope(m), LS.Determination(m)))
  }

  method OrderEffect(ordinals: seq<int>, values: seq<real>) returns (r: Option<Order>)
    ensures r == OrderFit(ordinals, values)
  {
    hide LS.MomentsOf, OrderSlope, LS.Times;
    if |ordinals| != |values| || |ordinals| < 3 { return None; }
    var m := LS.ComputeMoments(AsReals(ordinals), values);
    if Abs(m.my) < NEAR_ZERO { return None; }
    if m.sxx == 0.0 { return None; }
    if m.syy == 0.0 { return Some(Order(0.0, 1.0)); }
    r := Some(Order(OrderSlope(m), LS.Times(m.sxy / m.sxx, m.sxy / m.syy)));
  }

  /** Position never explains less than nothing or more than everything, and is only fitted when cells had distinct places. */
  lemma OrderShareIsAShare(ordinals: seq<int>, values: seq<real>)
    ensures OrderFit(ordinals, values).Some? ==>
              && 0.0 <= OrderFit(ordinals, values).value.r2 <= 1.0
              && exists i :: 0 <= i < |ordinals| && ordinals[i] != ordinals[0]
  {
    if OrderFit(ordinals, values).Some? {
      var xs := AsReals(ordinals);
      LS.DeterminationIsExplainedShare(xs, values);
      var m := LS.MomentsOf(xs, values);
      if forall i :: 0 <= i < |ordinals| ==> ordinals[i] == ordinals[0] {
        LS.MeanOfConstant(xs, ordinals[0] as real);
        LS.SpreadZeroIff(xs, m.mx);
        assert false;
      }
      hide LS.MomentsOf, LS.Determination;
    }
  }
}
