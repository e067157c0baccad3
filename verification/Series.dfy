/**
 Timestamped observations (series.go).  Time is an integer count of nanoseconds, a value is a
 real.  A series' name and unit are never interpreted, so a series here is its points.
 */
module TimeSeries {
  import opened Options
  import opened Reals
  import LS = LeastSquares

  datatype Point = Point(at: int, v: real)
  type Series = seq<Point>

  const SECOND: int := 1_000_000_000

  predicate Sorted(s: Series) {
    forall i, j :: 0 <= i < j < |s| ==> s[i].at <= s[j].at
  }

  predicate StrictlySorted(s: Series) {
    forall i, j :: 0 <= i < j < |s| ==> s[i].at < s[j].at
  }

  function Seconds(d: int): real { d as real / SECOND as real }

  function Values(s: Series): (vs: seq<real>)
    ensures |vs| == |s|
  {
    seq(|s|, i requires 0 <= i < |s| => s[i].v)
  }

  function Shift(s: Series, offset: int): (t: Series)
    ensures |t| == |s|
  {
    seq(|s|, i requires 0 <= i < |s| => Point(s[i].at + offset, s[i].v))
  }

  // ---------- Window ----------

  /** What the window loop keeps: it skips points before `from` and stops at the first one after `to`. */
  function Clip(s: Series, from: int, to: int): Series {
    if s == [] then []
    else if s[0].at < from then Clip(s[1..], from, to)
    else if s[0].at > to then []
    else [s[0]] + Clip(s[1..], from, to)
  }

  method Window(s: Series, from: int, to: int) returns (out: Series)
    ensures out == Clip(s, from, to)
  {
    out := [];
    for i := 0 to |s|
      invariant out + Clip(s[i..], from, to) == Clip(s, from, to)
    {
      assert s[i..][1..] == s[i + 1..];
      var p := s[i];
      if p.at < from { continue; }
      if p.at > to { break; }
      out := out + [p];
    }
  }

  /** On a time-ordered series the early stop loses nothing: the window is one slice, the points in [from, to]. */
  lemma {:induction false} WindowIsSlice(s: Series, from: int, to: int) returns (a: nat, b: nat)
    requires Sorted(s)
    ensures a <= b <= |s| && Clip(s, from, to) == s[a..b]
    ensures forall k :: 0 <= k < |s| ==> (a <= k < b <==> from <= s[k].at <= to)
  {
    if s == [] {
      return 0, 0;
    }
    a, b := WindowIsSlice(s[1..], from, to);
    assert forall k :: 0 < k < |s| ==> s[k] == s[1..][k - 1];
    if s[0].at < from {
      a, b := a + 1, b + 1;
    } else if s[0].at > to {
      a, b := 0, 0;
    } else {
      assert forall k :: 0 <= k < |s[1..]| ==> from <= s[1..][k].at;
      if a < b {
        assert s[1..][0].at <= s[1..][a].at;
        a, b := 0, b + 1;
      } else {
        a, b := 0, 1;
        assert Clip(s, from, to) == [s[0]];
      }
    }
  }

  /**
   Re-windowing a series from one of its own points to its end gives back exactly that suffix
   if and only if no earlier point shares the starting instant.
   */
  lemma WindowIsSuffixIff(s: Series, i: nat)
    requires Sorted(s) && i < |s|
    ensures Clip(s, s[i].at, s[|s| - 1].at) == s[i..] <==> (i == 0 || s[i - 1].at < s[i].at)
  {
    var a, b := WindowIsSlice(s, s[i].at, s[|s| - 1].at);
    assert b == |s|;
    if i > 0 && s[i - 1].at == s[i].at {
      assert a <= i - 1;
      assert |s[a..b]| > |s[i..]|;
    } else {
      assert a == i;
    }
  }

  lemma {:induction false} ClipShift(s: Series, from: int, to: int, d: int)
    ensures Clip(Shift(s, d), from + d, to + d) == Shift(Clip(s, from, to), d)
  {
    if s != [] {
      assert Shift(s, d)[1..] == Shift(s[1..], d);
      ClipShift(s[1..], from, to, d);
      assert Shift([s[0]] + Clip(s[1..], from, to), d) == [Shift(s, d)[0]] + Shift(Clip(s[1..], from, to), d);
    }
  }

  // ---------- Bucket ----------

  /** Go's integer division truncates towards zero. */
  function TruncDiv(a: int, b: int): int
    requires b > 0
  {
    if a >= 0 then a / b else -((-a) / b)
  }

  function Slot(p: Point, origin: int, width: int): int
    requires width > 0
  {
    TruncDiv(p.at - origin, width)
  }

  /** One bucket being accumulated. */
  datatype Run = Run(idx: int, sum: real, n: nat)

  function Extend(rs: seq<Run>, k: int, v: real): seq<Run> {
    var m := |rs| - 1;
    if rs != [] && rs[m].idx == k then rs[..m] + [Run(k, rs[m].sum + v, rs[m].n + 1)] else rs + [Run(k, v, 1)]
  }

  predicate AllNonEmpty(rs: seq<Run>) {
    forall i :: 0 <= i < |rs| ==> rs[i].n > 0
  }

  /** Maximal runs of consecutive points in the same slot. */
  function Runs(s: Series, origin: int, width: int): (rs: seq<Run>)
    requires width > 0
    ensures AllNonEmpty(rs)
    ensures s != [] ==> rs != [] && rs[|rs| - 1].idx == Slot(s[|s| - 1], origin, width)
  {
    if s == [] then []
    else Extend(Runs(s[..|s| - 1], origin, width), Slot(s[|s| - 1], origin, width), s[|s| - 1].v)
  }

  function Start(origin: int, k: int, width: int): int { origin + k * width }

  function Average(sum: real, n: nat): real
    requires n > 0
  {
    sum / n as real
  }

  function Emit(rs: seq<Run>, origin: int, width: int): (out: Series)
    requires AllNonEmpty(rs)
    ensures |out| == |rs|
  {
    seq(|rs|, i requires 0 <= i < |rs| => Point(Start(origin, rs[i].idx, width), Average(rs[i].sum, rs[i].n)))
  }

  function Binned(s: Series, width: int): Series {
    if s == [] || width <= 0 then [] else Emit(Runs(s, s[0].at, width), s[0].at, width)
  }

  lemma RunsStep(s: Series, i: nat, origin: int, width: int)
    requires width > 0 && i < |s|
    ensures Runs(s[..i + 1], origin, width) == Extend(Runs(s[..i], origin, width), Slot(s[i], origin, width), s[i].v)
  {
    assert s[..i + 1][..i] == s[..i];
  }

  function Push(rs: seq<Run>, r: Run): seq<Run> { rs + [r] }

  lemma EmitStep(rs: seq<Run>, r: Run, origin: int, width: int)
    requires r.n > 0 && AllNonEmpty(rs)
    ensures AllNonEmpty(Push(rs, r))
    ensures Emit(Push(rs, r), origin, width) == Emit(rs, origin, width) + [Point(Start(origin, r.idx, width), Average(r.sum, r.n))]
  {
    hide Start, Average;
  }

  lemma ExtendStep(rs: seq<Run>, r: Run, k: int, v: real)
    ensures Extend(Push(rs, r), k, v) == if k == r.idx then Push(rs, Run(k, r.sum + v, r.n + 1)) else Push(Push(rs, r), Run(k, v, 1))
    ensures Extend([], k, v) == Push([], Run(k, v, 1))
  {
    assert (rs + [r])[..|rs|] == rs;
  }

  lemma BinnedUnfolds(s: Series, width: int)
    ensures s == [] || width <= 0 ==> Binned(s, width) == []
    ensures AllNonEmpty([])
    ensures s != [] && width > 0 ==> Runs(s[..0], s[0].at, width) == [] && Emit([], s[0].at, width) == []
    ensures s != [] && width > 0 ==> Binned(s, width) == Emit(Runs(s[..|s|], s[0].at, width), s[0].at, width)
  {
    assert s[..|s|] == s;
  }

  method Bucket(s: Series, width: int) returns (out: Series)
    ensures out == Binned(s, width)
  {
    hide *;
    BinnedUnfolds(s, width);
    if |s| == 0 || width <= 0 { return []; }
    var origin := s[0].at;
    var curIdx, sum, n := -1, 0.0, 0;
    out := [];
    ghost var flushed: seq<Run> := [];
    ghost var rs: seq<Run> := [];
    for i := 0 to |s|
      invariant rs == Runs(s[..i], origin, width)
      invariant n >= 0 && (n == 0 <==> i == 0)
      invariant n == 0 ==> curIdx == -1 && sum == 0.0 && flushed == [] && rs == []
      invariant n > 0 ==> rs == Push(flushed, Run(curIdx, sum, n))
      invariant AllNonEmpty(flushed)
      invariant out == Emit(flushed, origin, width)
    {
      RunsStep(s, i, origin, width);
      var idx := Slot(s[i], origin, width);
      rs := Extend(rs, idx, s[i].v);
      ExtendStep(flushed, Run(curIdx, sum, n), idx, s[i].v);
      if idx != curIdx {
        if n > 0 {
          EmitStep(flushed, Run(curIdx, sum, n), origin, width);
          out := out + [Point(Start(origin, curIdx, width), Average(sum, n))];
          flushed := Push(flushed, Run(curIdx, sum, n));
        }
        curIdx, sum, n := idx, 0.0, 0;
      } else if i == 0 {
        FirstSlot(s[0], width);
      }
      sum, n := sum + s[i].v, n + 1;
    }
    if n > 0 {
      EmitStep(flushed, Run(curIdx, sum, n), origin, width);
      out := out + [Point(Start(origin, curIdx, width), Average(sum, n))];
    }
  }

  lemma FirstSlot(p: Point, width: int)
    requires width > 0
    ensures Slot(p, p.at, width) == 0
  {
  }

  /** Reference definition: the values whose instant lies in [lo, lo + width), in order. */
  function InBucket(s: Series, lo: int, width: int): seq<real> {
    if s == [] then []
    else
      var n := |s| - 1;
      InBucket(s[..n], lo, width) + (if lo <= s[n].at < lo + width then [s[n].v] else [])
  }

  lemma DivBounds(a: int, w: int)
    requires a >= 0 && w > 0
    ensures 0 <= a / w && (a / w) * w <= a < (a / w) * w + w
  {
  }

  lemma MulMonotone(x: int, y: int, w: int)
    requires w > 0
    ensures x <= y ==> x * w <= y * w
  {
  }

  lemma SlotUnique(a: int, w: int, k: int)
    requires a >= 0 && w > 0
    ensures k * w <= a < k * w + w <==> k == a / w
  {
    DivBounds(a, w);
    MulMonotone(k + 1, a / w, w);
    MulMonotone(a / w + 1, k, w);
  }

  lemma SlotMonotone(a: int, b: int, w: int)
    requires 0 <= a <= b && w > 0
    ensures 0 <= a / w <= b / w
  {
    DivBounds(a, w);
    DivBounds(b, w);
    MulMonotone(b / w + 1, a / w, w);
  }

  /** A point at or after the origin lies in the bucket that its slot starts, and in no other. */
  lemma InSlot(p: Point, origin: int, width: int, k: int)
    requires width > 0 && p.at >= origin
    ensures Start(origin, k, width) <= p.at < Start(origin, k, width) + width <==> k == Slot(p, origin, width)
    ensures Slot(p, origin, width) >= 0
  {
    SlotUnique(p.at - origin, width, k);
    DivBounds(p.at - origin, width);
  }

  lemma SlotsInOrder(p: Point, q: Point, origin: int, width: int)
    requires width > 0 && origin <= p.at <= q.at
    ensures Slot(p, origin, width) <= Slot(q, origin, width)
  {
    SlotMonotone(p.at - origin, q.at - origin, width);
  }

  predicate Increasing(rs: seq<Run>) {
    forall i, j :: 0 <= i < j < |rs| ==> rs[i].idx < rs[j].idx
  }

  ghost predicate RunIsBucket(r: Run, s: Series, origin: int, width: int) {
    var vs := InBucket(s, Start(origin, r.idx, width), width);
    r.idx >= 0 && r.n == |vs| > 0 && r.sum == LS.Sum(vs)
  }

  /** Each run is exactly one bucket of the reference, and runs are in strictly increasing slots. */
  ghost predicate RunsMatch(rs: seq<Run>, s: Series, origin: int, width: int) {
    Increasing(rs) && forall i :: 0 <= i < |rs| ==> RunIsBucket(rs[i], s, origin, width)
  }

  lemma BucketsGrow(s: Series, origin: int, width: int)
    requires width > 0 && s != [] && s[|s| - 1].at >= origin
    ensures var n := |s| - 1;
            forall j :: InBucket(s, Start(origin, j, width), width) ==
                        InBucket(s[..n], Start(origin, j, width), width) + (if j == Slot(s[n], origin, width) then [s[n].v] else [])
  {
    hide Slot, Start;
    forall j
      ensures InBucket(s, Start(origin, j, width), width) ==
              InBucket(s[..|s| - 1], Start(origin, j, width), width) + (if j == Slot(s[|s| - 1], origin, width) then [s[|s| - 1].v] else [])
    {
      InSlot(s[|s| - 1], origin, width, j);
    }
  }

  lemma {:induction false} RunsArePartition(s: Series, origin: int, width: int)
    requires width > 0 && Sorted(s)
    requires forall p :: p in s ==> p.at >= origin
    ensures RunsMatch(Runs(s, origin, width), s, origin, width)
  {
    hide Slot, Start, InBucket, Extend, LS.Sum;
    if s != [] {
      var n := |s| - 1;
      var init, p := s[..n], s[n];
      RunsArePartition(init, origin, width);
      var k := Slot(p, origin, width);
      assert p in s;
      BucketsGrow(s, origin, width);
      InSlot(p, origin, width, k);
      if n > 0 {
        assert init[n - 1] in s;
        SlotsInOrder(init[n - 1], p, origin, width);
      }
      if n == 0 || Slot(init[n - 1], origin, width) < k {
        EmptyAhead(init, origin, width, k);
      }
      ExtendMatches(Runs(init, origin, width), init, s, origin, width, k, p.v);
    }
  }

  lemma ExtendMatches(rs: seq<Run>, init: Series, s: Series, origin: int, width: int, k: int, v: real)
    requires width > 0 && k >= 0 && RunsMatch(rs, init, origin, width)
    requires rs != [] ==> rs[|rs| - 1].idx <= k
    requires rs == [] || rs[|rs| - 1].idx < k ==> InBucket(init, Start(origin, k, width), width) == []
    requires forall j :: InBucket(s, Start(origin, j, width), width) ==
                         InBucket(init, Start(origin, j, width), width) + (if j == k then [v] else [])
    ensures RunsMatch(Extend(rs, k, v), s, origin, width)
  {
    hide Start, InBucket, LS.Sum;
    var vs := InBucket(init, Start(origin, k, width), width);
    LS.SumStep(vs + [v], |vs|);
    assert (vs + [v])[..|vs|] == vs && (vs + [v])[..|vs| + 1] == vs + [v];
    SumOfNothing();
    var rs' := Extend(rs, k, v);
    var m := |rs'| - 1;
    assert rs'[..m] == rs[..m];
    forall i | 0 <= i < m
      ensures rs'[i] == rs[i] && rs[i].idx < k && RunIsBucket(rs'[i], s, origin, width)
    {
      assert rs'[i] == rs'[..m][i] == rs[..m][i];
      assert RunIsBucket(rs[i], init, origin, width);
      var us := InBucket(init, Start(origin, rs[i].idx, width), width);
      assert InBucket(s, Start(origin, rs[i].idx, width), width) == us + [] == us;
    }
    assert RunIsBucket(rs'[m], s, origin, width);
  }

  lemma SumOfNothing()
    ensures LS.Sum([]) == 0.0
  {
  }

  /** No point of a slot beyond the last one has been seen. */
  lemma {:induction false} EmptyAhead(s: Series, origin: int, width: int, k: int)
    requires width > 0 && Sorted(s)
    requires forall p :: p in s ==> p.at >= origin
    requires s != [] ==> Slot(s[|s| - 1], origin, width) < k
    ensures InBucket(s, Start(origin, k, width), width) == []
  {
    if s != [] {
      var n := |s| - 1;
      assert s[n] in s;
      InSlot(s[n], origin, width, k);
      hide Slot, Start;
      if n > 0 {
        assert s[n - 1] in s;
        SlotsInOrder(s[n - 1], s[n], origin, width);
      }
      EmptyAhead(s[..n], origin, width, k);
    }
  }

  /** The slot of every point has a run. */
  lemma {:induction false} EverySlotHasRun(s: Series, origin: int, width: int, j: nat) returns (i: nat)
    requires width > 0 && j < |s|
    ensures i < |Runs(s, origin, width)| && Runs(s, origin, width)[i].idx == Slot(s[j], origin, width)
  {
    var n := |s| - 1;
    if j == n {
      i := |Runs(s, origin, width)| - 1;
    } else {
      i := EverySlotHasRun(s[..n], origin, width, j);
    }
  }

  /**
   Bucketing a time-ordered series is a partition of its points: starts are strictly increasing
   whole multiples of the width from the first instant, every point lies in exactly one emitted
   bucket, and a bucket's value is the mean of precisely the points inside it.
   */
  lemma BucketIsPartition(s: Series, width: int)
    requires width > 0 && Sorted(s) && s != []
    ensures var b := Binned(s, width);
            && b != [] && b[0].at == s[0].at
            && StrictlySorted(b)
            && (forall i :: 0 <= i < |b| ==> (b[i].at - s[0].at) % width == 0)
            && (forall i :: 0 <= i < |b| ==> InBucket(s, b[i].at, width) != [] && b[i].v == LS.Mean(InBucket(s, b[i].at, width)))
            && (forall j :: 0 <= j < |s| ==> exists i :: 0 <= i < |b| && b[i].at <= s[j].at < b[i].at + width)
            && (forall i, i' :: 0 <= i < i' < |b| ==> b[i].at + width <= b[i'].at)
  {
    hide *;
    var b := Binned(s, width);
    BucketMeans(s, width);
    BucketStarts(s, width);
    EveryPointHasBucket(s, width);
    var i0 := BucketAtOrigin(s, width);
    assert b[0].at <= b[i0].at;
  }

  lemma BucketAtOrigin(s: Series, width: int) returns (i0: nat)
    requires width > 0 && Sorted(s) && s != []
    ensures i0 < |Binned(s, width)| && Binned(s, width)[i0].at == s[0].at
  {
    hide Average, Slot, Runs;
    FirstSlot(s[0], width);
    i0 := EverySlotHasRun(s, s[0].at, width, 0);
  }

  lemma BucketStarts(s: Series, width: int)
    requires width > 0 && Sorted(s) && s != []
    ensures var b := Binned(s, width);
            && StrictlySorted(b)
            && (forall i :: 0 <= i < |b| ==> b[i].at >= s[0].at && (b[i].at - s[0].at) % width == 0)
            && (forall i, i' :: 0 <= i < i' < |b| ==> b[i].at + width <= b[i'].at)
  {
    hide Start, Average, InBucket, Slot, Runs, LS.Sum, LS.Mean;
    RunsArePartition(s, s[0].at, width);
    StartOfSlots(Runs(s, s[0].at, width), s[0].at, width);
  }

  /** The first bucket opens at the first instant. */
  lemma BucketOrigin(s: Series, width: int)
    requires width > 0 && Sorted(s) && s != []
    ensures Binned(s, width) != [] && Binned(s, width)[0].at == s[0].at
  {
    BucketIsPartition(s, width);
    hide *;
  }

  lemma BucketMeans(s: Series, width: int)
    requires width > 0 && Sorted(s) && s != []
    ensures var b := Binned(s, width);
            forall i :: 0 <= i < |b| ==> InBucket(s, b[i].at, width) != [] && b[i].v == LS.Mean(InBucket(s, b[i].at, width))
  {
    hide Start, Average, InBucket, Slot, Runs, LS.Sum, LS.Mean;
    RunsArePartition(s, s[0].at, width);
    var b := Binned(s, width);
    forall i | 0 <= i < |b|
      ensures InBucket(s, b[i].at, width) != [] && b[i].v == LS.Mean(InBucket(s, b[i].at, width))
    {
      AverageIsMean(InBucket(s, b[i].at, width));
    }
  }

  lemma EveryPointHasBucket(s: Series, width: int)
    requires width > 0 && Sorted(s) && s != []
    ensures var b := Binned(s, width);
            forall j :: 0 <= j < |s| ==> exists i :: 0 <= i < |b| && b[i].at <= s[j].at < b[i].at + width
  {
    hide Start, Average, Slot, Runs;
    var origin := s[0].at;
    var rs, b := Runs(s, origin, width), Binned(s, width);
    forall j | 0 <= j < |s|
      ensures exists i :: 0 <= i < |b| && b[i].at <= s[j].at < b[i].at + width
    {
      var i := EverySlotHasRun(s, origin, width, j);
      InSlot(s[j], origin, width, rs[i].idx);
      assert b[i].at == Start(origin, rs[i].idx, width);
    }
  }

  lemma AverageIsMean(vs: seq<real>)
    requires vs != []
    ensures Average(LS.Sum(vs), |vs|) == LS.Mean(vs)
  {
  }

  lemma StartOfSlots(rs: seq<Run>, origin: int, width: int)
    requires width > 0
    requires forall i :: 0 <= i < |rs| ==> rs[i].idx >= 0
    requires forall i, j :: 0 <= i < j < |rs| ==> rs[i].idx < rs[j].idx
    ensures forall i :: 0 <= i < |rs| ==> Start(origin, rs[i].idx, width) >= origin
    ensures forall i :: 0 <= i < |rs| ==> (Start(origin, rs[i].idx, width) - origin) % width == 0
    ensures forall i, j :: 0 <= i < j < |rs| ==> Start(origin, rs[i].idx, width) + width <= Start(origin, rs[j].idx, width)
  {
    forall i | 0 <= i < |rs|
      ensures Start(origin, rs[i].idx, width) >= origin && (Start(origin, rs[i].idx, width) - origin) % width == 0
    {
      ExactMultiple(rs[i].idx * width, width, rs[i].idx);
      MulMonotone(0, rs[i].idx, width);
    }
    forall i, j | 0 <= i < j < |rs|
      ensures Start(origin, rs[i].idx, width) + width <= Start(origin, rs[j].idx, width)
    {
      MulMonotone(rs[i].idx + 1, rs[j].idx, width);
    }
  }

  lemma ExactMultiple(a: int, w: int, k: int)
    requires w > 0 && a == k * w
    ensures a / w == k && a % w == 0
  {
    var q, r := a / w, a % w;
    assert (k - q) * w == r;
    MulMonotone(1, k - q, w);
    MulMonotone(k - q, -1, w);
  }

  /** The bucket means, each weighted by how many points its bucket holds. */
  function Weighted(b: Series, s: Series, width: int): real {
    if b == [] then 0.0
    else
      var m := |b| - 1;
      Weighted(b[..m], s, width) + LS.Times(b[m].v, |InBucket(s, b[m].at, width)| as real)
  }

  function RunTotal(rs: seq<Run>): real {
    if rs == [] then 0.0 else RunTotal(rs[..|rs| - 1]) + rs[|rs| - 1].sum
  }

  lemma {:induction false} RunsConserve(s: Series, origin: int, width: int)
    requires width > 0
    ensures RunTotal(Runs(s, origin, width)) == LS.Sum(Values(s))
  {
    if s != [] {
      var n := |s| - 1;
      RunsConserve(s[..n], origin, width);
      assert Values(s)[..n] == Values(s[..n]);
      var rs := Runs(s[..n], origin, width);
      var k := Slot(s[n], origin, width);
      if rs != [] && rs[|rs| - 1].idx == k {
        assert Extend(rs, k, s[n].v)[..|rs| - 1] == rs[..|rs| - 1];
      } else {
        assert Extend(rs, k, s[n].v)[..|rs|] == rs;
      }
    }
  }

  lemma {:induction false} WeightedIsRunTotal(rs: seq<Run>, s: Series, origin: int, width: int)
    requires width > 0 && RunsMatch(rs, s, origin, width)
    ensures Weighted(Emit(rs, origin, width), s, width) == RunTotal(rs)
  {
    if rs != [] {
      var m := |rs| - 1;
      WeightedIsRunTotal(rs[..m], s, origin, width);
      assert Emit(rs, origin, width)[..m] == Emit(rs[..m], origin, width);
      AverageTimesCount(rs[m].sum, rs[m].n);
      hide Average, LS.Times, Start, InBucket, LS.Sum;
    }
  }

  lemma AverageTimesCount(x: real, n: nat)
    requires n > 0
    ensures LS.Times(Average(x, n), n as real) == x
  {
  }

  /** Bucketing conserves the total: bucket means weighted by bucket counts sum to the input's total. */
  lemma BucketConserves(s: Series, width: int)
    requires width > 0 && Sorted(s)
    ensures Weighted(Binned(s, width), s, width) == LS.Sum(Values(s))
  {
    if s != [] {
      var origin := s[0].at;
      RunsArePartition(s, origin, width);
      RunsConserve(s, origin, width);
      WeightedIsRunTotal(Runs(s, origin, width), s, origin, width);
    }
  }

  lemma SlotOfStart(p: Point, origin: int, width: int, k: int)
    requires width > 0 && k >= 0 && p.at == Start(origin, k, width)
    ensures Slot(p, origin, width) == k
  {
    MulMonotone(0, k, width);
    ExactMultiple(k * width, width, k);
  }

  /** Each point a run of its own. */
  function Singles(b: Series, ks: seq<int>): (rs: seq<Run>)
    requires |b| == |ks|
    ensures |rs| == |b| && AllNonEmpty(rs)
  {
    seq(|b|, i requires 0 <= i < |b| => Run(ks[i], b[i].v, 1))
  }

  lemma RunsOfNothing(b: Series, ks: seq<int>, origin: int, width: int)
    requires width > 0 && b == [] && ks == []
    ensures Runs(b, origin, width) == Singles(b, ks)
  {
  }

  lemma OneMoreSingle(b: Series, ks: seq<int>, origin: int, width: int)
    requires width > 0 && |b| == |ks| > 0
    requires var n := |b| - 1;
             && Runs(b[..n], origin, width) == Singles(b[..n], ks[..n]) && Slot(b[n], origin, width) == ks[n]
             && (n > 0 ==> ks[n - 1] != ks[n])
    ensures Runs(b, origin, width) == Singles(b, ks)
  {
    hide Slot;
  }

  /** A series already stamped at strictly increasing slots is its own runs. */
  lemma {:induction false} RunsOfBins(b: Series, ks: seq<int>, origin: int, width: int)
    requires width > 0 && |b| == |ks|
    requires forall i :: 0 <= i < |b| ==> ks[i] >= 0 && b[i].at == Start(origin, ks[i], width)
    requires forall i, j :: 0 <= i < j < |b| ==> ks[i] < ks[j]
    ensures Runs(b, origin, width) == Singles(b, ks)
  {
    hide Slot, Start, Runs, Singles;
    if b == [] {
      RunsOfNothing(b, ks, origin, width);
    } else {
      var n := |b| - 1;
      RunsOfBins(b[..n], ks[..n], origin, width);
      SlotOfStart(b[n], origin, width, ks[n]);
      OneMoreSingle(b, ks, origin, width);
    }
  }

  lemma EmitSingles(b: Series, ks: seq<int>, origin: int, width: int)
    requires |b| == |ks| && forall i :: 0 <= i < |b| ==> b[i].at == Start(origin, ks[i], width)
    ensures Emit(Singles(b, ks), origin, width) == b
  {
    hide Start, Average;
    forall i | 0 <= i < |b|
      ensures Average(b[i].v, 1) == b[i].v
    {
      AverageOfOne(b[i].v);
    }
  }

  lemma SlotsOfBins(s: Series, width: int) returns (ks: seq<int>)
    requires width > 0 && Sorted(s) && s != []
    ensures var b := Binned(s, width);
            && |ks| == |b|
            && (forall i :: 0 <= i < |b| ==> ks[i] >= 0 && b[i].at == Start(s[0].at, ks[i], width))
            && (forall i, j :: 0 <= i < j < |b| ==> ks[i] < ks[j])
  {
    hide Average, Start, Slot, Runs, InBucket, LS.Sum;
    var rs := Runs(s, s[0].at, width);
    RunsArePartition(s, s[0].at, width);
    ks := seq(|rs|, i requires 0 <= i < |rs| => rs[i].idx);
  }

  /** Bucketing twice with the same width is bucketing once. */
  lemma BucketIdempotent(s: Series, width: int)
    requires width > 0 && Sorted(s)
    ensures Binned(Binned(s, width), width) == Binned(s, width)
  {
    if s != [] {
      hide Start, Runs, Emit, Singles, Sorted, StrictlySorted, InBucket;
      BucketOrigin(s, width);
      var ks := SlotsOfBins(s, width);
      var b := Binned(s, width);
      RunsOfBins(b, ks, s[0].at, width);
      EmitSingles(b, ks, s[0].at, width);
    }
  }

  lemma AverageOfOne(x: real)
    ensures Average(x, 1) == x
  {
  }

  lemma {:induction false} RunsShift(s: Series, origin: int, width: int, d: int)
    requires width > 0
    ensures Runs(Shift(s, d), origin + d, width) == Runs(s, origin, width)
  {
    if s != [] {
      assert Shift(s, d)[..|s| - 1] == Shift(s[..|s| - 1], d);
      RunsShift(s[..|s| - 1], origin, width, d);
    }
  }

  lemma BinnedShift(s: Series, width: int, d: int)
    ensures Binned(Shift(s, d), width) == Shift(Binned(s, width), d)
  {
    hide Average, Slot, Runs;
    if s != [] && width > 0 {
      RunsShift(s, s[0].at, width, d);
    }
  }

  // ---------- Mean, CV, Slope ----------

  function Mean(s: Series): Option<real> {
    if s == [] then None else Some(LS.Mean(Values(s)))
  }

  /** The squared coefficient of variation: Bessel-corrected variance over the squared mean. */
  function CVSquared(s: Series): Option<real> {
    if s == [] || Abs(LS.Mean(Values(s))) < NEAR_ZERO || |s| < 2 then None
    else
      var m := LS.Mean(Values(s));
      Some(RelativeVariance(LS.CoDev(Values(s), m, Values(s), m), |s|, m))
  }

  function RelativeVariance(ss: real, n: nat, mean: real): real
    requires n >= 2 && mean != 0.0
  {
    (ss / (n - 1) as real) / mean / mean
  }

  method ComputeCVSquared(s: Series) returns (cv: Option<real>)
    ensures cv == CVSquared(s)
  {
    hide RelativeVariance, LS.Sum, LS.CoDev;
    if s == [] { return None; }
    var vs := Values(s);
    var sum := LS.ComputeSum(vs);
    var mean := sum / |vs| as real;
    if Abs(mean) < NEAR_ZERO || |s| < 2 { return None; }
    var ss, _, _ := LS.ComputeProducts(vs, mean, vs, mean);
    cv := Some(RelativeVariance(ss, |s|, mean));
  }

  /** Seconds since the first point, the regressor every trend is fitted against. */
  function Offsets(s: Series): (xs: seq<real>)
    ensures |xs| == |s|
  {
    seq(|s|, i requires 0 <= i < |s| => Seconds(s[i].at - s[0].at))
  }

  datatype Trend = Trend(perSecond: real, r2: real)

  function Fit(s: Series): Option<Trend> {
    if |s| < 3 then None
    else
      var m := LS.MomentsOf(Offsets(s), Values(s));
      if m.sxx == 0.0 then None else Some(Trend(LS.Gradient(m), LS.Determination(m)))
  }

  method Slope(s: Series) returns (t: Option<Trend>)
    ensures t == Fit(s)
  {
    hide Seconds, LS.Times, LS.MomentsOf;
    var n := |s|;
    if n < 3 { return None; }
    var xs: seq<real> := [];
    for i := 0 to n
      invariant xs == Offsets(s)[..i]
    {
      xs := xs + [Seconds(s[i].at - s[0].at)];
    }
    assert xs == Offsets(s);
    var m := LS.ComputeMoments(xs, Values(s));
    if m.sxx == 0.0 { return None; }
    var perSecond := m.sxy / m.sxx;
    if m.syy == 0.0 { return Some(Trend(perSecond, 1.0)); }
    t := Some(Trend(perSecond, LS.Times(m.sxy / m.sxx, m.sxy / m.syy)));
  }

  /** A trend exists exactly when there are three points that do not all share one instant. */
  lemma TrendExistsIff(s: Series)
    ensures Fit(s).Some? <==> |s| >= 3 && exists i :: 0 <= i < |s| && s[i].at != s[0].at
  {
    if |s| >= 3 {
      var xs := Offsets(s);
      var m := LS.MomentsOf(xs, Values(s));
      LS.SpreadZeroIff(xs, m.mx);
      if exists i :: 0 <= i < |s| && s[i].at != s[0].at {
        var i :| 0 <= i < |s| && s[i].at != s[0].at;
        assert xs[i] != xs[0];
      } else {
        assert forall i :: 0 <= i < |xs| ==> xs[i] == 0.0;
        LS.MeanOfConstant(xs, 0.0);
      }
    }
  }

  /** The fitted trend is the least-squares line in seconds, and its r squared is the variance it explains. */
  lemma SlopeIsBestLine(s: Series, a: real, b: real) returns (a0: real)
    requires Fit(s).Some?
    ensures var t := Fit(s).value;
            var best := LS.Residuals(Offsets(s), Values(s), a0, t.perSecond);
            && best <= LS.Residuals(Offsets(s), Values(s), a, b)
            && (b != t.perSecond ==> best < LS.Residuals(Offsets(s), Values(s), a, b))
            && 0.0 <= t.r2 <= 1.0
  {
    var xs, ys := Offsets(s), Values(s);
    LS.FitIsOptimal(xs, ys, a, b);
    LS.DeterminationIsExplainedShare(xs, ys);
    a0 := LS.Intercept(LS.MomentsOf(xs, ys));
  }

  /** Moving a series along the clock moves nothing else: same values, same trend, same windows. */
  lemma ShiftKeepsShape(s: Series, d: int)
    ensures Values(Shift(s, d)) == Values(s) && Mean(Shift(s, d)) == Mean(s)
    ensures CVSquared(Shift(s, d)) == CVSquared(s) && Fit(Shift(s, d)) == Fit(s)
  {
    hide RelativeVariance, LS.Mean, LS.CoDev, LS.MomentsOf, LS.Gradient, LS.Determination;
    assert Values(Shift(s, d)) == Values(s);
    assert Offsets(Shift(s, d)) == Offsets(s);
  }

  function Scale(s: Series, k: real): (t: Series)
    ensures |t| == |s|
  {
    seq(|s|, i requires 0 <= i < |s| => Point(s[i].at, LS.Times(k, s[i].v)))
  }

  // ---------- Rate ----------

  /** The rate of a cumulative counter over each interval, with the number of resets skipped. */
  function Differentiated(s: Series): (Series, nat) {
    if |s| < 2 then ([], 0)
    else
      var n := |s| - 1;
      var (rate, resets) := Differentiated(s[..n]);
      var prev, cur := s[n - 1], s[n];
      if cur.v < prev.v then (rate, resets + 1)
      else if cur.at <= prev.at then (rate, resets)
      else (rate + [Point(cur.at, PerSecond(cur.v - prev.v, cur.at - prev.at))], resets)
  }

  function PerSecond(dv: real, dt: int): real
    requires dt > 0
  {
    dv / Seconds(dt)
  }

  method Rate(s: Series) returns (rate: Series, resets: nat)
    ensures (rate, resets) == Differentiated(s)
  {
    rate, resets := [], 0;
    var i := 1;
    while i < |s|
      invariant 1 <= i && (i > |s| ==> s == [])
      invariant (rate, resets) == Differentiated(s[..if i <= |s| then i else |s|])
    {
      assert s[..i + 1][..i] == s[..i];
      var prev, cur := s[i - 1], s[i];
      if cur.v < prev.v {
        resets := resets + 1;
      } else if cur.at > prev.at {
        rate := rate + [Point(cur.at, PerSecond(cur.v - prev.v, cur.at - prev.at))];
      }
      i := i + 1;
    }
    assert s[..|s|] == s;
  }

  /** The growth a rate series accounts for: each rate times the interval before it. */
  function Integral(rate: Series, s: Series): real
    requires |s| == |rate| + 1
  {
    if rate == [] then 0.0
    else
      var n := |rate|;
      Integral(rate[..n - 1], s[..n]) + LS.Times(rate[n - 1].v, Seconds(s[n].at - s[n - 1].at))
  }

  predicate NeverFalls(s: Series) {
    forall k :: 0 < k < |s| ==> s[k - 1].v <= s[k].v
  }

  /**
   Differentiating loses nothing: over strictly increasing instants every interval is either
   emitted, stamped at its later end, or counted as a reset; and with no reset the rates
   integrate back to exactly the counter's last value minus its first.
   */
  lemma {:induction false} RateIntegratesToDelta(s: Series)
    requires StrictlySorted(s) && s != []
    ensures var (rate, resets) := Differentiated(s);
            && |rate| + resets == |s| - 1
            && (resets == 0 <==> NeverFalls(s))
            && (resets == 0 ==> forall k :: 0 < k < |s| ==> rate[k - 1].at == s[k].at)
            && (resets == 0 ==> Integral(rate, s) == s[|s| - 1].v - s[0].v)
  {
    if |s| > 1 {
      var n := |s| - 1;
      RateIntegratesToDelta(s[..n]);
      NoResetsSoFar(s, n);
      hide LS.Times, PerSecond, Seconds, NeverFalls;
      var (rate, resets) := Differentiated(s);
      var (before, _) := Differentiated(s[..n]);
      if s[n].v >= s[n - 1].v {
        RateTimesInterval(s[n].v - s[n - 1].v, s[n].at - s[n - 1].at);
        assert rate[..|rate| - 1] == before;
      }
    }
  }

  lemma NoResetsSoFar(s: Series, n: nat)
    requires 0 < n == |s| - 1
    ensures NeverFalls(s) <==> NeverFalls(s[..n]) && s[n - 1].v <= s[n].v
  {
  }

  lemma RateTimesInterval(dv: real, dt: int)
    requires dt > 0
    ensures LS.Times(PerSecond(dv, dt), Seconds(dt)) == dv
  {
    var q := Seconds(dt);
    assert q > 0.0;
    assert (dv / q) * q == dv;
  }

  // ---------- Rescaling ----------

  /** Multiplying every value by k multiplies the moments by k or k squared. */
  lemma {:induction false} ScaleSums(xs: seq<real>, cx: real, ys: seq<real>, zs: seq<real>, cy: real, k: real)
    requires |xs| == |ys| == |zs|
    requires forall i :: 0 <= i < |ys| ==> zs[i] == LS.Times(k, ys[i])
    ensures LS.Sum(zs) == LS.Times(k, LS.Sum(ys))
    ensures LS.CoDev(xs, cx, zs, LS.Times(k, cy)) == LS.Times(k, LS.CoDev(xs, cx, ys, cy))
    ensures LS.CoDev(zs, LS.Times(k, cy), zs, LS.Times(k, cy)) == LS.Times(k, LS.Times(k, LS.CoDev(ys, cy, ys, cy)))
  {
    if ys != [] {
      var n := |ys| - 1;
      ScaleSums(xs[..n], cx, ys[..n], zs[..n], cy, k);
      ScaleStep(LS.Sum(ys[..n]), LS.CoDev(xs[..n], cx, ys[..n], cy), LS.CoDev(ys[..n], cy, ys[..n], cy), xs[n] - cx, ys[n], cy, k);
      hide LS.Times;
    } else {
      assert LS.Times(k, 0.0) == 0.0;
    }
  }

  lemma ScaleStep(s: real, p: real, q: real, dx: real, y: real, cy: real, k: real)
    ensures LS.Times(k, s) + LS.Times(k, y) == LS.Times(k, s + y)
    ensures LS.Times(k, p) + LS.Times(dx, LS.Times(k, y) - LS.Times(k, cy)) == LS.Times(k, p + LS.Times(dx, y - cy))
    ensures LS.Times(k, LS.Times(k, q)) + LS.Times(LS.Times(k, y) - LS.Times(k, cy), LS.Times(k, y) - LS.Times(k, cy))
         == LS.Times(k, LS.Times(k, q + LS.Times(y - cy, y - cy)))
  {
  }

  lemma ScaleMoments(s: Series, k: real)
    requires s != []
    ensures var m := LS.MomentsOf(Offsets(s), Values(s));
            LS.MomentsOf(Offsets(Scale(s, k)), Values(Scale(s, k)))
            == LS.Moments(m.mx, LS.Times(k, m.my), LS.Times(k, m.sxy), m.sxx, LS.Times(k, LS.Times(k, m.syy)))
  {
    var ys, zs := Values(s), Values(Scale(s, k));
    assert Offsets(Scale(s, k)) == Offsets(s);
    var m := LS.MomentsOf(Offsets(s), ys);
    ScaleSums(Offsets(s), m.mx, ys, zs, m.my, k);
    DivideScaled(LS.Sum(ys), |ys| as real, k);
    hide LS.Times, LS.Sum, LS.CoDev, Seconds;
  }

  lemma ScaleRatios(mean: real, ss: real, n: nat, k: real)
    requires k != 0.0 && mean != 0.0 && n >= 2
    ensures LS.Times(k, mean) != 0.0
    ensures RelativeVariance(LS.Times(k, LS.Times(k, ss)), n, LS.Times(k, mean)) == RelativeVariance(ss, n, mean)
  {
    hide LS.Times;
    var d := (n - 1) as real;
    DivideScaled(ss, d, k);
    DivideScaled(LS.Times(k, ss), d, k);
    DivideTwice(ss / d, mean, k);
  }

  lemma QuotientIs(x: real, y: real, q: real)
    requires y != 0.0 && q * y == x
    ensures x / y == q
  {
  }

  lemma DivideTwice(v: real, mean: real, k: real)
    requires k != 0.0 && mean != 0.0
    ensures LS.Times(k, mean) != 0.0
    ensures LS.Times(k, LS.Times(k, v)) / LS.Times(k, mean) / LS.Times(k, mean) == v / mean / mean
  {
    var p, f := v / mean, LS.Times(k, mean);
    var q := p / mean;
    assert p * mean == v && q * mean == p;
    assert (k * p) * f == LS.Times(k, LS.Times(k, v));
    QuotientIs(LS.Times(k, LS.Times(k, v)), f, k * p);
    assert q * f == k * p;
    QuotientIs(k * p, f, q);
  }

  lemma DivideScaled(x: real, d: real, k: real)
    requires d != 0.0
    ensures LS.Times(k, x) / d == LS.Times(k, x / d)
  {
    var q := x / d;
    assert q * d == x;
    assert (k * q) * d == k * x;
    QuotientIs(k * x, d, k * q);
  }

  lemma CancelScale(x: real, y: real, k: real)
    requires k != 0.0 && y != 0.0
    ensures k * y != 0.0 && (k * x) / (k * y) == x / y
  {
    var q := x / y;
    assert q * y == x;
    assert q * (k * y) == k * x;
  }

  /** The scale-free figures do not see the unit: CV is unchanged and the gradient scales with the values. */
  lemma ScaleKeepsShape(s: Series, k: real)
    requires k > 0.0 && s != []
    requires Abs(LS.Mean(Values(s))) >= NEAR_ZERO && Abs(LS.Times(k, LS.Mean(Values(s)))) >= NEAR_ZERO
    ensures LS.Mean(Values(Scale(s, k))) == LS.Times(k, LS.Mean(Values(s)))
    ensures CVSquared(Scale(s, k)) == CVSquared(s)
    ensures Fit(Scale(s, k)).Some? == Fit(s).Some?
    ensures Fit(s).Some? ==> Fit(Scale(s, k)).value.perSecond == LS.Times(k, Fit(s).value.perSecond)
  {
    ScaleMoments(s, k);
    var m := LS.MomentsOf(Offsets(s), Values(s));
    if |s| >= 2 {
      ScaleRatios(m.my, m.syy, |s|, k);
    }
    if m.sxx != 0.0 {
      DivideScaled(m.sxy, m.sxx, k);
    }
    hide LS.Times, RelativeVariance, LS.CoDev, LS.Sum, LS.Mean, Seconds, LS.Determination;
  }
}
