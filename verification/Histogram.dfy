/**
 A parsed scrape (promx/parse.go) and the windowed histogram read out of two of them
 (promx/window.go), with the pair picked by collect.go.
 */
module Exposition {
  import opened Options

  type Labels = map<string, string>
  datatype Sample<V> = Sample(labels: Labels, value: V)
  type Exposition = map<string, seq<Sample<real>>>

  /** A missing label reads as the empty string. */
  function LabelOf(l: Labels, k: string): string {
    if k in l then l[k] else ""
  }

  predicate Matches(l: Labels, want: Labels) {
    forall k :: k in want ==> LabelOf(l, k) == want[k]
  }

  function SamplesOf<V>(e: map<string, seq<Sample<V>>>, name: string): seq<Sample<V>> {
    if name in e then e[name] else []
  }

  function MatchedSum(samples: seq<Sample<real>>, match_: Labels): real {
    if samples == [] then 0.0
    else
      var n := |samples| - 1;
      MatchedSum(samples[..n], match_) + if Matches(samples[n].labels, match_) then samples[n].value else 0.0
  }

  predicate AnyMatches(samples: seq<Sample<real>>, match_: Labels) {
    exists i :: 0 <= i < |samples| && Matches(samples[i].labels, match_)
  }

  /** The sum of the matching series; nothing when none matches. */
  function Total(e: Exposition, name: string, match_: Labels): Option<real> {
    var samples := SamplesOf(e, name);
    if AnyMatches(samples, match_) then Some(MatchedSum(samples, match_)) else None
  }

  method ComputeTotal(e: Exposition, name: string, match_: Labels) returns (r: Option<real>)
    ensures r == Total(e, name, match_)
  {
    hide Matches;
    if name !in e { return None; }
    var samples := e[name];
    var sum, matched := 0.0, false;
    for i := 0 to |samples|
      invariant sum == MatchedSum(samples[..i], match_)
      invariant matched == AnyMatches(samples[..i], match_)
    {
      assert samples[..i + 1][..i] == samples[..i];
      if Matches(samples[i].labels, match_) {
        sum, matched := sum + samples[i].value, true;
        assert samples[..i + 1][i] == samples[i];
      }
    }
    assert samples[..|samples|] == samples;
    r := if matched then Some(sum) else None;
  }
}

module Histograms {
  import opened Options
  import opened Exposition

  const INF: string := "+Inf"

  datatype Histogram = Histogram(buckets: map<string, real>, sum: Option<real>, count: Option<real>)

  function Max0(x: real): real { if x < 0.0 then 0.0 else x }

  /** How far a counter advanced; nothing when it is missing at either end or went backwards. */
  function CounterDelta(start: Exposition, end: Exposition, name: string, match_: Labels): Option<real> {
    var a, b := Total(start, name, match_), Total(end, name, match_);
    if a.None? || b.None? || b.value < a.value then None else Some(b.value - a.value)
  }

  predicate Contributes(s: Sample<real>, match_: Labels) {
    "le" in s.labels && Matches(s.labels, match_)
  }

  /** The cumulative counts by "le" label, summed over the matching series. */
  function BucketsOf(samples: seq<Sample<real>>, match_: Labels): map<string, real> {
    if samples == [] then map[]
    else
      var n := |samples| - 1;
      var before, s := BucketsOf(samples[..n], match_), samples[n];
      if !Contributes(s, match_) then before else before[s.labels["le"] := CountAt(before, s.labels["le"]) + s.value]
  }

  function CountAt(buckets: map<string, real>, le: string): real {
    if le in buckets then buckets[le] else 0.0
  }

  method ComputeBuckets(e: Exposition, name: string, match_: Labels) returns (out: map<string, real>)
    ensures out == BucketsOf(SamplesOf(e, name + "_bucket"), match_)
  {
    hide Matches;
    out := map[];
    var samples := SamplesOf(e, name + "_bucket");
    for i := 0 to |samples|
      invariant out == BucketsOf(samples[..i], match_)
    {
      assert samples[..i + 1][..i] == samples[..i];
      var s := samples[i];
      if "le" !in s.labels || !Matches(s.labels, match_) { continue; }
      out := out[s.labels["le"] := CountAt(out, s.labels["le"]) + s.value];
    }
    assert samples[..|samples|] == samples;
  }

  function Windowed(start: Exposition, end: Exposition, name: string, match_: Labels): Option<Histogram> {
    var bEnd, bStart := BucketsOf(SamplesOf(end, name + "_bucket"), match_), BucketsOf(SamplesOf(start, name + "_bucket"), match_);
    if bEnd == map[] then None
    else Some(Histogram(map le | le in bEnd :: Max0(bEnd[le] - CountAt(bStart, le)),
                        CounterDelta(start, end, name + "_sum", match_), CounterDelta(start, end, name + "_count", match_)))
  }

  method Subtract(bEnd: map<string, real>, bStart: map<string, real>) returns (buckets: map<string, real>)
    ensures buckets == map le | le in bEnd :: Max0(bEnd[le] - CountAt(bStart, le))
  {
    hide CountAt, Max0;
    buckets := map[];
    var rest := bEnd.Keys;
    while rest != {}
      invariant rest <= bEnd.Keys
      invariant buckets == map le | le in bEnd && le !in rest :: Max0(bEnd[le] - CountAt(bStart, le))
      decreases |rest|
    {
      var le :| le in rest;
      buckets := buckets[le := Max0(bEnd[le] - CountAt(bStart, le))];
      rest := rest - {le};
    }
    assert buckets == map le | le in bEnd :: Max0(bEnd[le] - CountAt(bStart, le));
  }

  method HistogramWindow(start: Exposition, end: Exposition, name: string, match_: Labels) returns (h: Option<Histogram>)
    ensures h == Windowed(start, end, name, match_)
  {
    hide BucketsOf, Total;
    var bEnd := ComputeBuckets(end, name, match_);
    if |bEnd| == 0 { return None; }
    var bStart := ComputeBuckets(start, name, match_);
    var buckets := Subtract(bEnd, bStart);
    var a := ComputeTotal(start, name + "_sum", match_);
    var b := ComputeTotal(end, name + "_sum", match_);
    var sum := if a.None? || b.None? || b.value < a.value then None else Some(b.value - a.value);
    a := ComputeTotal(start, name + "_count", match_);
    b := ComputeTotal(end, name + "_count", match_);
    var count := if a.None? || b.None? || b.value < a.value then None else Some(b.value - a.value);
    h := Some(Histogram(buckets, sum, count));
  }

  /** The number of observations in the window, from the +Inf bucket. */
  function Observations(h: Histogram): Option<real> {
    if INF !in h.buckets || h.buckets[INF] <= 0.0 then None else Some(h.buckets[INF])
  }

  function Mean(h: Histogram): Option<real> {
    if h.sum.None? || h.count.None? || h.count.value <= 0.0 then None else Some(h.sum.value / h.count.value)
  }

  // ---------- Quantile ----------

  /** How much the buckets support a quantile. */
  datatype Quantile = Unknown | Below(edge: real) | Interpolated(seconds: real, edge: real) | Above(edge: real)

  datatype Edge = Edge(le: real, cumulative: real)

  /** Reading a label as a number is strconv's; it is any partial function here. */
  type Parser = string -> Option<real>

  predicate SortedEdges(edges: seq<Edge>) {
    forall i, j :: 0 <= i < j < |edges| ==> edges[i].le <= edges[j].le
  }

  predicate IsEdge(h: Histogram, parse: Parser, key: string, e: Edge) {
    key in h.buckets && key != INF && parse(key) == Some(e.le) && h.buckets[key] == e.cumulative
  }

  /** The finite edges of a histogram, in some order. */
  ghost predicate ListsEdges(h: Histogram, parse: Parser, edges: seq<Edge>) {
    AreEdges(h, parse, edges) && CoversKeys(h, parse, edges, h.buckets.Keys)
  }

  ghost predicate AreEdges(h: Histogram, parse: Parser, edges: seq<Edge>) {
    forall e :: e in edges ==> exists key :: IsEdge(h, parse, key, e)
  }

  ghost predicate CoversKeys(h: Histogram, parse: Parser, edges: seq<Edge>, keys: set<string>) {
    forall key :: key in keys && key in h.buckets && key != INF && parse(key).Some? ==>
      Edge(parse(key).value, h.buckets[key]) in edges
  }

  function InsertEdge(e: Edge, edges: seq<Edge>): (r: seq<Edge>)
    requires SortedEdges(edges)
    ensures SortedEdges(r) && forall x :: x in r <==> x == e || x in edges
  {
    if edges == [] || e.le <= edges[0].le then [e] + edges
    else
      var rest := InsertEdge(e, edges[1..]);
      assert edges == [edges[0]] + edges[1..];
      assert forall i :: 0 <= i < |rest| ==> rest[i] in rest;
      [edges[0]] + rest
  }

  /** What one edge answers for a target rank, given the edge and count before it. */
  function ScanFrom(edges: seq<Edge>, i: nat, target: real): Quantile
    requires i <= |edges| && edges != []
    decreases |edges| - i
  {
    if i == |edges| then Above(edges[|edges| - 1].le)
    else if edges[i].cumulative < target then ScanFrom(edges, i + 1, target)
    else if i == 0 then Below(edges[0].le)
    else
      var prev, e := edges[i - 1], edges[i];
      if e.cumulative - prev.cumulative <= 0.0 then Interpolated(e.le, e.le)
      else Interpolated(Interpolate(prev, e, target), e.le)
  }

  function Interpolate(prev: Edge, e: Edge, target: real): real
    requires e.cumulative - prev.cumulative > 0.0
  {
    prev.le + (e.le - prev.le) * (target - prev.cumulative) / (e.cumulative - prev.cumulative)
  }

  function Scan(edges: seq<Edge>, total: real, q: real): Quantile {
    if edges == [] then Unknown else ScanFrom(edges, 0, Target(q, total))
  }

  function Target(q: real, total: real): real { q * total }

  /**
   The edges come out of a map in no particular order and are sorted by value, so the answer is the
   scan of some sorted listing of them.
   */
  method ComputeQuantile(h: Histogram, q: real, parse: Parser) returns (r: Quantile, ghost edges: seq<Edge>)
    ensures Observations(h).None? ==> r == Unknown
    ensures Observations(h).Some? ==>
              SortedEdges(edges) && ListsEdges(h, parse, edges) && r == Scan(edges, Observations(h).value, q)
  {
    hide Interpolate, ListsEdges, SortedEdges, Target;
    var total := Observations(h);
    edges := [];
    if total.None? { return Unknown, []; }
    var list := SortedList(h, parse);
    edges := list;
    if |list| == 0 { return Unknown, list; }
    var target := Target(q, total.value);
    var prev := Edge(0.0, 0.0);
    for i := 0 to |list|
      invariant i > 0 ==> prev == list[i - 1]
      invariant ScanFrom(list, 0, target) == ScanFrom(list, i, target)
    {
      var e := list[i];
      if e.cumulative < target {
        prev := e;
        continue;
      }
      if i == 0 { return Below(e.le), list; }
      var span := e.cumulative - prev.cumulative;
      if span <= 0.0 { return Interpolated(e.le, e.le), list; }
      return Interpolated(Interpolate(prev, e, target), e.le), list;
    }
    return Above(list[|list| - 1].le), list;
  }

  method SortedList(h: Histogram, parse: Parser) returns (edges: seq<Edge>)
    ensures SortedEdges(edges) && ListsEdges(h, parse, edges)
  {
    hide SortedEdges;
    edges := [];
    assert SortedEdges(edges) by { NoEdgesSorted(); }
    var rest := h.buckets.Keys;
    while rest != {}
      invariant rest <= h.buckets.Keys
      invariant SortedEdges(edges)
      invariant AreEdges(h, parse, edges)
      invariant CoversKeys(h, parse, edges, h.buckets.Keys - rest)
      decreases |rest|
    {
      var le :| le in rest;
      rest := rest - {le};
      var v := parse(le);
      if le == INF || v.None? { continue; }
      var e := Edge(v.value, h.buckets[le]);
      assert IsEdge(h, parse, le, e);
      edges := InsertEdge(e, edges);
    }
    assert h.buckets.Keys - rest == h.buckets.Keys;
  }

  lemma NoEdgesSorted()
    ensures SortedEdges([])
  {
  }

  // ---------- what a scan means ----------

  /** i is the first edge whose cumulative count reaches the target, or the end. */
  ghost predicate IsFirstReaching(edges: seq<Edge>, target: real, i: nat) {
    && i <= |edges|
    && (forall j :: 0 <= j < i ==> edges[j].cumulative < target)
    && (i < |edges| ==> edges[i].cumulative >= target)
  }

  lemma {:induction false} ScanFinds(edges: seq<Edge>, target: real, i: nat) returns (k: nat)
    requires edges != [] && i <= |edges|
    requires forall j :: 0 <= j < i ==> edges[j].cumulative < target
    ensures IsFirstReaching(edges, target, k)
    ensures ScanFrom(edges, i, target) == Answer(edges, target, k)
    decreases |edges| - i
  {
    if i == |edges| || edges[i].cumulative >= target {
      k := i;
    } else {
      k := ScanFinds(edges, target, i + 1);
    }
  }

  /** The answer by the first edge that reaches the target; the containing bucket is never empty. */
  function Answer(edges: seq<Edge>, target: real, k: nat): Quantile
    requires edges != [] && IsFirstReaching(edges, target, k)
  {
    if k == |edges| then Above(edges[k - 1].le)
    else if k == 0 then Below(edges[0].le)
    else Interpolated(Interpolate(edges[k - 1], edges[k], target), edges[k].le)
  }

  /** The interpolated value lies in the containing bucket and is where the count, taken as linear there, meets the target. */
  lemma InterpolationMeetsTarget(prev: Edge, e: Edge, target: real)
    requires prev.le <= e.le && prev.cumulative < target <= e.cumulative
    ensures var x := Interpolate(prev, e, target);
            && prev.le <= x <= e.le && (prev.le < e.le ==> prev.le < x)
            && (x - prev.le) * (e.cumulative - prev.cumulative) == (e.le - prev.le) * (target - prev.cumulative)
  {
    var w, t, d := e.le - prev.le, target - prev.cumulative, e.cumulative - prev.cumulative;
    var y := w * t / d;
    assert y * d == w * t;
    FractionOf(w, t, d, y);
  }

  lemma SignOfProduct(y: real, d: real)
    requires d > 0.0
    ensures y * d >= 0.0 <==> y >= 0.0
    ensures y * d > 0.0 <==> y > 0.0
  {
  }

  lemma FractionOf(w: real, t: real, d: real, y: real)
    requires w >= 0.0 && 0.0 < t <= d && y * d == w * t
    ensures 0.0 <= y <= w && (w > 0.0 ==> y > 0.0)
  {
    SignOfProduct(w, t);
    SignOfProduct(y, d);
    SignOfProduct(w - y, d);
    assert (w - y) * d == w * (d - t);
    assert w * (d - t) >= 0.0;
  }

  /** r answers for the rank t at edge k, the first whose count reaches it. */
  predicate Answers(r: Quantile, edges: seq<Edge>, t: real, k: nat) {
    && k <= |edges| && edges != []
    && (forall j :: 0 <= j < k ==> edges[j].cumulative < t)
    && (k < |edges| ==> edges[k].cumulative >= t)
    && match r
       case Unknown => false
       case Below(edge) => k == 0 && edge == edges[0].le
       case Above(edge) => k == |edges| && edge == edges[k - 1].le
       case Interpolated(seconds, edge) =>
         && 0 < k < |edges| && edge == edges[k].le && edges[k - 1].le <= seconds <= edge
         && (seconds - edges[k - 1].le) * (edges[k].cumulative - edges[k - 1].cumulative)
            == (edge - edges[k - 1].le) * (t - edges[k - 1].cumulative)
  }

  /** A quantile answers for its share of the total, where the count first reaches it, taken as linear between edges. */
  lemma QuantileIs(edges: seq<Edge>, total: real, q: real) returns (k: nat)
    requires SortedEdges(edges)
    ensures if edges == [] then Scan(edges, total, q) == Unknown else Answers(Scan(edges, total, q), edges, q * total, k)
  {
    hide ScanFrom, Interpolate;
    k := 0;
    if edges != [] {
      k := ScanFinds(edges, Target(q, total), 0);
      if 0 < k < |edges| {
        InterpolationMeetsTarget(edges[k - 1], edges[k], Target(q, total));
      }
    }
  }

  predicate AtOrBelow(a: Quantile, b: Quantile) {
    match a
    case Unknown => b.Unknown?
    case Below(x) => (b.Below? && x == b.edge) || (b.Interpolated? && x <= b.seconds && x <= b.edge) || (b.Above? && x <= b.edge)
    case Interpolated(s, x) => (b.Interpolated? && s <= b.seconds && x <= b.edge) || (b.Above? && s <= x <= b.edge)
    case Above(x) => b.Above? && x == b.edge
  }

  /** Asking for a higher quantile never lowers the answer. */
  lemma QuantileMonotone(edges: seq<Edge>, total: real, p: real, q: real)
    requires SortedEdges(edges) && total > 0.0 && 0.0 < p <= q
    ensures AtOrBelow(Scan(edges, total, p), Scan(edges, total, q))
  {
    if edges != [] {
      hide Interpolate, Target;
      var s, t := Target(p, total), Target(q, total);
      OrderedTargets(total, p, q);
      var i := ScanFinds(edges, s, 0);
      var j := ScanFinds(edges, t, 0);
      FirstReachingOrdered(edges, s, t, i, j);
      if 0 < i < |edges| {
        InterpolationMeetsTarget(edges[i - 1], edges[i], s);
      }
      if 0 < j < |edges| {
        InterpolationMeetsTarget(edges[j - 1], edges[j], t);
        if i == j {
          InterpolateMonotone(edges[j - 1], edges[j], s, t);
        }
      }
    }
  }

  lemma FirstReachingOrdered(edges: seq<Edge>, s: real, t: real, i: nat, j: nat)
    requires s <= t && IsFirstReaching(edges, s, i) && IsFirstReaching(edges, t, j)
    ensures i <= j
  {
  }

  lemma OrderedTargets(total: real, p: real, q: real)
    requires total > 0.0 && 0.0 < p <= q
    ensures 0.0 < Target(p, total) <= Target(q, total)
  {
    SmallerFactor(p, q, total);
  }

  lemma SmallerFactor(p: real, q: real, t: real)
    requires t > 0.0 && 0.0 < p <= q
    ensures 0.0 < p * t <= q * t
  {
    var d := q - p;
    SignOfProduct(p, t);
    SignOfProduct(d, t);
    assert (p + d) * t == p * t + d * t;
  }

  lemma InterpolateMonotone(prev: Edge, e: Edge, s: real, t: real)
    requires prev.le <= e.le && prev.cumulative < s <= t <= e.cumulative
    ensures Interpolate(prev, e, s) <= Interpolate(prev, e, t)
  {
    var w, d := e.le - prev.le, e.cumulative - prev.cumulative;
    var x, y := w * (s - prev.cumulative) / d, w * (t - prev.cumulative) / d;
    assert x * d == w * (s - prev.cumulative) && y * d == w * (t - prev.cumulative);
    assert w * (t - prev.cumulative) - w * (s - prev.cumulative) == w * (t - s);
    assert (y - x) * d == w * (t - s) >= 0.0;
  }
}
