/**
 Soundness of a windowed histogram against the data it was drawn from.  A growing history of labelled
 observations is exposed, scraped twice and differenced; what the buckets count and where a quantile
 is said to lie are then compared with the observations themselves.
 */
module History {
  import opened Lists
  import opened Options
  import opened Exposition
  import opened Histograms
  import opened Reals
  import Sorting

  datatype Observation = Observation(at: int, labels: Labels, value: real)
  type History = seq<Observation>

  /** What one counter adds per observation: an "at most" bucket, the count, or the sum. */
  datatype Tally = AtMost(bound: real) | Count | Sum

  function Weight(t: Tally, v: real): real {
    match t
    case AtMost(b) => if v <= b then 1.0 else 0.0
    case Count => 1.0
    case Sum => v
  }

  /** One series' counter at instant t. */
  function Exactly(h: History, t: int, g: Labels, tally: Tally): real {
    if h == [] then 0.0
    else
      var n := |h| - 1;
      Exactly(h[..n], t, g, tally) + if h[n].at <= t && h[n].labels == g then Weight(tally, h[n].value) else 0.0
  }

  /** The labels have every wanted value, one that is missing counting as empty. */
  predicate Agrees(l: Labels, want: Labels) {
    forall k :: k in want ==> if k in l then l[k] == want[k] else want[k] == ""
  }

  lemma AgreesIsMatches(l: Labels, want: Labels)
    ensures Agrees(l, want) <==> Matches(l, want)
  {
  }

  /** The same over every observation a selector asks for. */
  function Matching(h: History, t: int, want: Labels, tally: Tally): real {
    if h == [] then 0.0
    else
      var n := |h| - 1;
      Matching(h[..n], t, want, tally) + if h[n].at <= t && Agrees(h[n].labels, want) then Weight(tally, h[n].value) else 0.0
  }

  /** The matching values observed after t0 and up to t1. */
  function WindowValues(h: History, t0: int, t1: int, want: Labels): seq<real> {
    if h == [] then []
    else
      var n := |h| - 1;
      WindowValues(h[..n], t0, t1, want) + if t0 < h[n].at <= t1 && Agrees(h[n].labels, want) then [h[n].value] else []
  }

  function TallySum(vs: seq<real>, tally: Tally): real {
    if vs == [] then 0.0 else TallySum(vs[..|vs| - 1], tally) + Weight(tally, vs[|vs| - 1])
  }

  lemma TallyStep(vs: seq<real>, v: real, tally: Tally)
    ensures TallySum(vs + [v], tally) == TallySum(vs, tally) + Weight(tally, v)
  {
    assert (vs + [v])[..|vs|] == vs;
  }

  /** Differencing a counter between two instants counts exactly the observations between them. */
  lemma {:induction false} DifferenceIsWindow(h: History, t0: int, t1: int, want: Labels, tally: Tally)
    requires t0 <= t1
    ensures Matching(h, t1, want, tally) - Matching(h, t0, want, tally) == TallySum(WindowValues(h, t0, t1, want), tally)
  {
    hide Agrees, Weight;
    if h != [] {
      var n := |h| - 1;
      DifferenceIsWindow(h[..n], t0, t1, want, tally);
      var before := WindowValues(h[..n], t0, t1, want);
      TallyStep(before, h[n].value, tally);
      assert before + [] == before;
    }
  }

  // ---------- exposing a history ----------

  /** Every observation so far belongs to one of the exposed series, and "le" is the exposition's own. */
  predicate Exposes(groups: seq<Labels>, h: History, t: int) {
    && Distinct(groups)
    && (forall i :: 0 <= i < |groups| ==> "le" !in groups[i])
    && (forall k :: 0 <= k < |h| && h[k].at <= t ==> h[k].labels in groups)
  }

  function TallyOf(le: string, parse: Parser): Tally
    requires le == INF || parse(le).Some?
  {
    if le == INF then Count else AtMost(parse(le).value)
  }

  predicate ReadableEdges(les: seq<string>, parse: Parser) {
    Distinct(les) && INF in les && forall i :: 0 <= i < |les| ==> les[i] == INF || parse(les[i]).Some?
  }

  predicate Readable(les: seq<string>, parse: Parser) {
    forall i :: 0 <= i < |les| ==> les[i] == INF || parse(les[i]).Some?
  }

  function GroupBuckets(h: History, t: int, g: Labels, les: seq<string>, parse: Parser): seq<Sample<real>>
    requires Readable(les, parse)
  {
    if les == [] then []
    else
      var n := |les| - 1;
      GroupBuckets(h, t, g, les[..n], parse) + [Sample(g["le" := les[n]], Exactly(h, t, g, TallyOf(les[n], parse)))]
  }

  function AllBuckets(h: History, t: int, groups: seq<Labels>, les: seq<string>, parse: Parser): seq<Sample<real>>
    requires Readable(les, parse)
  {
    if groups == [] then []
    else
      var n := |groups| - 1;
      AllBuckets(h, t, groups[..n], les, parse) + GroupBuckets(h, t, groups[n], les, parse)
  }

  function Plain(h: History, t: int, groups: seq<Labels>, tally: Tally): seq<Sample<real>> {
    if groups == [] then []
    else
      var n := |groups| - 1;
      Plain(h, t, groups[..n], tally) + [Sample(groups[n], Exactly(h, t, groups[n], tally))]
  }

  function ScrapeAt(h: History, t: int, name: string, groups: seq<Labels>, les: seq<string>, parse: Parser): Exposition
    requires Readable(les, parse)
  {
    map[name + "_bucket" := AllBuckets(h, t, groups, les, parse)]
    [name + "_sum" := Plain(h, t, groups, Sum)]
    [name + "_count" := Plain(h, t, groups, Count)]
  }

  lemma ScrapeHolds(h: History, t: int, name: string, groups: seq<Labels>, les: seq<string>, parse: Parser)
    requires Readable(les, parse)
    ensures var e := ScrapeAt(h, t, name, groups, les, parse);
            && SamplesOf(e, name + "_bucket") == AllBuckets(h, t, groups, les, parse)
            && SamplesOf(e, name + "_sum") == Plain(h, t, groups, Sum)
            && SamplesOf(e, name + "_count") == Plain(h, t, groups, Count)
  {
    assert (name + "_bucket")[|name| + 1] == 'b';
    assert (name + "_sum")[|name| + 1] == 's';
    assert (name + "_count")[|name| + 1] == 'c';
  }

  // ---------- what the exposed counters add up to ----------

  /** The counters of the matching groups, added up. */
  function GroupSum(h: History, t: int, groups: seq<Labels>, want: Labels, tally: Tally): real {
    if groups == [] then 0.0
    else
      var n := |groups| - 1;
      GroupSum(h, t, groups[..n], want, tally) + if Matches(groups[n], want) then Exactly(h, t, groups[n], tally) else 0.0
  }

  lemma {:induction false} GroupSumOfNothing(t: int, groups: seq<Labels>, want: Labels, tally: Tally)
    ensures GroupSum([], t, groups, want, tally) == 0.0
  {
    if groups != [] {
      GroupSumOfNothing(t, groups[..|groups| - 1], want, tally);
    }
  }

  /** One more observation moves the total of distinct groups by its own weight, if its group is there and matches. */
  lemma {:induction false} GroupSumStep(h: History, t: int, groups: seq<Labels>, want: Labels, tally: Tally)
    requires h != [] && Distinct(groups)
    ensures var o := h[|h| - 1];
            GroupSum(h, t, groups, want, tally) == GroupSum(h[..|h| - 1], t, groups, want, tally)
              + if o.at <= t && o.labels in groups && Matches(o.labels, want) then Weight(tally, o.value) else 0.0
  {
    hide Matches, Weight;
    if groups != [] {
      var n := |groups| - 1;
      GroupSumStep(h, t, groups[..n], want, tally);
      var o := h[|h| - 1];
      assert groups == groups[..n] + [groups[n]];
      assert groups[n] !in groups[..n];
    }
  }

  /** Every observation is in exactly one series, so the matching series together count each matching observation once. */
  lemma {:induction false} GroupsCountOnce(h: History, t: int, groups: seq<Labels>, want: Labels, tally: Tally)
    requires Exposes(groups, h, t)
    ensures GroupSum(h, t, groups, want, tally) == Matching(h, t, want, tally)
  {
    hide Matches, Agrees, Weight, GroupSum;
    if h == [] {
      GroupSumOfNothing(t, groups, want, tally);
    } else {
      var n := |h| - 1;
      assert forall k :: 0 <= k < n ==> h[..n][k] == h[k];
      GroupsCountOnce(h[..n], t, groups, want, tally);
      GroupSumStep(h, t, groups, want, tally);
      AgreesIsMatches(h[n].labels, want);
      assert h[n].at <= t ==> h[n].labels in groups;
    }
  }

  predicate AnyGroup(groups: seq<Labels>, want: Labels) {
    exists i :: 0 <= i < |groups| && Matches(groups[i], want)
  }

  lemma AnyGroupStep(groups: seq<Labels>, want: Labels)
    requires groups != []
    ensures AnyGroup(groups, want) <==> AnyGroup(groups[..|groups| - 1], want) || Matches(groups[|groups| - 1], want)
  {
    hide Matches;
    assert forall i :: 0 <= i < |groups| - 1 ==> groups[..|groups| - 1][i] == groups[i];
  }

  lemma AnyMatchesStep(samples: seq<Sample<real>>, want: Labels)
    requires samples != []
    ensures AnyMatches(samples, want)
       <==> AnyMatches(samples[..|samples| - 1], want) || Matches(samples[|samples| - 1].labels, want)
  {
    hide Matches;
    assert forall i :: 0 <= i < |samples| - 1 ==> samples[..|samples| - 1][i] == samples[i];
  }

  lemma {:induction false} PlainSums(h: History, t: int, groups: seq<Labels>, want: Labels, tally: Tally)
    ensures MatchedSum(Plain(h, t, groups, tally), want) == GroupSum(h, t, groups, want, tally)
    ensures AnyMatches(Plain(h, t, groups, tally), want) <==> AnyGroup(groups, want)
  {
    hide Matches, Exactly, AnyMatches, AnyGroup;
    if groups != [] {
      var n := |groups| - 1;
      PlainSums(h, t, groups[..n], want, tally);
      var p := Plain(h, t, groups, tally);
      assert p[..|p| - 1] == Plain(h, t, groups[..n], tally);
      AnyMatchesStep(p, want);
      AnyGroupStep(groups, want);
    } else {
      NothingMatches(want);
    }
  }

  lemma NothingMatches(want: Labels)
    ensures !AnyMatches([], want) && !AnyGroup([], want)
  {
  }

  /** The value a label accumulates over samples: what the bucket map holds. */
  function SumAt(samples: seq<Sample<real>>, want: Labels, le: string): real {
    if samples == [] then 0.0
    else
      var n := |samples| - 1;
      SumAt(samples[..n], want, le) + if Contributes(samples[n], want) && samples[n].labels["le"] == le then samples[n].value else 0.0
  }

  predicate Seen(samples: seq<Sample<real>>, want: Labels, le: string) {
    exists i :: 0 <= i < |samples| && Contributes(samples[i], want) && samples[i].labels["le"] == le
  }

  lemma {:induction false} BucketsAccumulate(samples: seq<Sample<real>>, want: Labels, le: string)
    ensures CountAt(BucketsOf(samples, want), le) == SumAt(samples, want, le)
    ensures le in BucketsOf(samples, want) <==> Seen(samples, want, le)
  {
    hide Matches;
    if samples != [] {
      var n := |samples| - 1;
      BucketsAccumulate(samples[..n], want, le);
      SeenStep(samples, want, le);
      hide Seen;
    }
  }

  lemma SeenStep(samples: seq<Sample<real>>, want: Labels, le: string)
    requires samples != []
    ensures var s := samples[|samples| - 1];
            Seen(samples, want, le) <==> Seen(samples[..|samples| - 1], want, le) || (Contributes(s, want) && s.labels["le"] == le)
  {
    hide Matches;
    var n := |samples| - 1;
    assert forall i :: 0 <= i < n ==> samples[..n][i] == samples[i];
  }

  lemma {:induction false} SumAtAppend(a: seq<Sample<real>>, b: seq<Sample<real>>, want: Labels, le: string)
    ensures SumAt(a + b, want, le) == SumAt(a, want, le) + SumAt(b, want, le)
    ensures Seen(a + b, want, le) <==> Seen(a, want, le) || Seen(b, want, le)
  {
    hide Matches;
    if b == [] {
      assert a + b == a;
    } else {
      var n := |b| - 1;
      assert (a + b)[..|a + b| - 1] == a + b[..n];
      SumAtAppend(a, b[..n], want, le);
      SeenStep(b, want, le);
      SeenStep(a + b, want, le);
      hide Seen;
    }
  }

  lemma MatchesIgnoresLe(g: Labels, le: string, want: Labels)
    requires "le" !in want
    ensures Matches(g["le" := le], want) <==> Matches(g, want)
  {
    assert forall k :: k in want ==> LabelOf(g["le" := le], k) == LabelOf(g, k);
  }

  lemma {:induction false} GroupBucketsAt(h: History, t: int, g: Labels, les: seq<string>, parse: Parser, want: Labels, le: string)
    requires Readable(les, parse) && Distinct(les) && "le" !in want
    ensures var b := GroupBuckets(h, t, g, les, parse);
            && (Seen(b, want, le) <==> le in les && Matches(g, want))
            && SumAt(b, want, le) == if le in les && Matches(g, want) then Exactly(h, t, g, TallyOf(le, parse)) else 0.0
  {
    hide *;
    if les == [] {
      NothingSeen(h, t, g, parse, want, le);
    } else {
      var n := |les| - 1;
      assert les == les[..n] + [les[n]];
      PrefixReadable(les, parse);
      GroupBucketsAt(h, t, g, les[..n], parse, want, le);
      BucketsStep(h, t, g, les, parse, want, le);
    }
  }

  lemma PrefixReadable(les: seq<string>, parse: Parser)
    requires Readable(les, parse) && Distinct(les) && les != []
    ensures Readable(les[..|les| - 1], parse) && Distinct(les[..|les| - 1]) && les[|les| - 1] !in les[..|les| - 1]
  {
  }

  lemma BucketsStep(h: History, t: int, g: Labels, les: seq<string>, parse: Parser, want: Labels, le: string)
    requires Readable(les, parse) && les != [] && "le" !in want
    ensures var n := |les| - 1;
            var a, b := GroupBuckets(h, t, g, les[..n], parse), GroupBuckets(h, t, g, les, parse);
            && (Seen(b, want, le) <==> Seen(a, want, le) || (les[n] == le && Matches(g, want)))
            && SumAt(b, want, le) == SumAt(a, want, le)
                 + if les[n] == le && Matches(g, want) then Exactly(h, t, g, TallyOf(le, parse)) else 0.0
  {
    hide Matches, Exactly, TallyOf, Contributes, Seen;
    var n := |les| - 1;
    var s := Sample(g["le" := les[n]], Exactly(h, t, g, TallyOf(les[n], parse)));
    BucketSample(g, les[n], s.value, want);
    var b := GroupBuckets(h, t, g, les, parse);
    assert b[..|b| - 1] == GroupBuckets(h, t, g, les[..n], parse) && b[|b| - 1] == s;
    SeenStep(b, want, le);
  }

  lemma NothingSeen(h: History, t: int, g: Labels, parse: Parser, want: Labels, le: string)
    ensures Readable([], parse)
    ensures !Seen(GroupBuckets(h, t, g, [], parse), want, le) && SumAt(GroupBuckets(h, t, g, [], parse), want, le) == 0.0
  {
  }

  lemma BucketSample(g: Labels, le: string, v: real, want: Labels)
    requires "le" !in want
    ensures var s := Sample(g["le" := le], v); "le" in s.labels && s.labels["le"] == le && (Contributes(s, want) <==> Matches(g, want))
  {
    MatchesIgnoresLe(g, le, want);
    hide Matches;
  }

  lemma {:induction false} AllBucketsAt(h: History, t: int, groups: seq<Labels>, les: seq<string>, parse: Parser, want: Labels, le: string)
    requires Readable(les, parse) && Distinct(les) && "le" !in want
    ensures var b := AllBuckets(h, t, groups, les, parse);
            && (Seen(b, want, le) <==> le in les && AnyGroup(groups, want))
            && SumAt(b, want, le) == if le in les then GroupSum(h, t, groups, want, TallyOf(le, parse)) else 0.0
  {
    hide Matches, Exactly, TallyOf;
    if groups != [] {
      var n := |groups| - 1;
      AllBucketsAt(h, t, groups[..n], les, parse, want, le);
      GroupBucketsAt(h, t, groups[n], les, parse, want, le);
      SumAtAppend(AllBuckets(h, t, groups[..n], les, parse), GroupBuckets(h, t, groups[n], les, parse), want, le);
      AnyGroupStep(groups, want);
      hide Seen, SumAt, AnyGroup, AllBuckets;
      AllBucketsStep(h, t, groups, les, parse);
    }
  }

  lemma AllBucketsStep(h: History, t: int, groups: seq<Labels>, les: seq<string>, parse: Parser)
    requires Readable(les, parse) && groups != []
    ensures AllBuckets(h, t, groups, les, parse)
         == AllBuckets(h, t, groups[..|groups| - 1], les, parse) + GroupBuckets(h, t, groups[|groups| - 1], les, parse)
  {
  }

  // ---------- the windowed histogram counts exactly the window ----------

  lemma {:induction false} TallyNonNegative(vs: seq<real>, tally: Tally)
    requires tally != Sum
    ensures TallySum(vs, tally) >= 0.0
  {
    if vs != [] {
      TallyNonNegative(vs[..|vs| - 1], tally);
    }
  }

  lemma BucketsCount(h: History, t: int, groups: seq<Labels>, les: seq<string>, parse: Parser, want: Labels, le: string)
    requires Exposes(groups, h, t) && ReadableEdges(les, parse) && "le" !in want
    ensures Readable(les, parse)
    ensures var b := BucketsOf(AllBuckets(h, t, groups, les, parse), want);
            && (le in b <==> le in les && AnyGroup(groups, want))
            && (le in les ==> CountAt(b, le) == Matching(h, t, want, TallyOf(le, parse)))
  {
    BucketsAccumulate(AllBuckets(h, t, groups, les, parse), want, le);
    AllBucketsAt(h, t, groups, les, parse, want, le);
    if le in les {
      GroupsCountOnce(h, t, groups, want, TallyOf(le, parse));
    }
    hide Matches, Exactly, TallyOf, BucketsOf, SumAt, Seen, AnyGroup, Exposes, Distinct, AllBuckets, GroupSum, Matching;
  }

  /** The two scrapes of one history, differenced. */
  ghost function Differenced(
    h: History, t0: int, t1: int, name: string, g0: seq<Labels>, g1: seq<Labels>, les: seq<string>, parse: Parser, want: Labels)
    : Option<Histogram>
    requires Readable(les, parse)
  {
    Windowed(ScrapeAt(h, t0, name, g0, les, parse), ScrapeAt(h, t1, name, g1, les, parse), name, want)
  }

  /**
   The windowed buckets are exact: the key set is the exposed edges, and each holds precisely the
   number of matching observations made after the first scrape and by the second that are at or
   below its edge, whichever series they came from and whenever those series first appeared.
   */
  lemma WindowedIsExact(
    h: History, t0: int, t1: int, name: string, g0: seq<Labels>, g1: seq<Labels>, les: seq<string>, parse: Parser, want: Labels)
    requires t0 <= t1 && Exposes(g0, h, t0) && Exposes(g1, h, t1) && ReadableEdges(les, parse) && "le" !in want
    ensures Readable(les, parse)
    ensures var w := Differenced(h, t0, t1, name, g0, g1, les, parse, want);
            var vs := WindowValues(h, t0, t1, want);
            && (w.Some? <==> AnyGroup(g1, want))
            && (w.Some? ==>
                  && (forall le :: le in w.value.buckets <==> le in les)
                  && (forall le :: le in les ==> w.value.buckets[le] == TallySum(vs, TallyOf(le, parse))))
  {
    hide ScrapeAt, AllBuckets, BucketsOf, WindowValues, TallySum, TallyOf, AnyGroup, CounterDelta, Exposes, Distinct;
    BucketsDiffer(h, t0, t1, g0, g1, les, parse, want);
    ScrapeHolds(h, t0, name, g0, les, parse);
    ScrapeHolds(h, t1, name, g1, les, parse);
    var b1 := BucketsOf(AllBuckets(h, t1, g1, les, parse), want);
    assert b1 == map[] <==> INF !in b1;
  }

  lemma BucketsDiffer(
    h: History, t0: int, t1: int, g0: seq<Labels>, g1: seq<Labels>, les: seq<string>, parse: Parser, want: Labels)
    requires t0 <= t1 && Exposes(g0, h, t0) && Exposes(g1, h, t1) && ReadableEdges(les, parse) && "le" !in want
    ensures Readable(les, parse)
    ensures var b0, b1 := BucketsOf(AllBuckets(h, t0, g0, les, parse), want), BucketsOf(AllBuckets(h, t1, g1, les, parse), want);
            forall le :: (le in b1 <==> le in les && AnyGroup(g1, want))
                      && (le in les ==> CountAt(b1, le) - CountAt(b0, le) == TallySum(WindowValues(h, t0, t1, want), TallyOf(le, parse)) >= 0.0)
  {
    hide AllBuckets, BucketsOf, WindowValues, TallySum, AnyGroup, Exposes, Distinct, CountAt;
    var b0, b1 := BucketsOf(AllBuckets(h, t0, g0, les, parse), want), BucketsOf(AllBuckets(h, t1, g1, les, parse), want);
    forall le
      ensures le in b1 <==> le in les && AnyGroup(g1, want)
      ensures le in les ==> CountAt(b1, le) - CountAt(b0, le) == TallySum(WindowValues(h, t0, t1, want), TallyOf(le, parse)) >= 0.0
    {
      BucketsCount(h, t0, g0, les, parse, want, le);
      BucketsCount(h, t1, g1, les, parse, want, le);
      if le in les {
        DifferenceIsWindow(h, t0, t1, want, TallyOf(le, parse));
        TallyNonNegative(WindowValues(h, t0, t1, want), TallyOf(le, parse));
      }
    }
  }

  lemma {:induction false} CountIsLength(vs: seq<real>)
    ensures TallySum(vs, Count) == |vs| as real
  {
    if vs != [] {
      CountIsLength(vs[..|vs| - 1]);
    }
  }

  /** With the series present at both ends, the mean is the observations' own mean: nothing is interpolated. */
  lemma MeanIsExact(
    h: History, t0: int, t1: int, name: string, g0: seq<Labels>, g1: seq<Labels>, les: seq<string>, parse: Parser, want: Labels)
    requires t0 <= t1 && Exposes(g0, h, t0) && Exposes(g1, h, t1) && ReadableEdges(les, parse) && "le" !in want
    requires AnyGroup(g0, want) && AnyGroup(g1, want)
    ensures Readable(les, parse)
    ensures var w := Differenced(h, t0, t1, name, g0, g1, les, parse, want);
            var vs := WindowValues(h, t0, t1, want);
            && w.Some? && w.value.count == Some(|vs| as real)
            && (w.value.sum.Some? <==> TallySum(vs, Sum) >= 0.0)
            && (vs != [] && w.value.sum.Some? ==> Mean(w.value) == Some(TallySum(vs, Sum) / |vs| as real))
  {
    hide ScrapeAt, AllBuckets, BucketsOf, WindowValues, TallySum, TallyOf, AnyGroup, MatchedSum, AnyMatches, Plain, Exposes, Distinct, Readable;
    WindowedIsExact(h, t0, t1, name, g0, g1, les, parse, want);
    ScrapeHolds(h, t0, name, g0, les, parse);
    ScrapeHolds(h, t1, name, g1, les, parse);
    CounterIsWindow(h, t0, t1, g0, g1, want, Sum);
    CounterIsWindow(h, t0, t1, g0, g1, want, Count);
    CountIsLength(WindowValues(h, t0, t1, want));
  }

  lemma CounterIsWindow(h: History, t0: int, t1: int, g0: seq<Labels>, g1: seq<Labels>, want: Labels, tally: Tally)
    requires t0 <= t1 && Exposes(g0, h, t0) && Exposes(g1, h, t1) && AnyGroup(g0, want) && AnyGroup(g1, want)
    ensures AnyMatches(Plain(h, t0, g0, tally), want) && AnyMatches(Plain(h, t1, g1, tally), want)
    ensures MatchedSum(Plain(h, t1, g1, tally), want) - MatchedSum(Plain(h, t0, g0, tally), want)
         == TallySum(WindowValues(h, t0, t1, want), tally)
  {
    PlainSums(h, t0, g0, want, tally);
    PlainSums(h, t1, g1, want, tally);
    GroupsCountOnce(h, t0, g0, want, tally);
    GroupsCountOnce(h, t1, g1, want, tally);
    DifferenceIsWindow(h, t0, t1, want, tally);
    hide *;
  }

  // ---------- ranks ----------

  /** How many values are at or below x. */
  function AtOrUnder(vs: seq<real>, x: real): nat {
    if vs == [] then 0 else AtOrUnder(vs[..|vs| - 1], x) + if vs[|vs| - 1] <= x then 1 else 0
  }

  lemma {:induction false} TallyIsAtOrUnder(vs: seq<real>, x: real)
    ensures TallySum(vs, AtMost(x)) == AtOrUnder(vs, x) as real
  {
    if vs != [] {
      TallyIsAtOrUnder(vs[..|vs| - 1], x);
    }
  }

  lemma {:induction false} AtOrUnderAppend(a: seq<real>, b: seq<real>, x: real)
    ensures AtOrUnder(a + b, x) == AtOrUnder(a, x) + AtOrUnder(b, x)
  {
    if b == [] {
      assert a + b == a;
    } else {
      var n := |b| - 1;
      assert (a + b)[..|a + b| - 1] == a + b[..n];
      AtOrUnderAppend(a, b[..n], x);
    }
  }

  lemma {:induction false} AtOrUnderInsert(v: real, vs: seq<real>, x: real)
    ensures AtOrUnder(Sorting.Insert(v, vs), x) == AtOrUnder([v], x) + AtOrUnder(vs, x)
  {
    if vs == [] || v <= vs[0] {
      AtOrUnderAppend([v], vs, x);
    } else {
      AtOrUnderInsert(v, vs[1..], x);
      AtOrUnderAppend([vs[0]], Sorting.Insert(v, vs[1..]), x);
      AtOrUnderAppend([vs[0]], vs[1..], x);
      assert vs == [vs[0]] + vs[1..];
    }
  }

  lemma {:induction false} AtOrUnderSort(vs: seq<real>, x: real)
    ensures AtOrUnder(Sorting.Sort(vs), x) == AtOrUnder(vs, x)
  {
    if vs != [] {
      AtOrUnderSort(vs[1..], x);
      AtOrUnderInsert(vs[0], Sorting.Sort(vs[1..]), x);
      AtOrUnderAppend([vs[0]], vs[1..], x);
      assert vs == [vs[0]] + vs[1..];
    }
  }

  /** In ascending order, at least k values are at or below x exactly when the k-th is. */
  lemma {:induction false} RankOfSorted(s: seq<real>, k: nat, x: real)
    requires Sorting.Ascending(s) && 1 <= k <= |s|
    ensures AtOrUnder(s, x) >= k <==> s[k - 1] <= x
  {
    var n := |s| - 1;
    UnderBounds(s, x);
    if k <= n {
      RankOfSorted(s[..n], k, x);
      UnderBounds(s[..n], x);
      assert s[k - 1] <= s[n];
    } else if s[n] <= x {
      AllUnder(s, x);
    } else {
      UnderBounds(s[..n], x);
    }
  }

  lemma {:induction false} UnderBounds(s: seq<real>, x: real)
    ensures AtOrUnder(s, x) <= |s|
  {
    if s != [] {
      UnderBounds(s[..|s| - 1], x);
    }
  }

  lemma {:induction false} AllUnder(s: seq<real>, x: real)
    requires Sorting.Ascending(s) && (s != [] ==> s[|s| - 1] <= x)
    ensures AtOrUnder(s, x) == |s|
  {
    if |s| > 1 {
      AllUnder(s[..|s| - 1], x);
    } else if |s| == 1 {
      assert s[..0] == [];
    }
  }

  /** A share q of n. */
  function Share(q: real, n: nat): real { q * n as real }

  /** The true q-quantile of a set of values: their ceil(q * n)-th smallest. */
  function OrderStatistic(vs: seq<real>, q: real): real
    requires vs != [] && 0.0 < q <= 1.0
  {
    RankInRange(|vs|, q);
    Sorting.Sort(vs)[Ceil(Share(q, |vs|)) - 1]
  }

  lemma RankInRange(n: nat, q: real)
    requires n > 0 && 0.0 < q <= 1.0
    ensures 1 <= Ceil(Share(q, n)) <= n
  {
    UnitScale(q, n);
    hide Share, Ceil;
    CeilWithin(Share(q, n), n);
  }

  lemma CeilWithin(t: real, n: int)
    requires 0.0 < t <= n as real
    ensures 1 <= Ceil(t) <= n
  {
  }

  lemma UnitScale(q: real, n: nat)
    requires n > 0 && 0.0 < q <= 1.0
    ensures 0.0 < Share(q, n) <= n as real
  {
    assert (1.0 - q) * n as real >= 0.0;
  }

  lemma ShareIs(q: real, n: nat)
    ensures Share(q, n) == q * n as real == Target(q, n as real)
  {
  }

  lemma CeilCompare(c: int, t: real)
    ensures c as real >= t <==> c >= Ceil(t)
  {
  }

  /** A cumulative count reaches the target exactly when the order statistic is at or below its edge. */
  lemma ReachesIff(vs: seq<real>, q: real, le: real)
    requires vs != [] && 0.0 < q <= 1.0
    ensures TallySum(vs, AtMost(le)) >= Target(q, |vs| as real) <==> OrderStatistic(vs, q) <= le
  {
    ShareIs(q, |vs|);
    hide Target, Share, Ceil, Sorting.Sort, TallySum, AtOrUnder;
    var t := Share(q, |vs|);
    RankInRange(|vs|, q);
    TallyIsAtOrUnder(vs, le);
    CeilCompare(AtOrUnder(vs, le), t);
    AtOrUnderSort(vs, le);
    Sorting.SortSorts(vs);
    RankOfSorted(Sorting.Sort(vs), Ceil(t), le);
  }

  lemma IsAmongThem(vs: seq<real>, q: real)
    requires vs != [] && 0.0 < q <= 1.0
    ensures OrderStatistic(vs, q) in vs
  {
    Sorting.SortSorts(vs);
    RankInRange(|vs|, q);
    hide Ceil, Share, Sorting.Sort;
    var sorted := Sorting.Sort(vs);
    assert OrderStatistic(vs, q) in sorted;
    assert OrderStatistic(vs, q) in multiset(sorted);
  }

  /** The order statistic is one of the values: the least that a share q of them is at or below. */
  lemma OrderStatisticIs(vs: seq<real>, q: real)
    requires vs != [] && 0.0 < q <= 1.0
    ensures var x, n := OrderStatistic(vs, q), |vs| as real;
            && x in vs && AtOrUnder(vs, x) as real >= q * n
            && forall y :: AtOrUnder(vs, y) as real >= q * n ==> x <= y
  {
    IsAmongThem(vs, q);
    ShareIs(q, |vs|);
    hide *;
    forall y
      ensures AtOrUnder(vs, y) as real >= Share(q, |vs|) <==> OrderStatistic(vs, q) <= y
    {
      ReachesIff(vs, q, y);
      TallyIsAtOrUnder(vs, y);
    }
  }

  /** What an answer promises about the true value x, given the edges it was read from. */
  ghost predicate Promises(r: Quantile, edges: seq<Edge>, x: real) {
    match r
    case Unknown => edges == []
    case Below(edge) => x <= edge && forall e :: e in edges ==> edge <= e.le
    case Interpolated(seconds, edge) =>
      exists i :: 0 < i < |edges| && edges[i].le == edge && edges[i - 1].le < x <= edge && edges[i - 1].le <= seconds <= edge
    case Above(edge) => x > edge && forall e :: e in edges ==> e.le <= edge
  }

  /**
   The bounded quantile is sound.  Whatever finite edges a histogram of some values has, the true
   order statistic lies in the bucket the answer names: at or below the lowest edge for Below, past
   the last for Above, and otherwise in the same bucket as the interpolated figure, which is therefore
   within one bucket's width of it.
   */
  lemma QuantileIsSound(vs: seq<real>, edges: seq<Edge>, q: real)
    requires vs != [] && 0.0 < q <= 1.0 && SortedEdges(edges)
    requires forall i :: 0 <= i < |edges| ==> edges[i].cumulative == TallySum(vs, AtMost(edges[i].le))
    ensures Promises(Scan(edges, |vs| as real, q), edges, OrderStatistic(vs, q))
  {
    hide Target, OrderStatistic, TallySum, Interpolate, ScanFrom;
    if edges != [] {
      var t := Target(q, |vs| as real);
      var k := ScanFinds(edges, t, 0);
      forall i | 0 <= i < |edges|
        ensures edges[i].cumulative >= t <==> OrderStatistic(vs, q) <= edges[i].le
      {
        ReachesIff(vs, q, edges[i].le);
      }
      AnswerPromises(edges, t, k, OrderStatistic(vs, q));
    }
  }

  lemma AnswerPromises(edges: seq<Edge>, t: real, k: nat, x: real)
    requires edges != [] && SortedEdges(edges) && IsFirstReaching(edges, t, k)
    requires forall i :: 0 <= i < |edges| ==> (edges[i].cumulative >= t <==> x <= edges[i].le)
    ensures Promises(Answer(edges, t, k), edges, x)
  {
    hide Interpolate;
    if 0 < k < |edges| {
      InterpolationMeetsTarget(edges[k - 1], edges[k], t);
    } else if k == |edges| {
      assert edges[k - 1].cumulative < t;
    }
  }

  /**
   End to end: a quantile of the histogram between two scrapes of a growing history, over any sorted
   listing of its edges, keeps its promise about the observations made between those two scrapes.
   */
  lemma WindowQuantileIsSound(
    h: History, t0: int, t1: int, name: string, g0: seq<Labels>, g1: seq<Labels>, les: seq<string>, parse: Parser, want: Labels,
    edges: seq<Edge>, q: real)
    requires t0 <= t1 && Exposes(g0, h, t0) && Exposes(g1, h, t1) && ReadableEdges(les, parse) && "le" !in want
    requires AnyGroup(g1, want) && Readable(les, parse) && 0.0 < q <= 1.0
    requires var w := Differenced(h, t0, t1, name, g0, g1, les, parse, want);
             w.Some? ==> SortedEdges(edges) && ListsEdges(w.value, parse, edges)
    ensures var w := Differenced(h, t0, t1, name, g0, g1, les, parse, want);
            var vs := WindowValues(h, t0, t1, want);
            && w.Some?
            && (Observations(w.value) == if vs == [] then None else Some(|vs| as real))
            && (vs != [] ==> Promises(Scan(edges, |vs| as real, q), edges, OrderStatistic(vs, q)))
  {
    WindowedIsExact(h, t0, t1, name, g0, g1, les, parse, want);
    var w := Differenced(h, t0, t1, name, g0, g1, les, parse, want).value;
    var vs := WindowValues(h, t0, t1, want);
    CountIsLength(vs);
    hide Differenced, WindowValues, TallySum, Exposes, AnyGroup, OrderStatistic, Scan, Promises;
    assert w.buckets[INF] == |vs| as real;
    if vs != [] {
      forall i | 0 <= i < |edges|
        ensures edges[i].cumulative == TallySum(vs, AtMost(edges[i].le))
      {
        assert edges[i] in edges;
        var key :| IsEdge(w, parse, key, edges[i]);
      }
      QuantileIsSound(vs, edges, q);
    }
  }
}
