/**
 What a selector lets into a total and into a windowed histogram, for any two scrapes (promx/parse.go,
 promx/window.go): samples are held against the wanted labels one by one, and counters may be reset or missing.
 */
module Selection {
  import opened Exposition
  import opened History
  import opened Histograms
  import opened Options

  // ---------- totals ----------

  /** The values of the samples that have every wanted label, added up. */
  function SumOf(samples: seq<Sample<real>>, want: Labels): real {
    if samples == [] then 0.0
    else
      var n := |samples| - 1;
      SumOf(samples[..n], want) + if Agrees(samples[n].labels, want) then samples[n].value else 0.0
  }

  predicate SomeAgree(samples: seq<Sample<real>>, want: Labels) {
    exists i :: 0 <= i < |samples| && Agrees(samples[i].labels, want)
  }

  lemma {:induction false} SumsAgree(samples: seq<Sample<real>>, want: Labels)
    ensures MatchedSum(samples, want) == SumOf(samples, want)
    ensures AnyMatches(samples, want) <==> SomeAgree(samples, want)
  {
    hide Matches, Agrees;
    if samples != [] {
      var n := |samples| - 1;
      SumsAgree(samples[..n], want);
      AgreesIsMatches(samples[n].labels, want);
      AnyMatchesStep(samples, want);
      assert forall i :: 0 <= i < n ==> samples[..n][i] == samples[i];
      hide AnyMatches;
    }
  }

  /** A metric's total is the sum over its samples with every wanted label, and absent when there is none. */
  lemma TotalIs(e: Exposition, name: string, want: Labels)
    ensures var samples := if name in e then e[name] else [];
            Total(e, name, want) == if SomeAgree(samples, want) then Some(SumOf(samples, want)) else None
  {
    SumsAgree(SamplesOf(e, name), want);
    hide Matches, Agrees, AnyMatches, SomeAgree, MatchedSum, SumOf;
  }

  // ---------- buckets ----------

  /** The counts of one edge over the samples that have every wanted label. */
  function SumOfEdge(samples: seq<Sample<real>>, want: Labels, le: string): real {
    if samples == [] then 0.0
    else
      var n := |samples| - 1;
      var l := samples[n].labels;
      SumOfEdge(samples[..n], want, le) + if Agrees(l, want) && "le" in l && l["le"] == le then samples[n].value else 0.0
  }

  predicate SomeEdge(samples: seq<Sample<real>>, want: Labels, le: string) {
    exists i :: 0 <= i < |samples| && Agrees(samples[i].labels, want) && "le" in samples[i].labels && samples[i].labels["le"] == le
  }

  lemma {:induction false} EdgesAgree(samples: seq<Sample<real>>, want: Labels, le: string)
    ensures SumAt(samples, want, le) == SumOfEdge(samples, want, le)
    ensures Seen(samples, want, le) <==> SomeEdge(samples, want, le)
  {
    hide Matches, Agrees;
    if samples != [] {
      var n := |samples| - 1;
      EdgesAgree(samples[..n], want, le);
      AgreesIsMatches(samples[n].labels, want);
      SeenStep(samples, want, le);
      assert forall i :: 0 <= i < n ==> samples[..n][i] == samples[i];
      hide Seen;
    }
  }

  /** The edges are those of the samples with every wanted label, each with their counts added up. */
  lemma BucketsAre(samples: seq<Sample<real>>, want: Labels, le: string)
    ensures le in BucketsOf(samples, want) <==> SomeEdge(samples, want, le)
    ensures CountAt(BucketsOf(samples, want), le) == SumOfEdge(samples, want, le)
  {
    BucketsAccumulate(samples, want, le);
    EdgesAgree(samples, want, le);
    hide *;
  }

  // ---------- the windowed histogram ----------

  function Find(e: Exposition, name: string): seq<Sample<real>> {
    if name in e then e[name] else []
  }

  /** How far a counter rose between two scrapes; absent when either lacks it or it was reset. */
  predicate IsRise(r: Option<real>, a: seq<Sample<real>>, b: seq<Sample<real>>, want: Labels) {
    && (r.Some? <==> SomeAgree(a, want) && SomeAgree(b, want) && SumOf(b, want) >= SumOf(a, want))
    && (r.Some? ==> r.value == SumOf(b, want) - SumOf(a, want))
  }

  predicate IsBucket(count: real, a: seq<Sample<real>>, b: seq<Sample<real>>, want: Labels, le: string) {
    var d := SumOfEdge(b, want, le) - SumOfEdge(a, want, le);
    count == if d > 0.0 then d else 0.0
  }

  lemma RiseIs(start: Exposition, end: Exposition, name: string, want: Labels)
    ensures IsRise(CounterDelta(start, end, name, want), Find(start, name), Find(end, name), want)
  {
    TotalIs(start, name, want);
    TotalIs(end, name, want);
    hide SomeAgree, SumOf, Total;
  }

  /**
   The windowed histogram of any two scrapes.  It is there when the later one has an edge for the
   selector; its edges are those of the later scrape, each the rise of its summed count, or 0 where that
   fell; its sum and count are the rises of theirs; and its observations are those of the edge "+Inf".
   */
  lemma WindowIs(start: Exposition, end: Exposition, name: string, want: Labels)
    ensures var a, b := Find(start, name + "_bucket"), Find(end, name + "_bucket");
            var w := Windowed(start, end, name, want);
            && (w.Some? <==> exists le :: SomeEdge(b, want, le))
            && (w.Some? ==>
                  && (forall le :: le in w.value.buckets <==> SomeEdge(b, want, le))
                  && (forall le :: le in w.value.buckets ==> IsBucket(w.value.buckets[le], a, b, want, le))
                  && IsRise(w.value.sum, Find(start, name + "_sum"), Find(end, name + "_sum"), want)
                  && IsRise(w.value.count, Find(start, name + "_count"), Find(end, name + "_count"), want)
                  && Observations(w.value) ==
                       if "+Inf" in w.value.buckets && w.value.buckets["+Inf"] > 0.0 then Some(w.value.buckets["+Inf"]) else None)
  {
    var a, b := Find(start, name + "_bucket"), Find(end, name + "_bucket");
    hide *;
    WindowShape(start, end, name, want);
    RiseIs(start, end, name + "_sum", want);
    RiseIs(start, end, name + "_count", want);
    forall le
      ensures le in BucketsOf(b, want) <==> SomeEdge(b, want, le)
      ensures le in BucketsOf(b, want) ==>
                IsBucket(Max0(BucketsOf(b, want)[le] - CountAt(BucketsOf(a, want), le)), a, b, want, le)
    {
      EdgeRises(a, b, want, le);
    }
    EmptyMap(BucketsOf(b, want));
  }

  lemma WindowShape(start: Exposition, end: Exposition, name: string, want: Labels)
    ensures var bStart, bEnd := BucketsOf(Find(start, name + "_bucket"), want), BucketsOf(Find(end, name + "_bucket"), want);
            var w := Windowed(start, end, name, want);
            && (w.None? <==> bEnd == map[])
            && (w.Some? ==>
                  && w.value.buckets.Keys == bEnd.Keys
                  && (forall le :: le in bEnd ==> w.value.buckets[le] == Max0(bEnd[le] - CountAt(bStart, le)))
                  && w.value.sum == CounterDelta(start, end, name + "_sum", want)
                  && w.value.count == CounterDelta(start, end, name + "_count", want)
                  && Observations(w.value) ==
                       if "+Inf" in w.value.buckets && w.value.buckets["+Inf"] > 0.0 then Some(w.value.buckets["+Inf"]) else None)
  {
    hide BucketsOf, CounterDelta, CountAt, Max0;
  }

  lemma EdgeRises(a: seq<Sample<real>>, b: seq<Sample<real>>, want: Labels, le: string)
    ensures le in BucketsOf(b, want) <==> SomeEdge(b, want, le)
    ensures le in BucketsOf(b, want) ==>
              IsBucket(Max0(BucketsOf(b, want)[le] - CountAt(BucketsOf(a, want), le)), a, b, want, le)
  {
    BucketsAre(b, want, le);
    BucketsAre(a, want, le);
    hide BucketsOf, SomeEdge, SumOfEdge;
  }

  lemma EmptyMap(m: map<string, real>)
    ensures m == map[] <==> forall le :: le !in m
  {
  }

  // ---------- a sample that the selector rules out ----------

  lemma {:induction false} SumAppend(a: seq<Sample<real>>, b: seq<Sample<real>>, want: Labels, le: string)
    ensures SumOf(a + b, want) == SumOf(a, want) + SumOf(b, want)
    ensures SumOfEdge(a + b, want, le) == SumOfEdge(a, want, le) + SumOfEdge(b, want, le)
  {
    hide Agrees;
    if b == [] {
      assert a + b == a;
    } else {
      var n := |b| - 1;
      assert (a + b)[..|a + b| - 1] == a + b[..n];
      SumAppend(a, b[..n], want, le);
    }
  }

  lemma AgreeAppend(a: seq<Sample<real>>, b: seq<Sample<real>>, want: Labels, le: string)
    ensures SomeAgree(a + b, want) <==> SomeAgree(a, want) || SomeAgree(b, want)
    ensures SomeEdge(a + b, want, le) <==> SomeEdge(a, want, le) || SomeEdge(b, want, le)
  {
    hide Agrees;
    var s := a + b;
    assert forall i :: 0 <= i < |a| ==> s[i] == a[i];
    assert forall i :: 0 <= i < |b| ==> s[|a| + i] == b[i];
    assert forall i :: |a| <= i < |s| ==> s[i] == b[i - |a|];
  }

  /** A sample with another value for a wanted label can be left out: no total and no bucket changes. */
  lemma RuledOutCountsForNothing(a: seq<Sample<real>>, s: Sample<real>, b: seq<Sample<real>>, want: Labels, k: string, le: string)
    requires k in want && (if k in s.labels then s.labels[k] != want[k] else want[k] != "")
    ensures MatchedSum(a + [s] + b, want) == MatchedSum(a + b, want)
    ensures AnyMatches(a + [s] + b, want) <==> AnyMatches(a + b, want)
    ensures BucketsOf(a + [s] + b, want) == BucketsOf(a + b, want)
  {
    assert !Agrees(s.labels, want);
    Alone(s, want);
    forall le
      ensures le in BucketsOf(a + [s] + b, want) <==> le in BucketsOf(a + b, want)
      ensures CountAt(BucketsOf(a + [s] + b, want), le) == CountAt(BucketsOf(a + b, want), le)
    {
      AloneAt(s, want, le);
      Joined(a, s, b, want, le);
      BucketsAre(a + [s] + b, want, le);
      BucketsAre(a + b, want, le);
    }
    Joined(a, s, b, want, le);
    SumsAgree(a + [s] + b, want);
    SumsAgree(a + b, want);
    hide Agrees, SumOf, SumOfEdge, SomeAgree, SomeEdge, MatchedSum, AnyMatches, BucketsOf;
    SameMaps(BucketsOf(a + [s] + b, want), BucketsOf(a + b, want));
  }

  lemma SameMaps(m: map<string, real>, m': map<string, real>)
    requires forall le :: (le in m <==> le in m') && CountAt(m, le) == CountAt(m', le)
    ensures m == m'
  {
    forall le | le in m
      ensures le in m' && m[le] == m'[le]
    {
      assert CountAt(m, le) == CountAt(m', le);
    }
  }

  lemma Alone(s: Sample<real>, want: Labels)
    ensures SumOf([s], want) == if Agrees(s.labels, want) then s.value else 0.0
    ensures SomeAgree([s], want) <==> Agrees(s.labels, want)
  {
    hide Agrees;
    assert [s][..0] == [];
    assert [s][0] == s;
  }

  lemma AloneAt(s: Sample<real>, want: Labels, le: string)
    ensures var here := Agrees(s.labels, want) && "le" in s.labels && s.labels["le"] == le;
            SumOfEdge([s], want, le) == (if here then s.value else 0.0) && (SomeEdge([s], want, le) <==> here)
  {
    hide Agrees;
    assert [s][..0] == [];
    assert [s][0] == s;
  }

  lemma Joined(a: seq<Sample<real>>, s: Sample<real>, b: seq<Sample<real>>, want: Labels, le: string)
    ensures SumOf(a + [s] + b, want) == SumOf(a + b, want) + SumOf([s], want)
    ensures SumOfEdge(a + [s] + b, want, le) == SumOfEdge(a + b, want, le) + SumOfEdge([s], want, le)
    ensures SomeAgree(a + [s] + b, want) <==> SomeAgree(a + b, want) || SomeAgree([s], want)
    ensures SomeEdge(a + [s] + b, want, le) <==> SomeEdge(a + b, want, le) || SomeEdge([s], want, le)
  {
    SumAppend(a + [s], b, want, le);
    SumAppend(a, [s], want, le);
    SumAppend(a, b, want, le);
    AgreeAppend(a + [s], b, want, le);
    AgreeAppend(a, [s], want, le);
    AgreeAppend(a, b, want, le);
    hide *;
  }

  /** A sample with every wanted label adds its value to the total, and to its edge. */
  lemma AgreeingAddsItsValue(a: seq<Sample<real>>, s: Sample<real>, b: seq<Sample<real>>, want: Labels, le: string)
    requires forall k :: k in want ==> if k in s.labels then s.labels[k] == want[k] else want[k] == ""
    ensures AnyMatches(a + [s] + b, want)
    ensures MatchedSum(a + [s] + b, want) == MatchedSum(a + b, want) + s.value
    ensures CountAt(BucketsOf(a + [s] + b, want), le)
         == CountAt(BucketsOf(a + b, want), le) + if "le" in s.labels && s.labels["le"] == le then s.value else 0.0
  {
    assert Agrees(s.labels, want);
    Alone(s, want);
    AloneAt(s, want, le);
    Joined(a, s, b, want, le);
    SumsAgree(a + [s] + b, want);
    SumsAgree(a + b, want);
    BucketsAre(a + [s] + b, want, le);
    BucketsAre(a + b, want, le);
    hide *;
  }
}
