/**
 A window measured from scraped text (collect/collect.go): the bracketing pair of scrapes is chosen,
 both texts are parsed, and their histograms are differenced.
 */
module Measured {
  import opened Bracketing
  import opened Exposition
  import opened Histograms
  import opened History
  import opened Options
  import opened PromText

  /** The histogram between two scraped texts, if both can be read. */
  function Between(start: string, end: string, name: string, want: Labels, number: Parser): Option<Histogram> {
    match (Exposed(start, number), Exposed(end, number))
    case (Some(a), Some(b)) => Windowed(a, b, name, want)
    case _ => None
  }

  method MeasureWindow(s: seq<Scrape<string>>, from: int, to: int, name: string, want: Labels, number: Parser)
    returns (r: Outcome, w: Option<Histogram>)
    ensures |s| >= 2 && (exists i :: 0 <= i < |s| && s[i].at <= from) && (exists j :: 0 <= j < |s| && s[j].at >= to)
       ==> r.Bracket? || r.NothingBetween?
    ensures r.Bracket? ==> r.start < r.end < |s| && IsLastBefore(s, from, r.start) && IsFirstAfter(s, to, r.end)
    ensures w == if r.Bracket? then Between(s[r.start].body, s[r.end].body, name, want, number) else None
  {
    hide Windowed, Exposed;
    r := FindBracket(s, from, to);
    w := None;
    if r.Bracket? {
      var start := Parse(s[r.start].body, number);
      if start == None { return; }
      var end := Parse(s[r.end].body, number);
      if end == None { return; }
      w := HistogramWindow(start.value, end.value, name, want);
    }
  }

  // ---------- what a scraped text says about a history ----------

  /** An exposition that holds a history's three metrics of one name, among whatever else it holds. */
  ghost predicate Carries(e: Exposition, x: Exposition, name: string) {
    && SamplesOf(e, name + "_bucket") == SamplesOf(x, name + "_bucket")
    && SamplesOf(e, name + "_sum") == SamplesOf(x, name + "_sum")
    && SamplesOf(e, name + "_count") == SamplesOf(x, name + "_count")
  }

  ghost predicate Prints(body: string, es: seq<Entry>, number: Parser) {
    body == PrintAll(es) && AllFit(es) && forall i :: 0 <= i < |es| ==> WellFormed(es[i], number)
  }

  /** The text is a printed scrape of the history as it stood at instant t. */
  ghost predicate Publishes(
    body: string, h: History, t: int, name: string, groups: seq<Labels>, les: seq<string>, parse: Parser, number: Parser)
    requires Readable(les, parse)
  {
    exists es :: Prints(body, es, number) && Carries(Expected(es, number), ScrapeAt(h, t, name, groups, les, parse), name)
  }

  lemma PublishedIsCarried(
    body: string, h: History, t: int, name: string, groups: seq<Labels>, les: seq<string>, parse: Parser, number: Parser)
    requires Readable(les, parse) && Publishes(body, h, t, name, groups, les, parse, number)
    ensures Exposed(body, number).Some?
    ensures Carries(Exposed(body, number).value, ScrapeAt(h, t, name, groups, les, parse), name)
  {
    hide ScrapeAt, Carries, Expected, WellFormed, AllFit, PrintAll, Exposed;
    var es :| Prints(body, es, number) && Carries(Expected(es, number), ScrapeAt(h, t, name, groups, les, parse), name);
    ScrapeRoundTrip(es, number);
  }

  /** Only the three metrics of its name enter a windowed histogram. */
  lemma WindowReadsItsMetrics(e0: Exposition, x0: Exposition, e1: Exposition, x1: Exposition, name: string, want: Labels)
    requires Carries(e0, x0, name) && Carries(e1, x1, name)
    ensures Windowed(e0, e1, name, want) == Windowed(x0, x1, name, want)
  {
    hide SamplesOf, BucketsOf, MatchedSum, AnyMatches;
  }

  // ---------- what a window's bounds let in ----------

  ghost predicate CountsAllOf(h: History, t0: int, t1: int, from: int, to: int, want: Labels) {
    multiset(WindowValues(h, from, to, want)) <= multiset(WindowValues(h, t0, t1, want))
  }

  lemma {:induction false} WiderCountsMore(h: History, t0: int, t1: int, from: int, to: int, want: Labels)
    requires t0 <= from && to <= t1
    ensures CountsAllOf(h, t0, t1, from, to, want)
  {
    hide Agrees;
    if h != [] {
      WiderCountsMore(h[..|h| - 1], t0, t1, from, to, want);
    }
  }

  /** The history of a single observation. */
  function Once(at: int): History { [Observation(at, map[], 0.0)] }

  lemma OnceCounted(at: int, t0: int, t1: int)
    ensures WindowValues(Once(at), t0, t1, map[]) == if t0 < at <= t1 then [0.0] else []
  {
    assert Once(at)[..0] == [];
  }

  /**
   Differencing from t0 to t1 counts every observation of the window, whatever the history, if and only
   if the window is empty or lies inside.
   */
  lemma CountsAllIff(t0: int, t1: int, from: int, to: int)
    ensures (forall h, want :: CountsAllOf(h, t0, t1, from, to, want)) <==> to <= from || (t0 <= from && to <= t1)
  {
    if to <= from {
      forall h, want
        ensures CountsAllOf(h, t0, t1, from, to, want)
      {
        EmptyWindow(h, from, to, want);
      }
    } else if t0 <= from && to <= t1 {
      forall h, want
        ensures CountsAllOf(h, t0, t1, from, to, want)
      {
        WiderCountsMore(h, t0, t1, from, to, want);
      }
    } else {
      var at := if t1 < to then to else from + 1;
      OnceCounted(at, from, to);
      OnceCounted(at, t0, t1);
      assert !CountsAllOf(Once(at), t0, t1, from, to, map[]) by {
        hide WindowValues, Once;
        assert 0.0 in multiset([0.0]);
      }
    }
  }

  lemma {:induction false} EmptyWindow(h: History, from: int, to: int, want: Labels)
    requires to <= from
    ensures WindowValues(h, from, to, want) == []
  {
    hide Agrees;
    if h != [] {
      EmptyWindow(h[..|h| - 1], from, to, want);
    }
  }

  // ---------- the whole measurement ----------

  /**
   When each scrape's counters were read: after the scrape before it was stamped, and before it was
   stamped itself, since the stamp is taken once the text has arrived.
   */
  predicate ReadAt(s: seq<Scrape<string>>, read: seq<int>) {
    && |read| == |s|
    && (forall i :: 0 <= i < |s| ==> read[i] <= s[i].at)
    && (forall i, j :: 0 <= i < j < |s| ==> s[i].at <= read[j])
  }

  lemma ReadInOrder(s: seq<Scrape<string>>, read: seq<int>)
    requires ReadAt(s, read)
    ensures Sorted(s)
  {
    forall i, j | 0 <= i < j < |s|
      ensures s[i].at <= s[j].at
    {
      assert s[i].at <= read[j] <= s[j].at;
    }
  }

  /**
   From texts to a sound quantile.  The bracket of a window exists and is the narrowest; what the two
   texts yield between them counts exactly the observations made between the two readings, and any
   quantile keeps its promise about them.  Those include the window's own observations, whatever the
   history, if and only if the closing counters were read no earlier than the window's end: the scrape
   is chosen by its stamp, which comes later.
   */
  lemma MeasuredWindowIsSound(
    s: seq<Scrape<string>>, read: seq<int>, from: int, to: int, a: int, b: int,
    h: History, name: string, g0: seq<Labels>, g1: seq<Labels>, les: seq<string>, parse: Parser, number: Parser, want: Labels,
    edges: seq<Edge>, q: real)
    requires ReadAt(s, read) && from < to
    requires a >= 0 && b >= 0 && IsLastBefore(s, from, a) && IsFirstAfter(s, to, b)
    requires Exposes(g0, h, read[a]) && Exposes(g1, h, read[b]) && ReadableEdges(les, parse) && Readable(les, parse)
    requires Publishes(s[a].body, h, read[a], name, g0, les, parse, number)
    requires Publishes(s[b].body, h, read[b], name, g1, les, parse, number)
    requires "le" !in want && AnyGroup(g1, want) && 0.0 < q <= 1.0
    requires var w := Between(s[a].body, s[b].body, name, want, number);
             w.Some? ==> SortedEdges(edges) && ListsEdges(w.value, parse, edges)
    ensures a < b && s[a].at <= from && to <= s[b].at
    ensures forall i, j :: 0 <= i < |s| && 0 <= j < |s| && s[i].at <= from && to <= s[j].at ==> i <= a && b <= j
    ensures var w := Between(s[a].body, s[b].body, name, want, number);
            var vs := WindowValues(h, read[a], read[b], want);
            && w.Some?
            && (Observations(w.value) == if vs == [] then None else Some(|vs| as real))
            && (vs != [] ==> Promises(Scan(edges, |vs| as real, q), edges, OrderStatistic(vs, q)))
    ensures (forall h', want' :: CountsAllOf(h', read[a], read[b], from, to, want')) <==> to <= read[b]
  {
    hide Between, Exposes, Publishes, AnyGroup, ReadableEdges, Readable, SortedEdges, ListsEdges, WindowValues, OrderStatistic;
    hide Promises, Scan, CountsAllOf, Observations;
    ReadInOrder(s, read);
    forall i, j | 0 <= i < |s| && 0 <= j < |s| && s[i].at <= from && to <= s[j].at
      ensures a < b && i <= a && b <= j
    {
      BracketIsNarrowest(s, from, to, a, b, i, j);
    }
    TextsAreDifferenced(s[a].body, s[b].body, h, read[a], read[b], name, g0, g1, les, parse, number, want);
    WindowQuantileIsSound(h, read[a], read[b], name, g0, g1, les, parse, want, edges, q);
    CountsAllIff(read[a], read[b], from, to);
  }

  lemma TextsAreDifferenced(
    start: string, end: string, h: History, t0: int, t1: int, name: string, g0: seq<Labels>, g1: seq<Labels>, les: seq<string>,
    parse: Parser, number: Parser, want: Labels)
    requires Readable(les, parse)
    requires Publishes(start, h, t0, name, g0, les, parse, number) && Publishes(end, h, t1, name, g1, les, parse, number)
    ensures Between(start, end, name, want, number) == Differenced(h, t0, t1, name, g0, g1, les, parse, want)
  {
    hide Publishes, Readable, ScrapeAt, Carries, Windowed, Exposed;
    PublishedIsCarried(start, h, t0, name, g0, les, parse, number);
    PublishedIsCarried(end, h, t1, name, g1, les, parse, number);
    WindowReadsItsMetrics(Exposed(start, number).value, ScrapeAt(h, t0, name, g0, les, parse),
                          Exposed(end, number).value, ScrapeAt(h, t1, name, g1, les, parse), name, want);
  }
}
