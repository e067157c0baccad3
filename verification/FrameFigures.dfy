/** What each point of a frame is, of the rows that arrived in its second (loadgen/stream.go). */
module FrameFigures {
  import opened Instants
  import opened Options
  import opened Stream
  import opened TimeSeries
  import LS = LeastSquares

  /** The values of one metric in one second, as they arrived. */
  function ValuesIn(rows: seq<Row>, sec: int, name: string): seq<real> {
    if rows == [] then []
    else
      var n := |rows| - 1;
      ValuesIn(rows[..n], sec, name) + if rows[n].ts == sec && rows[n].name == name then [rows[n].v] else []
  }

  lemma {:induction false} WeightsAre(rows: seq<Row>, sec: int, name: string)
    ensures Weigh(rows, Amount(sec, name)) == LS.Sum(ValuesIn(rows, sec, name))
    ensures Weigh(rows, Ones(sec, name)) == |ValuesIn(rows, sec, name)| as real
  {
    if rows != [] {
      var n := |rows| - 1;
      WeightsAre(rows[..n], sec, name);
      var before := ValuesIn(rows[..n], sec, name);
      assert before + [] == before;
      SumOneMore(before, rows[n].v);
    }
  }

  lemma SumOneMore(vs: seq<real>, v: real)
    ensures LS.Sum(vs + [v]) == LS.Sum(vs) + v
  {
    assert (vs + [v])[..|vs|] == vs;
  }

  /** The largest of the values, or 0 if all are below. */
  predicate IsLargest(x: real, vs: seq<real>) {
    x >= 0.0 && (forall v :: v in vs ==> v <= x) && (x == 0.0 || x in vs)
  }

  lemma {:induction false} PeakIs(rows: seq<Row>, sec: int, name: string)
    ensures IsLargest(Peak(rows, sec, name), ValuesIn(rows, sec, name))
  {
    if rows != [] {
      var n := |rows| - 1;
      PeakIs(rows[..n], sec, name);
      var before := ValuesIn(rows[..n], sec, name);
      assert before + [] == before;
    }
  }

  /** Whether a second has a point of the field, given that some row arrived in it. */
  predicate Due(rows: seq<Row>, sec: int, f: Field) {
    match f
    case Rps => true
    case Iterations => true
    case Dropped => true
    case Failed => true
    case LatencyMean => ValuesIn(rows, sec, "http_req_duration") != []
    case LatencyMax => ValuesIn(rows, sec, "http_req_duration") != []
    case WaitingMean => ValuesIn(rows, sec, "http_req_waiting") != []
    case VUs => exists v :: v in ValuesIn(rows, sec, "vus") && v > 0.0
  }

  /** What the point's value is: a total, a mean, or a largest value of its metric. */
  predicate IsValue(v: real, rows: seq<Row>, sec: int, f: Field) {
    match f
    case Rps => v == LS.Sum(ValuesIn(rows, sec, "http_reqs"))
    case Iterations => v == LS.Sum(ValuesIn(rows, sec, "iterations"))
    case Dropped => v == LS.Sum(ValuesIn(rows, sec, "dropped_iterations"))
    case Failed => v == LS.Sum(ValuesIn(rows, sec, "http_req_failed"))
    case LatencyMean => IsMean(v, ValuesIn(rows, sec, "http_req_duration"))
    case LatencyMax => IsLargest(v, ValuesIn(rows, sec, "http_req_duration"))
    case WaitingMean => IsMean(v, ValuesIn(rows, sec, "http_req_waiting"))
    case VUs => IsLargest(v, ValuesIn(rows, sec, "vus"))
  }

  predicate IsMean(v: real, vs: seq<real>) {
    v * |vs| as real == LS.Sum(vs)
  }

  lemma MeanTimesCount(sum: real, n: real)
    requires n > 0.0
    ensures sum / n * n == sum
  {
    var q := sum / n;
    assert q * n == sum;
  }

  lemma LargestPositive(x: real, vs: seq<real>)
    requires IsLargest(x, vs)
    ensures x > 0.0 <==> exists v :: v in vs && v > 0.0
  {
  }

  lemma EntryIs(rows: seq<Row>, sec: int, f: Field)
    ensures Entry(BucketOf(rows, sec), f).Some? <==> Due(rows, sec, f)
    ensures Due(rows, sec, f) ==> IsValue(Entry(BucketOf(rows, sec), f).value, rows, sec, f)
  {
    match f {
      case Rps => WeightsAre(rows, sec, "http_reqs");
      case Iterations => WeightsAre(rows, sec, "iterations");
      case Dropped => WeightsAre(rows, sec, "dropped_iterations");
      case Failed => WeightsAre(rows, sec, "http_req_failed");
      case LatencyMean =>
        WeightsAre(rows, sec, "http_req_duration");
        MeanEntry(LS.Sum(ValuesIn(rows, sec, "http_req_duration")), ValuesIn(rows, sec, "http_req_duration"));
      case LatencyMax =>
        WeightsAre(rows, sec, "http_req_duration");
        PeakIs(rows, sec, "http_req_duration");
      case WaitingMean =>
        WeightsAre(rows, sec, "http_req_waiting");
        MeanEntry(LS.Sum(ValuesIn(rows, sec, "http_req_waiting")), ValuesIn(rows, sec, "http_req_waiting"));
      case VUs =>
        PeakIs(rows, sec, "vus");
        LargestPositive(Peak(rows, sec, "vus"), ValuesIn(rows, sec, "vus"));
    }
    hide Weigh, Peak, ValuesIn, LS.Sum, IsLargest;
  }

  lemma MeanEntry(sum: real, vs: seq<real>)
    requires sum == LS.Sum(vs)
    ensures vs != [] ==> IsMean(sum / |vs| as real, vs)
  {
    hide LS.Sum;
    if vs != [] {
      MeanTimesCount(sum, |vs| as real);
    }
  }

  predicate HasPointAt(s: Series, sec: int) {
    exists i :: 0 <= i < |s| && s[i].at == sec * 1_000_000_000
  }

  ghost predicate IsPoint(p: Point, rows: seq<Row>, secs: seq<int>, f: Field) {
    exists sec :: sec in secs && p.at == sec * 1_000_000_000 && Due(rows, sec, f) && IsValue(p.v, rows, sec, f)
  }

  ghost predicate Covers(s: Series, rows: seq<Row>, secs: seq<int>, f: Field) {
    && (forall i :: 0 <= i < |s| ==> IsPoint(s[i], rows, secs, f))
    && (forall sec :: sec in secs && Due(rows, sec, f) ==> HasPointAt(s, sec))
  }

  lemma {:induction false} SeriesIs(rows: seq<Row>, secs: seq<int>, f: Field)
    ensures Covers(SeriesFor(rows, secs, f), rows, secs, f)
  {
    hide Due, IsValue, Entry, BucketOf, IsPoint, HasPointAt;
    if secs != [] {
      var n := |secs| - 1;
      SeriesIs(rows, secs[..n], f);
      EntryIs(rows, secs[n], f);
      OneMoreSecond(SeriesFor(rows, secs[..n], f), rows, secs, f, Entry(BucketOf(rows, secs[n]), f));
    }
  }

  lemma OneMoreSecond(before: Series, rows: seq<Row>, secs: seq<int>, f: Field, entry: Option<real>)
    requires secs != [] && Covers(before, rows, secs[..|secs| - 1], f)
    requires entry.Some? <==> Due(rows, secs[|secs| - 1], f)
    requires entry.Some? ==> IsValue(entry.value, rows, secs[|secs| - 1], f)
    ensures Covers(Appended(before, secs[|secs| - 1], entry), rows, secs, f)
  {
    hide Due, IsValue, IsPoint, HasPointAt;
    var front, last := secs[..|secs| - 1], secs[|secs| - 1];
    assert secs == front + [last];
    var s := Appended(before, last, entry);
    forall i | 0 <= i < |s|
      ensures IsPoint(s[i], rows, secs, f)
    {
      if i < |before| {
        PointStays(before[i], rows, front, last, f);
      } else {
        LastPoint(s[i], rows, front, last, f);
      }
    }
    forall sec | sec in secs && Due(rows, sec, f)
      ensures HasPointAt(s, sec)
    {
      HasPointStays(before, last, entry, sec);
    }
  }

  lemma PointStays(p: Point, rows: seq<Row>, front: seq<int>, last: int, f: Field)
    requires IsPoint(p, rows, front, f)
    ensures IsPoint(p, rows, front + [last], f)
  {
    hide Due, IsValue;
    var sec :| sec in front && p.at == sec * 1_000_000_000 && Due(rows, sec, f) && IsValue(p.v, rows, sec, f);
    assert sec in front + [last];
  }

  lemma LastPoint(p: Point, rows: seq<Row>, front: seq<int>, last: int, f: Field)
    requires p.at == last * 1_000_000_000 && Due(rows, last, f) && IsValue(p.v, rows, last, f)
    ensures IsPoint(p, rows, front + [last], f)
  {
    hide Due, IsValue;
    assert last in front + [last];
  }

  lemma HasPointStays(before: Series, last: int, entry: Option<real>, sec: int)
    ensures HasPointAt(before, sec) || (sec == last && entry.Some?) ==> HasPointAt(Appended(before, last, entry), sec)
  {
    var s := Appended(before, last, entry);
    if HasPointAt(before, sec) {
      var i :| 0 <= i < |before| && before[i].at == sec * 1_000_000_000;
      assert s[i] == before[i];
    } else if sec == last && entry.Some? {
      assert s[|s| - 1].at == sec * 1_000_000_000;
    }
  }

  /** A row arrived in the second. */
  predicate Ran(rows: seq<Row>, sec: int) {
    exists i :: 0 <= i < |rows| && rows[i].ts == sec
  }

  /** The point of some second in which rows arrived. */
  ghost predicate IsPointOf(p: Point, rows: seq<Row>, f: Field) {
    exists sec :: Ran(rows, sec) && p.at == sec * 1_000_000_000 && Due(rows, sec, f) && IsValue(p.v, rows, sec, f)
  }

  /**
   A frame, of the rows alone: each second in which a row arrived has a point of every field it is due
   one for, at that second, holding the total, the mean or the largest of its metric's values there; a
   field has no other point, and one without any is not in the frame.
   */
  lemma FrameIs(rows: seq<Row>, f: Field)
    ensures var s := if f in FrameOf(rows) then FrameOf(rows)[f] else [];
            && (f in FrameOf(rows) <==> s != []) && StrictlySorted(s)
            && (forall i :: 0 <= i < |s| ==> IsPointOf(s[i], rows, f))
            && (forall sec :: Ran(rows, sec) && Due(rows, sec, f) ==> HasPointAt(s, sec))
  {
    var secs := Ascending(SecondsOf(rows));
    AscendingIsSorted(SecondsOf(rows));
    SeriesIs(rows, secs, f);
    SeriesRise(rows, secs, f);
    SecondsAre(rows);
    FrameHolds(rows, f);
    var s := SeriesFor(rows, secs, f);
    assert Covers(s, rows, secs, f);
    hide Due, IsValue, SeriesFor, SecondsOf, Ascending, StrictlySorted, FrameOf, IsPoint, HasPointAt, Ran, IsPointOf;
    forall i | 0 <= i < |s|
      ensures IsPointOf(s[i], rows, f)
    {
      PointOfSecond(s[i], rows, secs, f);
    }
  }

  lemma FrameHolds(rows: seq<Row>, f: Field)
    ensures var s := SeriesFor(rows, Ascending(SecondsOf(rows)), f);
            (f in FrameOf(rows) <==> s != []) && (f in FrameOf(rows) ==> FrameOf(rows)[f] == s)
  {
    hide SeriesFor, Ascending, SecondsOf;
  }

  lemma PointOfSecond(p: Point, rows: seq<Row>, secs: seq<int>, f: Field)
    requires IsPoint(p, rows, secs, f) && forall sec :: sec in secs ==> Ran(rows, sec)
    ensures IsPointOf(p, rows, f)
  {
    hide Due, IsValue, Ran;
  }

  lemma SecondsAre(rows: seq<Row>)
    ensures forall sec :: sec in SecondsOf(rows) <==> Ran(rows, sec)
  {
  }

  // ---------- rows ----------

  lemma {:induction false} CutBefore(a: string, b: string)
    requires ',' !in a
    ensures Cut(a + [','] + b) == (a, b, true) && Cut(a) == (a, "", false)
  {
    if a == "" {
      assert a + [','] + b == [','] + b;
    } else {
      assert forall c :: c in a[1..] ==> c in a;
      CutBefore(a[1..], b);
      assert (a + [','] + b)[1..] == a[1..] + [','] + b;
      assert a == [a[0]] + a[1..];
    }
  }

  /** A line of three columns or more is a row of its first three, if the second and third are numbers. */
  lemma RowIs(name: string, ts: string, v: string, more: string, num: Numbers)
    requires ',' !in name && ',' !in ts && ',' !in v
    ensures var row := match (num.asInt(ts), num.asFloat(v)) case (Some(t), Some(x)) => Some(Row(name, t, x)) case _ => None;
            && Decode(name + [','] + (ts + [','] + v), num) == row
            && Decode(name + [','] + (ts + [','] + (v + [','] + more)), num) == row
  {
    CutBefore(name, ts + [','] + v);
    CutBefore(ts, v);
    CutBefore(v, more);
    CutBefore(name, ts + [','] + (v + [','] + more));
    CutBefore(ts, v + [','] + more);
    hide Cut;
  }

  /** A line of fewer columns is none. */
  lemma NoRowIs(name: string, ts: string, num: Numbers)
    requires ',' !in name && ',' !in ts
    ensures Decode(name, num) == None && Decode(name + [','] + ts, num) == None
  {
    CutBefore(name, ts);
    CutBefore(ts, "");
    hide Cut;
  }

  // ---------- the pool ----------

  /** The values of one metric over the whole stream. */
  function ValuesOf(rows: seq<Row>, name: string): seq<real> {
    if rows == [] then []
    else
      var n := |rows| - 1;
      ValuesOf(rows[..n], name) + if rows[n].name == name then [rows[n].v] else []
  }

  lemma {:induction false} OverallIs(rows: seq<Row>, name: string)
    ensures IsLargest(OverallPeak(rows, name), ValuesOf(rows, name))
  {
    if rows != [] {
      OverallIs(rows[..|rows| - 1], name);
    }
  }

  /** The pool size reported is the whole number nearest to the largest seen, a half going up. */
  lemma PoolIs(rows: seq<Row>)
    ensures exists largest :: IsLargest(largest, ValuesOf(rows, "vus"))
              && var n := Rounded(OverallPeak(rows, "vus")) as real; n - 0.5 <= largest < n + 0.5
  {
    OverallIs(rows, "vus");
    hide IsLargest, ValuesOf, OverallPeak;
  }
}
