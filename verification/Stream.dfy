/** The seconds a stream touched, in order. */
module Instants {
  predicate IsLeast(m: int, s: set<int>) {
    m in s && forall x :: x in s ==> m <= x
  }

  lemma SomeMember(s: set<int>)
    ensures s == {} || exists x :: x in s
  {
    if forall x :: x !in s {
      assert s == {};
    }
  }

  lemma {:induction false} LeastExists(s: set<int>)
    requires s != {}
    ensures exists m :: IsLeast(m, s)
    decreases |s|
  {
    SomeMember(s);
    var m: int :| m in s;
    var rest := s - {m};
    assert s == rest + {m};
    if rest == {} {
      assert IsLeast(m, s);
    } else {
      LeastExists(rest);
      var m' :| IsLeast(m', rest);
      assert IsLeast(if m' < m then m' else m, s);
    }
  }

  ghost function Least(s: set<int>): (m: int)
    requires s != {}
    ensures IsLeast(m, s)
  {
    LeastExists(s);
    var m :| IsLeast(m, s);
    m
  }

  ghost function Ascending(s: set<int>): (secs: seq<int>)
    decreases |s|
  {
    if s == {} then [] else [Least(s)] + Ascending(s - {Least(s)})
  }

  predicate StrictlyRising(secs: seq<int>) {
    forall i, j :: 0 <= i < j < |secs| ==> secs[i] < secs[j]
  }

  lemma RisesFrom(m: int, rest: seq<int>)
    requires StrictlyRising(rest) && forall x :: x in rest ==> m < x
    ensures StrictlyRising([m] + rest)
  {
    var all := [m] + rest;
    forall i, j | 0 <= i < j < |all|
      ensures all[i] < all[j]
    {
      assert all[j] == rest[j - 1] && rest[j - 1] in rest;
      assert all[i] == if i == 0 then m else rest[i - 1];
    }
  }

  lemma {:induction false} AscendingIsSorted(s: set<int>)
    ensures StrictlyRising(Ascending(s)) && forall x :: x in Ascending(s) <==> x in s
    decreases |s|
  {
    if s != {} {
      var m := Least(s);
      var rest := Ascending(s - {m});
      AscendingIsSorted(s - {m});
      hide Ascending, StrictlyRising;
      RisesFrom(m, rest);
      assert forall x :: x in s <==> x == m || x in s - {m};
      assert forall x :: x in [m] + rest <==> x == m || x in rest;
    }
  }

  method SortSeconds(s: set<int>) returns (secs: seq<int>)
    ensures secs == Ascending(s)
  {
    secs := [];
    var rest := s;
    while rest != {}
      invariant secs + Ascending(rest) == Ascending(s)
      decreases |rest|
    {
      LeastExists(rest);
      var m :| m in rest && IsLeast(m, rest);
      assert m == Least(rest);
      assert secs + Ascending(rest) == (secs + [m]) + Ascending(rest - {m});
      secs := secs + [m];
      rest := rest - {m};
    }
  }
}

/**
 Folding the load generator's CSV into one-second series as it arrives (loadgen/stream.go).  Turning a
 column into a number is the library's business and a parameter here.
 */
module Stream {
  import opened Instants
  import opened Options
  import opened Scanning
  import opened TimeSeries
  import LS = LeastSquares

  /** strconv.ParseInt and strconv.ParseFloat. */
  datatype Numbers = Numbers(asInt: string -> Option<int>, asFloat: string -> Option<real>)

  datatype Row = Row(name: string, ts: int, v: real)

  datatype Bucket = Bucket(
    requests: real, failed: real, dropped: real, durationSum: real, durationN: real, durationMax: real,
    waitingSum: real, waitingN: real, vusMax: real, iterations: real)

  const EMPTY := Bucket(0.0, 0.0, 0.0, 0.0, 0.0, 0.0, 0.0, 0.0, 0.0, 0.0)

  // ---------- rows ----------

  /** strings.Cut at a comma: what is before, what is after, and whether there was one. */
  function Cut(s: string): (string, string, bool) {
    if s == "" then ("", "", false)
    else if s[0] == ',' then ("", s[1..], true)
    else var (before, after, found) := Cut(s[1..]); ([s[0]] + before, after, found)
  }

  /** The row on a line: name, second and value, whatever columns follow. */
  function Decode(line: string, num: Numbers): Option<Row> {
    var (name, rest, ok) := Cut(line);
    if !ok then None
    else
      var (tsText, rest', ok') := Cut(rest);
      if !ok' then None
      else
        var (valText, _, _) := Cut(rest');
        match (num.asInt(tsText), num.asFloat(valText))
        case (Some(ts), Some(v)) => Some(Row(name, ts, v))
        case _ => None
  }

  /** The rows of a stream of lines, in order. */
  function Rows(lines: seq<string>, num: Numbers): seq<Row> {
    if lines == [] then []
    else
      var before, last := Rows(lines[..|lines| - 1], num), lines[|lines| - 1];
      if last == "" then before
      else match Decode(last, num) case Some(r) => before + [r] case None => before
  }

  function NonBlank(lines: seq<string>): nat {
    if lines == [] then 0 else NonBlank(lines[..|lines| - 1]) + if lines[|lines| - 1] == "" then 0 else 1
  }

  lemma {:induction false} RowsTogether(a: seq<string>, b: seq<string>, num: Numbers)
    ensures Rows(a + b, num) == Rows(a, num) + Rows(b, num) && NonBlank(a + b) == NonBlank(a) + NonBlank(b)
  {
    hide Decode;
    if b == [] {
      assert a + b == a;
    } else {
      RowsTogether(a, b[..|b| - 1], num);
      assert (a + b)[..|a + b| - 1] == a + b[..|b| - 1];
    }
  }

  /** Cutting the stream after any newline changes nothing: not the rows, not their count, not whether it fails. */
  lemma CutStream(a: string, b: string, num: Numbers)
    ensures var whole, front, back := ScanLines(a + ['\n'] + b), ScanLines(a + ['\n']), ScanLines(b);
            && whole.tooLong == (front.tooLong || back.tooLong)
            && (!front.tooLong ==>
                  && Rows(whole.lines, num) == Rows(front.lines, num) + Rows(back.lines, num)
                  && NonBlank(whole.lines) == NonBlank(front.lines) + NonBlank(back.lines))
            && (front.tooLong ==> whole == front)
  {
    hide Rows, NonBlank, ScanLines;
    CutAfterNewline(a, b);
    RowsTogether(ScanLines(a + ['\n']).lines, ScanLines(b).lines, num);
  }

  // ---------- what a second is worth ----------

  /** The total weight of the rows. */
  function Weigh(rows: seq<Row>, w: Row -> real): real {
    if rows == [] then 0.0 else Weigh(rows[..|rows| - 1], w) + w(rows[|rows| - 1])
  }

  function Amount(ts: int, name: string): Row -> real {
    (r: Row) => if r.ts == ts && r.name == name then r.v else 0.0
  }

  function Ones(ts: int, name: string): Row -> real {
    (r: Row) => if r.ts == ts && r.name == name then 1.0 else 0.0
  }

  /** The amounts of one metric over the whole stream. */
  function AmountOverall(name: string): Row -> real {
    (r: Row) => if r.name == name then r.v else 0.0
  }

  predicate Within(r: Row, ts: int, name: string) { r.ts == ts && r.name == name }

  /** The largest value of a metric in a second, never below zero. */
  function Peak(rows: seq<Row>, ts: int, name: string): real {
    if rows == [] then 0.0
    else
      var before, last := Peak(rows[..|rows| - 1], ts, name), rows[|rows| - 1];
      if Within(last, ts, name) && last.v > before then last.v else before
  }

  /** Group by second: each field the sum, count or maximum over that second's rows of its metric. */
  function BucketOf(rows: seq<Row>, ts: int): Bucket {
    Bucket(
      Weigh(rows, Amount(ts, "http_reqs")),
      Weigh(rows, Amount(ts, "http_req_failed")),
      Weigh(rows, Amount(ts, "dropped_iterations")),
      Weigh(rows, Amount(ts, "http_req_duration")),
      Weigh(rows, Ones(ts, "http_req_duration")),
      Peak(rows, ts, "http_req_duration"),
      Weigh(rows, Amount(ts, "http_req_waiting")),
      Weigh(rows, Ones(ts, "http_req_waiting")),
      Peak(rows, ts, "vus"),
      Weigh(rows, Amount(ts, "iterations")))
  }

  function SecondsOf(rows: seq<Row>): set<int> {
    set i | 0 <= i < |rows| :: rows[i].ts
  }

  function Added(b: Bucket, name: string, v: real): Bucket {
    match name
    case "http_reqs" => b.(requests := b.requests + v)
    case "http_req_failed" => b.(failed := b.failed + v)
    case "dropped_iterations" => b.(dropped := b.dropped + v)
    case "iterations" => b.(iterations := b.iterations + v)
    case "http_req_duration" =>
      b.(durationSum := b.durationSum + v, durationN := b.durationN + 1.0,
         durationMax := if v > b.durationMax then v else b.durationMax)
    case "http_req_waiting" => b.(waitingSum := b.waitingSum + v, waitingN := b.waitingN + 1.0)
    case "vus" => b.(vusMax := if v > b.vusMax then v else b.vusMax)
    case _ => b
  }

  lemma OneMoreRow(rows: seq<Row>, r: Row)
    ensures forall w: Row -> real :: Weigh(rows + [r], w) == Weigh(rows, w) + w(r)
    ensures forall ts, name ::
      (Peak(rows + [r], ts, name) == if Within(r, ts, name) && r.v > Peak(rows, ts, name) then r.v else Peak(rows, ts, name))
    ensures SecondsOf(rows + [r]) == SecondsOf(rows) + {r.ts}
  {
    var more := rows + [r];
    assert more[..|more| - 1] == rows;
    assert forall i :: 0 <= i < |rows| ==> more[i] == rows[i];
    assert more[|rows|] == r;
    forall ts | ts in SecondsOf(more)
      ensures ts in SecondsOf(rows) + {r.ts}
    {
      var i :| 0 <= i < |more| && more[i].ts == ts;
    }
    forall ts | ts in SecondsOf(rows) + {r.ts}
      ensures ts in SecondsOf(more)
    {
      if ts in SecondsOf(rows) {
        var i :| 0 <= i < |rows| && rows[i].ts == ts;
        assert more[i].ts == ts;
      }
    }
  }

  lemma BucketGrows(rows: seq<Row>, r: Row, ts: int)
    ensures BucketOf(rows + [r], ts) == if ts == r.ts then Added(BucketOf(rows, ts), r.name, r.v) else BucketOf(rows, ts)
  {
    OneMoreRow(rows, r);
    hide Weigh, Peak;
  }

  lemma {:induction false} NothingThatSecond(rows: seq<Row>, ts: int)
    requires ts !in SecondsOf(rows)
    ensures BucketOf(rows, ts) == EMPTY
  {
    if rows != [] {
      var front, last := rows[..|rows| - 1], rows[|rows| - 1];
      assert rows == front + [last];
      OneMoreRow(front, last);
      NothingThatSecond(front, ts);
      BucketGrows(front, last, ts);
      hide BucketOf;
    }
  }

  // ---------- the aggregator ----------

  class Aggregator {
    var buckets: map<int, Bucket>
    var rows: nat
    var unparsed: nat
    ghost var seen: seq<Row>

    ghost predicate Valid()
      reads this
    {
      && rows == |seen| + unparsed
      && Groups(buckets, seen)
    }

    constructor ()
      ensures Valid() && seen == [] && rows == 0 && unparsed == 0
    {
      buckets, rows, unparsed, seen := map[], 0, 0, [];
    }

    method Add(name: string, ts: int, v: real)
      requires Groups(buckets, seen)
      modifies `buckets, `seen
      ensures seen == old(seen) + [Row(name, ts, v)] && Groups(buckets, seen)
    {
      hide BucketOf, SecondsOf;
      if ts !in buckets {
        NothingThatSecond(seen, ts);
      }
      OneMoreRow(seen, Row(name, ts, v));
      forall t
        ensures BucketOf(seen + [Row(name, ts, v)], t) == if t == ts then Added(BucketOf(seen, t), name, v) else BucketOf(seen, t)
      {
        BucketGrows(seen, Row(name, ts, v), t);
      }
      var b := if ts in buckets then buckets[ts] else EMPTY;
      buckets := buckets[ts := Added(b, name, v)];
      seen := seen + [Row(name, ts, v)];
    }

    /** Reads to the end of a text, or to the first line that is too long; call it again and the stream goes on. */
    method Consume(text: string, num: Numbers) returns (failed: bool)
      requires Valid()
      modifies this
      ensures Valid()
      ensures failed == ScanLines(text).tooLong
      ensures seen == old(seen) + Rows(ScanLines(text).lines, num)
      ensures rows == old(rows) + NonBlank(ScanLines(text).lines)
    {
      hide Groups, Cut, ScanLines;
      var lines := ScanLines(text).lines;
      for i := 0 to |lines|
        invariant Valid()
        invariant seen == old(seen) + Rows(lines[..i], num)
        invariant rows == old(rows) + NonBlank(lines[..i])
      {
        assert lines[..i + 1][..i] == lines[..i];
        var line := lines[i];
        if line == "" { continue; }
        rows := rows + 1;
        var (name, rest, ok) := Cut(line);
        if !ok {
          unparsed := unparsed + 1;
          continue;
        }
        var (tsText, rest', ok') := Cut(rest);
        if !ok' {
          unparsed := unparsed + 1;
          continue;
        }
        var (valText, _, _) := Cut(rest');
        var ts := num.asInt(tsText);
        if ts == None {
          unparsed := unparsed + 1;
          continue;
        }
        var v := num.asFloat(valText);
        if v == None {
          unparsed := unparsed + 1;
          continue;
        }
        Add(name, ts.value, v.value);
      }
      assert lines[..|lines|] == lines;
      failed := ScanLines(text).tooLong;
    }

    method BuildFrame() returns (f: map<Field, Series>)
      requires Valid()
      ensures f == FrameOf(seen)
    {
      hide Groups, BucketOf, SecondsOf, Ascending, SeriesFor;
      var secs := SortSeconds(buckets.Keys);
      AscendingIsSorted(buckets.Keys);
      GroupsKeys(buckets, seen);
      var rps, iterations, dropped, failed := [], [], [], [];
      var latMean, latMax, waitMean, vus := [], [], [], [];
      NoSeries(seen);
      assert secs[..0] == [];
      for k := 0 to |secs|
        invariant rps == SeriesFor(seen, secs[..k], Rps) && iterations == SeriesFor(seen, secs[..k], Iterations)
        invariant dropped == SeriesFor(seen, secs[..k], Dropped) && failed == SeriesFor(seen, secs[..k], Failed)
        invariant latMean == SeriesFor(seen, secs[..k], LatencyMean) && latMax == SeriesFor(seen, secs[..k], LatencyMax)
        invariant waitMean == SeriesFor(seen, secs[..k], WaitingMean) && vus == SeriesFor(seen, secs[..k], VUs)
      {
        assert secs[k] in secs;
        var at := secs[k] * SECOND;
        var b := buckets[secs[k]];
        SeriesStep(buckets, seen, secs, k, b, at);
        rps := rps + [Point(at, b.requests)];
        iterations := iterations + [Point(at, b.iterations)];
        dropped := dropped + [Point(at, b.dropped)];
        failed := failed + [Point(at, b.failed)];
        if b.durationN > 0.0 {
          latMean := latMean + [Point(at, b.durationSum / b.durationN)];
          latMax := latMax + [Point(at, b.durationMax)];
        }
        if b.waitingN > 0.0 {
          waitMean := waitMean + [Point(at, b.waitingSum / b.waitingN)];
        }
        if b.vusMax > 0.0 {
          vus := vus + [Point(at, b.vusMax)];
        }
      }
      assert secs[..|secs|] == secs;
      f := Assemble(seen, rps, iterations, latMean, latMax, waitMean, vus, dropped, failed);
    }

    method ObservedMaxVUs() returns (n: int)
      requires Valid()
      ensures n == Rounded(OverallPeak(seen, "vus"))
    {
      hide BucketOf, SecondsOf;
      var max := 0.0;
      var rest := buckets.Keys;
      while rest != {}
        invariant rest <= buckets.Keys && max >= 0.0
        invariant forall ts :: ts in buckets.Keys - rest ==> buckets[ts].vusMax <= max
        invariant max == 0.0 || exists ts :: ts in buckets.Keys - rest && buckets[ts].vusMax == max
        decreases |rest|
      {
        SomeMember(rest);
        var ts :| ts in rest;
        if buckets[ts].vusMax > max { max := buckets[ts].vusMax; }
        rest := rest - {ts};
      }
      MaxIsOverallPeak(buckets, seen, max);
      n := Rounded(max);
    }
  }

  ghost predicate Groups(buckets: map<int, Bucket>, seen: seq<Row>) {
    buckets.Keys == SecondsOf(seen) && forall ts :: ts in buckets ==> buckets[ts] == BucketOf(seen, ts)
  }

  // ---------- the frame ----------

  /** k6.rps, k6.iterations, k6.latency.mean, k6.latency.max, k6.waiting.mean, k6.vus, k6.dropped, k6.failed. */
  datatype Field = Rps | Iterations | LatencyMean | LatencyMax | WaitingMean | VUs | Dropped | Failed

  /** What a second contributes to a series; nothing when it has no observation to speak of. */
  function Entry(b: Bucket, f: Field): Option<real> {
    match f
    case Rps => Some(b.requests)
    case Iterations => Some(b.iterations)
    case Dropped => Some(b.dropped)
    case Failed => Some(b.failed)
    case LatencyMean => if b.durationN > 0.0 then Some(b.durationSum / b.durationN) else None
    case LatencyMax => if b.durationN > 0.0 then Some(b.durationMax) else None
    case WaitingMean => if b.waitingN > 0.0 then Some(b.waitingSum / b.waitingN) else None
    case VUs => if b.vusMax > 0.0 then Some(b.vusMax) else None
  }

  function SeriesFor(rows: seq<Row>, secs: seq<int>, f: Field): Series {
    if secs == [] then []
    else
      var sec := secs[|secs| - 1];
      Appended(SeriesFor(rows, secs[..|secs| - 1], f), sec, Entry(BucketOf(rows, sec), f))
  }

  function Appended(s: Series, sec: int, entry: Option<real>): Series {
    match entry
    case Some(v) => s + [Point(sec * SECOND, v)]
    case None => s
  }

  /** Every series that has a point. */
  ghost function FrameOf(rows: seq<Row>): map<Field, Series> {
    var secs := Ascending(SecondsOf(rows));
    map f: Field | SeriesFor(rows, secs, f) != [] :: SeriesFor(rows, secs, f)
  }

  lemma NoSeries(rows: seq<Row>)
    ensures forall f :: SeriesFor(rows, [], f) == []
  {
  }

  lemma GroupsKeys(buckets: map<int, Bucket>, seen: seq<Row>)
    requires Groups(buckets, seen)
    ensures buckets.Keys == SecondsOf(seen)
  {
  }

  /** What each series gains from one more second. */
  lemma SeriesStep(buckets: map<int, Bucket>, rows: seq<Row>, secs: seq<int>, k: nat, b: Bucket, at: int)
    requires Groups(buckets, rows) && k < |secs| && secs[k] in buckets && b == buckets[secs[k]] && at == secs[k] * SECOND
    ensures forall f :: SeriesFor(rows, secs[..k + 1], f) == Appended(SeriesFor(rows, secs[..k], f), secs[k], Entry(b, f))
  {
    hide BucketOf, Entry;
    assert secs[..k + 1][..k] == secs[..k];
  }

  /** Frame.Add, skipping a series with no point. */
  method Assemble(ghost rows: seq<Row>, rps: Series, iterations: Series, latMean: Series, latMax: Series,
                  waitMean: Series, vus: Series, dropped: Series, failed: Series)
    returns (f: map<Field, Series>)
    requires var secs := Ascending(SecondsOf(rows));
             && rps == SeriesFor(rows, secs, Rps) && iterations == SeriesFor(rows, secs, Iterations)
             && latMean == SeriesFor(rows, secs, LatencyMean) && latMax == SeriesFor(rows, secs, LatencyMax)
             && waitMean == SeriesFor(rows, secs, WaitingMean) && vus == SeriesFor(rows, secs, VUs)
             && dropped == SeriesFor(rows, secs, Dropped) && failed == SeriesFor(rows, secs, Failed)
    ensures f == FrameOf(rows)
  {
    hide SecondsOf, Ascending, SeriesFor, Agrees;
    ghost var secs := Ascending(SecondsOf(rows));
    f := map[];
    NothingAdded(rows, secs);
    ghost var done: set<Field> := {};
    f := AddSeries(f, Rps, rps, rows, secs, done);
    done := done + {Rps};
    f := AddSeries(f, Iterations, iterations, rows, secs, done);
    done := done + {Iterations};
    f := AddSeries(f, LatencyMean, latMean, rows, secs, done);
    done := done + {LatencyMean};
    f := AddSeries(f, LatencyMax, latMax, rows, secs, done);
    done := done + {LatencyMax};
    f := AddSeries(f, WaitingMean, waitMean, rows, secs, done);
    done := done + {WaitingMean};
    f := AddSeries(f, VUs, vus, rows, secs, done);
    done := done + {VUs};
    f := AddSeries(f, Dropped, dropped, rows, secs, done);
    done := done + {Dropped};
    f := AddSeries(f, Failed, failed, rows, secs, done);
    done := done + {Failed};
    EverythingAdded(f, rows, done);
  }

  /** f holds, of the fields done so far, exactly the series with a point. */
  ghost predicate Agrees(f: map<Field, Series>, rows: seq<Row>, secs: seq<int>, done: set<Field>) {
    && (forall x :: x in f <==> x in done && SeriesFor(rows, secs, x) != [])
    && (forall x :: x in f ==> f[x] == SeriesFor(rows, secs, x))
  }

  lemma NothingAdded(rows: seq<Row>, secs: seq<int>)
    ensures Agrees(map[], rows, secs, {})
  {
  }

  method AddSeries(f: map<Field, Series>, field: Field, s: Series, ghost rows: seq<Row>, ghost secs: seq<int>, ghost done: set<Field>)
    returns (g: map<Field, Series>)
    requires Agrees(f, rows, secs, done) && s == SeriesFor(rows, secs, field) && field !in done
    ensures Agrees(g, rows, secs, done + {field})
  {
    hide SeriesFor;
    g := if |s| > 0 then f[field := s] else f;
  }

  lemma EverythingAdded(f: map<Field, Series>, rows: seq<Row>, done: set<Field>)
    requires Agrees(f, rows, Ascending(SecondsOf(rows)), done)
    requires {Rps, Iterations, LatencyMean, LatencyMax, WaitingMean, VUs, Dropped, Failed} <= done
    ensures f == FrameOf(rows)
  {
    hide SeriesFor, SecondsOf, Ascending;
    forall x: Field
      ensures x in done
    {
      match x
      case Rps =>
      case Iterations =>
      case LatencyMean =>
      case LatencyMax =>
      case WaitingMean =>
      case VUs =>
      case Dropped =>
      case Failed =>
    }
  }

  lemma {:induction false} SeriesBelow(rows: seq<Row>, secs: seq<int>, f: Field, bound: int)
    requires forall k :: 0 <= k < |secs| ==> secs[k] < bound
    ensures forall i :: 0 <= i < |SeriesFor(rows, secs, f)| ==> SeriesFor(rows, secs, f)[i].at < bound * SECOND
  {
    hide BucketOf, Entry;
    if secs != [] {
      SeriesBelow(rows, secs[..|secs| - 1], f, bound);
    }
  }

  lemma {:induction false} SeriesRise(rows: seq<Row>, secs: seq<int>, f: Field)
    requires StrictlyRising(secs)
    ensures StrictlySorted(SeriesFor(rows, secs, f))
  {
    hide BucketOf, Entry;
    if secs != [] {
      SeriesRise(rows, secs[..|secs| - 1], f);
      SeriesBelow(rows, secs[..|secs| - 1], f, secs[|secs| - 1]);
    }
  }

  /** Every series of a frame has strictly increasing times and at least one point. */
  lemma FrameTimesIncrease(rows: seq<Row>, f: Field)
    requires f in FrameOf(rows)
    ensures FrameOf(rows)[f] != [] && StrictlySorted(FrameOf(rows)[f])
  {
    hide SeriesFor, SecondsOf, Ascending;
    AscendingIsSorted(SecondsOf(rows));
    SeriesRise(rows, Ascending(SecondsOf(rows)), f);
  }

  // ---------- order does not matter ----------

  lemma {:induction false} WeighTogether(a: seq<Row>, b: seq<Row>, w: Row -> real)
    ensures Weigh(a + b, w) == Weigh(a, w) + Weigh(b, w)
  {
    if b == [] {
      assert a + b == a;
    } else {
      WeighTogether(a, b[..|b| - 1], w);
      assert (a + b)[..|a + b| - 1] == a + b[..|b| - 1];
    }
  }

  lemma DropOne(a: seq<Row>, front: seq<Row>, x: Row, b: seq<Row>, left: seq<Row>, right: seq<Row>)
    requires multiset(a) == multiset(b) && a == front + [x] && b == left + [x] + right
    ensures multiset(front) == multiset(left + right)
  {
    assert multiset(a) == multiset(front) + multiset{x};
    assert multiset(b) == multiset(left) + multiset{x} + multiset(right);
    assert multiset(front) == multiset(a) - multiset{x};
    assert multiset(left + right) == multiset(b) - multiset{x};
  }

  lemma {:induction false} WeighAnyOrder(a: seq<Row>, b: seq<Row>, w: Row -> real)
    requires multiset(a) == multiset(b)
    ensures Weigh(a, w) == Weigh(b, w)
  {
    if a == [] {
      assert |multiset(b)| == 0;
    } else {
      var x, front := a[|a| - 1], a[..|a| - 1];
      assert a == front + [x];
      SameRows(a, b);
      assert a[|a| - 1] in a;
      var i :| 0 <= i < |b| && b[i] == x;
      var left, right := b[..i], b[i + 1..];
      assert b == left + [x] + right;
      DropOne(a, front, x, b, left, right);
      WeighAnyOrder(front, left + right, w);
      WeighTogether(left + [x], right, w);
      WeighTogether(left, [x], w);
      WeighTogether(left, right, w);
      WeighTogether(front, [x], w);
    }
  }

  /** Peak is the least value that is at least zero and every matching row. */
  lemma {:induction false} PeakIsLargest(rows: seq<Row>, ts: int, name: string)
    ensures var p := Peak(rows, ts, name);
            && p >= 0.0 && (forall r :: r in rows && Within(r, ts, name) ==> r.v <= p)
            && (p == 0.0 || exists r :: r in rows && Within(r, ts, name) && r.v == p)
  {
    if rows != [] {
      var front, last := rows[..|rows| - 1], rows[|rows| - 1];
      assert rows == front + [last];
      PeakIsLargest(front, ts, name);
      assert last in rows;
      hide Within;
    }
  }

  lemma PeakAnyOrder(a: seq<Row>, b: seq<Row>, ts: int, name: string)
    requires multiset(a) == multiset(b)
    ensures Peak(a, ts, name) == Peak(b, ts, name)
  {
    hide Peak, Within;
    SameRows(a, b);
    PeakIsLargest(a, ts, name);
    PeakIsLargest(b, ts, name);
  }

  lemma SameRows(a: seq<Row>, b: seq<Row>)
    requires multiset(a) == multiset(b)
    ensures forall r :: r in a <==> r in b
  {
    assert forall r :: r in a <==> r in multiset(a);
    assert forall r :: r in b <==> r in multiset(b);
  }

  lemma BucketAnyOrder(a: seq<Row>, b: seq<Row>, ts: int)
    requires multiset(a) == multiset(b)
    ensures BucketOf(a, ts) == BucketOf(b, ts)
  {
    hide Weigh, Peak;
    forall w: Row -> real
      ensures Weigh(a, w) == Weigh(b, w)
    {
      WeighAnyOrder(a, b, w);
    }
    PeakAnyOrder(a, b, ts, "http_req_duration");
    PeakAnyOrder(a, b, ts, "vus");
  }

  lemma SameSeconds(a: seq<Row>, b: seq<Row>)
    requires multiset(a) == multiset(b)
    ensures SecondsOf(a) == SecondsOf(b)
  {
    SameRows(a, b);
    forall ts
      ensures ts in SecondsOf(a) <==> ts in SecondsOf(b)
    {
      assert ts in SecondsOf(a) <==> exists r :: r in a && r.ts == ts;
      assert ts in SecondsOf(b) <==> exists r :: r in b && r.ts == ts;
    }
  }

  lemma {:induction false} SameBucketsSameSeries(a: seq<Row>, b: seq<Row>, secs: seq<int>, f: Field)
    requires forall ts :: BucketOf(a, ts) == BucketOf(b, ts)
    ensures SeriesFor(a, secs, f) == SeriesFor(b, secs, f)
  {
    hide BucketOf, Entry;
    if secs != [] {
      SameBucketsSameSeries(a, b, secs[..|secs| - 1], f);
      assert BucketOf(a, secs[|secs| - 1]) == BucketOf(b, secs[|secs| - 1]);
    }
  }

  /** The frame depends on which rows arrived, not on their order or on how the stream was cut up. */
  lemma FrameAnyOrder(a: seq<Row>, b: seq<Row>)
    requires multiset(a) == multiset(b)
    ensures FrameOf(a) == FrameOf(b)
  {
    hide BucketOf, SeriesFor, SecondsOf, Ascending;
    SameSeconds(a, b);
    forall ts
      ensures BucketOf(a, ts) == BucketOf(b, ts)
    {
      BucketAnyOrder(a, b, ts);
    }
    forall f
      ensures SeriesFor(a, Ascending(SecondsOf(a)), f) == SeriesFor(b, Ascending(SecondsOf(b)), f)
    {
      SameBucketsSameSeries(a, b, Ascending(SecondsOf(a)), f);
    }
  }

  // ---------- nothing is lost ----------

  /** The amounts of one metric summed second by second. */
  function Spread(rows: seq<Row>, secs: seq<int>, name: string): real {
    if secs == [] then 0.0 else Spread(rows, secs[..|secs| - 1], name) + Weigh(rows, Amount(secs[|secs| - 1], name))
  }

  lemma {:induction false} SpreadGrows(rows: seq<Row>, r: Row, secs: seq<int>, name: string)
    requires StrictlyRising(secs)
    ensures Spread(rows + [r], secs, name) == Spread(rows, secs, name) + if r.name == name && r.ts in secs then r.v else 0.0
  {
    hide Weigh;
    OneMoreRow(rows, r);
    if secs != [] {
      var front, last := secs[..|secs| - 1], secs[|secs| - 1];
      assert secs == front + [last];
      SpreadGrows(rows, r, front, name);
      assert last !in front;
    }
  }

  lemma {:induction false} SpreadOfNothing(secs: seq<int>, name: string)
    ensures Spread([], secs, name) == 0.0
  {
    if secs != [] {
      SpreadOfNothing(secs[..|secs| - 1], name);
    }
  }

  lemma {:induction false} SpreadIsTotal(rows: seq<Row>, secs: seq<int>, name: string)
    requires StrictlyRising(secs) && forall r :: r in rows ==> r.ts in secs
    ensures Spread(rows, secs, name) == Weigh(rows, AmountOverall(name))
  {
    if rows == [] {
      SpreadOfNothing(secs, name);
    } else {
      var front, last := rows[..|rows| - 1], rows[|rows| - 1];
      assert rows == front + [last];
      SpreadIsTotal(front, secs, name);
      SpreadGrows(front, last, secs, name);
    }
  }

  function CountMetric(f: Field): Option<string> {
    match f
    case Rps => Some("http_reqs")
    case Iterations => Some("iterations")
    case Dropped => Some("dropped_iterations")
    case Failed => Some("http_req_failed")
    case _ => None
  }

  lemma {:induction false} SeriesSumsToSpread(rows: seq<Row>, secs: seq<int>, f: Field)
    requires CountMetric(f).Some?
    ensures LS.Sum(Values(SeriesFor(rows, secs, f))) == Spread(rows, secs, CountMetric(f).value)
  {
    hide Weigh;
    if secs != [] {
      var front, last := secs[..|secs| - 1], secs[|secs| - 1];
      SeriesSumsToSpread(rows, front, f);
      var before, v := SeriesFor(rows, front, f), Entry(BucketOf(rows, last), f).value;
      var now := Values(SeriesFor(rows, secs, f));
      assert now[..|now| - 1] == Values(before) && now[|now| - 1] == v;
    }
  }

  /** Each count series sums to what the whole stream carried of its metric. */
  lemma CountsAreConserved(rows: seq<Row>, f: Field)
    requires CountMetric(f).Some?
    ensures var series := if f in FrameOf(rows) then FrameOf(rows)[f] else [];
            LS.Sum(Values(series)) == Weigh(rows, AmountOverall(CountMetric(f).value))
  {
    var secs := Ascending(SecondsOf(rows));
    AscendingIsSorted(SecondsOf(rows));
    forall r | r in rows
      ensures r.ts in secs
    {
      var i :| 0 <= i < |rows| && rows[i] == r;
      assert rows[i].ts in SecondsOf(rows);
    }
    hide SeriesFor, SecondsOf, Ascending, Weigh, Spread, LS.Sum;
    SpreadIsTotal(rows, secs, CountMetric(f).value);
    SeriesSumsToSpread(rows, secs, f);
  }

  // ---------- the pool's high-water mark ----------

  function OverallPeak(rows: seq<Row>, name: string): real {
    if rows == [] then 0.0
    else
      var before, last := OverallPeak(rows[..|rows| - 1], name), rows[|rows| - 1];
      if last.name == name && last.v > before then last.v else before
  }

  /** math.Round of a value that is not negative. */
  function Rounded(x: real): int { (x + 0.5).Floor }

  lemma {:induction false} OverallPeakIsLargest(rows: seq<Row>, name: string)
    ensures var p := OverallPeak(rows, name);
            && p >= 0.0 && (forall r :: r in rows && r.name == name ==> r.v <= p)
            && (p == 0.0 || exists r :: r in rows && r.name == name && r.v == p)
  {
    if rows != [] {
      var front, last := rows[..|rows| - 1], rows[|rows| - 1];
      assert rows == front + [last];
      OverallPeakIsLargest(front, name);
      assert last in rows;
    }
  }

  lemma MaxIsOverallPeak(buckets: map<int, Bucket>, rows: seq<Row>, max: real)
    requires Groups(buckets, rows) && max >= 0.0
    requires forall ts :: ts in buckets.Keys ==> buckets[ts].vusMax <= max
    requires max == 0.0 || exists ts :: ts in buckets.Keys && buckets[ts].vusMax == max
    ensures max == OverallPeak(rows, "vus")
  {
    hide Weigh, Peak, OverallPeak;
    OverallPeakIsLargest(rows, "vus");
    var p := OverallPeak(rows, "vus");
    if p != 0.0 {
      var r :| r in rows && r.name == "vus" && r.v == p;
      var i :| 0 <= i < |rows| && rows[i] == r;
      assert r.ts in SecondsOf(rows);
      PeakIsLargest(rows, r.ts, "vus");
      assert Within(r, r.ts, "vus") && buckets[r.ts].vusMax == Peak(rows, r.ts, "vus");
    }
    if max != 0.0 {
      var ts :| ts in buckets.Keys && buckets[ts].vusMax == max;
      PeakIsLargest(rows, ts, "vus");
      assert buckets[ts].vusMax == Peak(rows, ts, "vus");
    }
  }
}
