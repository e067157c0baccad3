/**
 Estimating how far the subject's clock is from the runner's (campaign/clock.go).  Stamps and
 durations are nanoseconds; what is reported is milliseconds.
 */
module Clock {
  import opened TimeSeries

  const PROBES: nat := 7
  const MAX_DURATION: int := 0x7FFF_FFFF_FFFF_FFFF

  /** One turn of the loop: the context was cancelled, the probe or its stamp was no good, or three stamps. */
  datatype Probe = Cancelled | Failed | Answer(sent: int, remote: int, received: int)

  datatype Estimate = Estimate(measured: bool, offsetMs: real, uncertaintyMs: real, driftMs: real)

  function Ms(ns: int): real { ns as real / 1_000_000.0 }

  function RoundTrip(p: Probe): int
    requires p.Answer?
  {
    p.received - p.sent
  }

  function Midpoint(p: Probe): int
    requires p.Answer?
  {
    p.sent + TruncDiv(RoundTrip(p), 2)
  }

  /** The probe is reached and can be used. */
  predicate Usable(probes: seq<Probe>, i: int) {
    && 0 <= i < |probes| && probes[i].Answer? && RoundTrip(probes[i]) < MAX_DURATION
    && forall j :: 0 <= j < i ==> probes[j] != Cancelled
  }

  /** Probe i is the first of those with the smallest round trip. */
  predicate IsBest(probes: seq<Probe>, i: int) {
    && Usable(probes, i)
    && forall j :: 0 <= j < |probes| && Usable(probes, j) ==>
         RoundTrip(probes[i]) <= RoundTrip(probes[j]) && (j < i ==> RoundTrip(probes[i]) < RoundTrip(probes[j]))
  }

  function EstimateFrom(p: Probe): Estimate
    requires p.Answer?
  {
    Estimate(true, Ms(p.remote - Midpoint(p)), Ms(TruncDiv(RoundTrip(p), 2)), 0.0)
  }

  method MeasureClock(probes: seq<Probe>) returns (clock: Estimate)
    requires |probes| == 7
    ensures clock.measured <==> exists i :: Usable(probes, i)
    ensures clock.measured ==> exists i :: IsBest(probes, i) && clock == EstimateFrom(probes[i])
    ensures !clock.measured ==> clock == Estimate(false, 0.0, 0.0, 0.0)
  {
    hide IsBest, Usable;
    var best, offset, measured := MAX_DURATION, 0, false;
    var i := 0;
    NothingYet(probes[..0]);
    while i < PROBES
      invariant i <= |probes|
      invariant forall j :: 0 <= j < i ==> probes[j] != Cancelled
      invariant Outcome(probes[..i], measured, best, offset)
    {
      hide Outcome;
      ghost var before := probes[..i];
      assert probes[..i + 1] == before + [probes[i]];
      if probes[i] == Cancelled {
        break;
      }
      NextProbe(before, probes[i], measured, best, offset);
      if probes[i].Answer? {
        var rtt := RoundTrip(probes[i]);
        if rtt < best {
          best := rtt;
          offset := probes[i].remote - (probes[i].sent + TruncDiv(rtt, 2));
          measured := true;
        }
      }
      i := i + 1;
    }
    Unreached(probes, i, measured, best, offset);
    OutcomeMeans(probes, measured, best, offset);
    if !measured { return Estimate(false, 0.0, 0.0, 0.0); }
    clock := Estimate(true, Ms(offset), Ms(TruncDiv(best, 2)), 0.0);
  }

  /** What the loop's variables mean for the probes seen so far. */
  ghost predicate Outcome(probes: seq<Probe>, measured: bool, best: int, offset: int) {
    if measured then
      exists i :: IsBest(probes, i) && best == RoundTrip(probes[i]) && offset == probes[i].remote - Midpoint(probes[i])
    else best == MAX_DURATION && forall i :: 0 <= i < |probes| ==> !Usable(probes, i)
  }

  lemma NothingYet(probes: seq<Probe>)
    requires probes == []
    ensures Outcome(probes, false, MAX_DURATION, 0)
  {
  }

  lemma OutcomeMeans(probes: seq<Probe>, measured: bool, best: int, offset: int)
    requires Outcome(probes, measured, best, offset)
    ensures measured <==> exists i :: Usable(probes, i)
    ensures measured ==> exists i :: IsBest(probes, i) && best == RoundTrip(probes[i]) && offset == probes[i].remote - Midpoint(probes[i])
  {
  }

  lemma UsableBefore(before: seq<Probe>, p: Probe, j: nat)
    ensures j < |before| ==> (Usable(before + [p], j) <==> Usable(before, j))
  {
    var all := before + [p];
    assert forall k :: 0 <= k < |before| ==> all[k] == before[k];
  }

  lemma NextProbe(before: seq<Probe>, p: Probe, measured: bool, best: int, offset: int)
    requires Outcome(before, measured, best, offset) && p != Cancelled
    requires forall j :: 0 <= j < |before| ==> before[j] != Cancelled
    ensures best <= MAX_DURATION
    ensures if p.Answer? && RoundTrip(p) < best
            then Outcome(before + [p], true, RoundTrip(p), p.remote - Midpoint(p))
            else Outcome(before + [p], measured, best, offset)
  {
    var all := before + [p];
    forall j | 0 <= j < |before|
      ensures Usable(all, j) <==> Usable(before, j)
    {
      UsableBefore(before, p, j);
    }
    assert forall k :: 0 <= k < |before| ==> all[k] == before[k];
    if p.Answer? && RoundTrip(p) < best {
      assert IsBest(all, |before|);
    } else if measured {
      var i :| IsBest(before, i) && best == RoundTrip(before[i]) && offset == before[i].remote - Midpoint(before[i]);
      assert IsBest(all, i);
    }
  }

  /** Probes from the cancelled one on are not used. */
  lemma Unreached(probes: seq<Probe>, n: nat, measured: bool, best: int, offset: int)
    requires n <= |probes| && Outcome(probes[..n], measured, best, offset)
    requires n < |probes| ==> probes[n] == Cancelled
    ensures Outcome(probes, measured, best, offset)
  {
    forall j | 0 <= j < |probes|
      ensures Usable(probes, j) <==> j < n && Usable(probes[..n], j)
    {
    }
    if measured {
      var i :| IsBest(probes[..n], i) && best == RoundTrip(probes[..n][i]) && offset == probes[..n][i].remote - Midpoint(probes[..n][i]);
      assert IsBest(probes, i);
    }
  }

  // ---------- how wrong an estimate can be ----------

  /** The remote stamp was taken inside the round trip by a clock ahead of ours by exactly `ahead`. */
  ghost predicate Honest(p: Probe, ahead: int) {
    p.Answer? && exists t :: InFlight(p, t) && p.remote == t + ahead
  }

  predicate InFlight(p: Probe, t: int) {
    p.Answer? && p.sent <= t <= p.received
  }

  /** Half the round trip, a half rounded up. */
  function ErrorBound(p: Probe): int
    requires p.Answer?
  {
    RoundTrip(p) - TruncDiv(RoundTrip(p), 2)
  }

  predicate Off(estimate: real, truth: real, bound: real) {
    -bound <= estimate - truth <= bound
  }

  /** An honest probe's midpoint errs by no more than half its round trip plus the nanosecond of integer halving. */
  lemma ProbeError(p: Probe, ahead: int)
    requires Honest(p, ahead)
    ensures -ErrorBound(p) <= p.remote - Midpoint(p) - ahead <= ErrorBound(p)
    ensures ErrorBound(p) <= TruncDiv(RoundTrip(p), 2) + 1
  {
  }

  /** The bound is attained: a stamp taken at the last instant of the round trip errs by all of it. */
  lemma ProbeErrorIsTight(p: Probe, ahead: int)
    requires p.Answer? && p.sent <= p.received && p.remote == p.received + ahead
    ensures Honest(p, ahead) && p.remote - Midpoint(p) - ahead == ErrorBound(p)
  {
    assert InFlight(p, p.received);
  }

  lemma MsMonotone(a: int, b: int)
    requires a <= b
    ensures Ms(a) <= Ms(b)
  {
  }

  lemma MsLinear(a: int, b: int)
    ensures Ms(a + b) == Ms(a) + Ms(b) && Ms(-a) == -Ms(a)
  {
  }

  /**
   The estimate errs by no more than its reported uncertainty plus one nanosecond, and no other
   probe of the same run promises less.
   */
  lemma OffsetWithinUncertainty(probes: seq<Probe>, i: int, ahead: int)
    requires IsBest(probes, i) && forall j :: 0 <= j < |probes| && Usable(probes, j) ==> Honest(probes[j], ahead)
    ensures var c := EstimateFrom(probes[i]); Off(c.offsetMs, Ms(ahead), c.uncertaintyMs + Ms(1))
    ensures forall j :: 0 <= j < |probes| && Usable(probes, j) ==> ErrorBound(probes[i]) <= ErrorBound(probes[j])
  {
    var p := probes[i];
    assert Honest(p, ahead);
    ProbeError(p, ahead);
    hide Midpoint, TruncDiv, Ms;
    var off, half := p.remote - Midpoint(p), TruncDiv(RoundTrip(p), 2);
    MsLinear(off, -ahead);
    MsLinear(ahead, 0);
    MsLinear(half, 1);
    MsLinear(half + 1, 0);
    MsMonotone(off - ahead, half + 1);
    MsMonotone(-(half + 1), off - ahead);
    forall j | 0 <= j < |probes| && Usable(probes, j)
      ensures ErrorBound(p) <= ErrorBound(probes[j])
    {
      assert Honest(probes[j], ahead);
      HalvesMonotone(p, probes[j]);
    }
  }

  lemma HalvesMonotone(p: Probe, q: Probe)
    requires p.Answer? && q.Answer? && RoundTrip(p) <= RoundTrip(q)
    ensures ErrorBound(p) <= ErrorBound(q)
  {
  }

  // ---------- drift ----------

  /**
   What a drift says: measured only when both ends are, the difference of the two offsets, and an
   uncertainty that is one of the two and covers both.
   */
  predicate IsDrift(d: Estimate, start: Estimate, end: Estimate) {
    && (d.measured <==> start.measured && end.measured)
    && (d.measured ==>
          && d.driftMs == end.offsetMs - start.offsetMs
          && d.uncertaintyMs >= start.uncertaintyMs && d.uncertaintyMs >= end.uncertaintyMs
          && (d.uncertaintyMs == start.uncertaintyMs || d.uncertaintyMs == end.uncertaintyMs))
    && d.offsetMs == start.offsetMs
    && (!d.measured ==> d.uncertaintyMs == start.uncertaintyMs && d.driftMs == start.driftMs)
  }

  /** The estimate errs by no more than its uncertainty and some slack. */
  predicate Within(e: Estimate, truth: real, slack: real) {
    Off(e.offsetMs, truth, e.uncertaintyMs + slack)
  }

  method DriftBetween(start: Estimate, end: Estimate) returns (out: Estimate)
    ensures IsDrift(out, start, end)
    // Errors within the two uncertainties, up to some slack, leave the drift within twice the reported one.
    ensures forall before, after, slack :: out.measured && Within(start, before, slack) && Within(end, after, slack) ==>
              Off(out.driftMs, after - before, 2.0 * (out.uncertaintyMs + slack))
  {
    out := start;
    if !start.measured || !end.measured {
      out := out.(measured := false);
      return;
    }
    out := out.(driftMs := end.offsetMs - start.offsetMs);
    out := out.(uncertaintyMs := if start.uncertaintyMs > end.uncertaintyMs then start.uncertaintyMs else end.uncertaintyMs);
  }

  /** Two cells' worth of probing, end to end: the reported drift against the true one. */
  lemma DriftIsSound(first: seq<Probe>, i: int, before: int, second: seq<Probe>, k: int, after: int, d: Estimate)
    requires IsBest(first, i) && forall j :: 0 <= j < |first| && Usable(first, j) ==> Honest(first[j], before)
    requires IsBest(second, k) && forall j :: 0 <= j < |second| && Usable(second, j) ==> Honest(second[j], after)
    requires IsDrift(d, EstimateFrom(first[i]), EstimateFrom(second[k]))
    ensures d.measured && Off(d.driftMs, Ms(after - before), 2.0 * (d.uncertaintyMs + Ms(1)))
  {
    OffsetWithinUncertainty(first, i, before);
    OffsetWithinUncertainty(second, k, after);
    MsLinear(after, -before);
    MsLinear(before, 0);
    hide Ms, IsBest, Usable, Honest;
  }

  // ---------- the reported uncertainty against the drift ----------

  /** A probe whose stamp was taken at t by a clock ahead of ours by `ahead`. */
  function Stamped(sent: int, t: int, received: int, ahead: int): (p: Probe)
    ensures p.Answer?
  {
    Answer(sent, t + ahead, received)
  }

  /** For these stamps, the drift's error is within the uncertainty reported with it. */
  ghost predicate ReportedBounds(p: Probe, before: int, q: Probe, after: int)
    requires p.Answer? && q.Answer?
  {
    forall d :: IsDrift(d, EstimateFrom(p), EstimateFrom(q)) ==> Off(d.driftMs, Ms(after - before), d.uncertaintyMs)
  }

  function Half(sent: int, received: int): int {
    TruncDiv(received - sent, 2)
  }

  function Larger(a: int, b: int): int { if a > b then a else b }

  /** Counted in nanoseconds: how far each stamp lies from its own midpoint, and the larger half round trip. */
  predicate Covered(s1: int, t1: int, r1: int, s2: int, t2: int, r2: int) {
    var e := (t2 - s2 - Half(s2, r2)) - (t1 - s1 - Half(s1, r1));
    var u := Larger(Half(s1, r1), Half(s2, r2));
    -u <= e <= u
  }

  lemma MsOrder(a: int, b: int)
    ensures Ms(a) <= Ms(b) <==> a <= b
  {
    if a <= b {
      MsMonotone(a, b);
    } else {
      assert Ms(a) > Ms(b);
    }
  }

  lemma ReportedInNanoseconds(s1: int, t1: int, r1: int, before: int, s2: int, t2: int, r2: int, after: int)
    ensures ReportedBounds(Stamped(s1, t1, r1, before), before, Stamped(s2, t2, r2, after), after) <==> Covered(s1, t1, r1, s2, t2, r2)
  {
    var p, q := Stamped(s1, t1, r1, before), Stamped(s2, t2, r2, after);
    var o1, o2 := p.remote - Midpoint(p), q.remote - Midpoint(q);
    var h1, h2 := Half(s1, r1), Half(s2, r2);
    var e := (t2 - s2 - h2) - (t1 - s1 - h1);
    assert o2 - o1 - (after - before) == e;
    var u := Larger(h1, h2);
    var d := Estimate(true, Ms(o1), Ms(u), Ms(o2) - Ms(o1));
    hide Ms, Midpoint, Half;
    MsOrder(h1, h2);
    MsOrder(h2, h1);
    MsOrder(h1, u);
    MsOrder(h2, u);
    assert IsDrift(d, EstimateFrom(p), EstimateFrom(q));
    MsLinear(o2, -o1);
    MsLinear(o1, 0);
    MsLinear(o2 - o1, -(after - before));
    MsLinear(after - before, 0);
    MsLinear(u, 0);
    MsOrder(e, u);
    MsOrder(-u, e);
    assert Off(d.driftMs, Ms(after - before), d.uncertaintyMs) <==> -u <= e <= u;
  }

  lemma AtTheEnds(s1: int, r1: int, s2: int, r2: int)
    requires s1 <= r1 && s2 <= r2
    ensures Covered(s1, s1, r1, s2, r2, r2) && Covered(s1, r1, r1, s2, s2, r2)
       <==> (r1 == s1 && (r2 - s2) % 2 == 0) || (r2 == s2 && (r1 - s1) % 2 == 0)
  {
  }

  lemma BetweenTheEnds(s1: int, t1: int, r1: int, s2: int, t2: int, r2: int)
    requires s1 <= t1 <= r1 && s2 <= t2 <= r2
    requires Covered(s1, s1, r1, s2, r2, r2) && Covered(s1, r1, r1, s2, s2, r2)
    ensures Covered(s1, t1, r1, s2, t2, r2)
  {
    hide Half, Larger;
  }

  /**
   The uncertainty reported with a drift bounds its error for every honest pair of stamps if and only if
   one round trip took no time at all and the other an even number of nanoseconds.
   */
  lemma ReportedBoundsIff(s1: int, r1: int, s2: int, r2: int)
    requires s1 <= r1 && s2 <= r2
    ensures (forall t1, t2, before, after :: s1 <= t1 <= r1 && s2 <= t2 <= r2 ==>
               ReportedBounds(Stamped(s1, t1, r1, before), before, Stamped(s2, t2, r2, after), after))
       <==> (r1 == s1 && (r2 - s2) % 2 == 0) || (r2 == s2 && (r1 - s1) % 2 == 0)
  {
    hide ReportedBounds, Stamped, Covered;
    AtTheEnds(s1, r1, s2, r2);
    if forall t1, t2, before, after :: s1 <= t1 <= r1 && s2 <= t2 <= r2 ==>
         ReportedBounds(Stamped(s1, t1, r1, before), before, Stamped(s2, t2, r2, after), after) {
      ReportedInNanoseconds(s1, s1, r1, 0, s2, r2, r2, 0);
      ReportedInNanoseconds(s1, r1, r1, 0, s2, s2, r2, 0);
    }
    if Covered(s1, s1, r1, s2, r2, r2) && Covered(s1, r1, r1, s2, s2, r2) {
      forall t1, t2, before, after | s1 <= t1 <= r1 && s2 <= t2 <= r2
        ensures ReportedBounds(Stamped(s1, t1, r1, before), before, Stamped(s2, t2, r2, after), after)
      {
        BetweenTheEnds(s1, t1, r1, s2, t2, r2);
        ReportedInNanoseconds(s1, t1, r1, before, s2, t2, r2, after);
      }
    }
  }

  // ---------- in nanoseconds ----------

  /**
   An estimate, in nanoseconds: a million of them to the millisecond it reports.  The uncertainty is half
   the round trip, cut off, and for an honest stamp the offset is off by no more than that and one.
   */
  lemma EstimateIs(p: Probe, ahead: int)
    requires p.Answer? && p.received >= p.sent
    ensures var e := EstimateFrom(p);
            && e.measured && e.driftMs == 0.0
            && (2.0 * (e.uncertaintyMs * 1_000_000.0) == (p.received - p.sent) as real
                || 2.0 * (e.uncertaintyMs * 1_000_000.0) == (p.received - p.sent - 1) as real)
            && (Honest(p, ahead) ==>
                  Off(e.offsetMs * 1_000_000.0, ahead as real, e.uncertaintyMs * 1_000_000.0 + 1.0))
  {
    var half, offset := TruncDiv(RoundTrip(p), 2), p.remote - Midpoint(p);
    InMillionths(half);
    InMillionths(offset);
    if Honest(p, ahead) {
      ProbeError(p, ahead);
    }
    hide Ms;
  }

  lemma InMillionths(ns: int)
    ensures Ms(ns) * 1_000_000.0 == ns as real
  {
  }

  /** A probe is usable when it was answered before any cancellation, and in less than the longest duration there is. */
  lemma UsableIff(probes: seq<Probe>, i: nat)
    requires i < |probes|
    ensures Usable(probes, i) <==>
              && probes[i].Answer? && probes[i].received - probes[i].sent < 9_223_372_036_854_775_807
              && Cancelled !in probes[..i]
  {
    assert forall j :: 0 <= j < i ==> probes[..i][j] == probes[j];
  }
}
