/** When a rung of a capacity ramp holds, in terms of what was observed in its window (stats/knee.go). */
module KneeFigures {
  import opened Knee
  import opened TimeSeries
  import LS = LeastSquares

  /** The mean of what was observed of a series within a window, 0 where there was nothing. */
  function MeanIn(s: Series, r: Rung): real {
    var win := Clip(s, r.from, r.to);
    if win == [] then 0.0 else LS.Mean(Values(win))
  }

  function SumIn(s: Series, r: Rung): real { LS.Sum(Values(Clip(s, r.from, r.to))) }

  function CountIn(s: Series, r: Rung): nat { |Clip(s, r.from, r.to)| }

  // ---------- the conditions, one by one ----------

  predicate Unobserved(r: Rung, run: Measured) { CountIn(run.rps, r) == 0 }

  predicate DroppedTooMuch(r: Rung, run: Measured, raw: Config) { SumIn(run.dropped, r) > raw.maxDropped }

  /** More failures than the allowed share of the requests the mean rate adds up to, a point a second. */
  predicate FailedTooMuch(r: Rung, run: Measured, raw: Config) {
    var requests := MeanIn(run.rps, r) * CountIn(run.rps, r) as real;
    SumIn(run.failed, r) > 0.0 && MeanIn(run.rps, r) > 0.0 && SumIn(run.failed, r) > raw.maxFailedRate * requests
  }

  /** Less than the required share of the offered rate was achieved; the share is 0.99 where none is set. */
  predicate FellShort(r: Rung, run: Measured, raw: Config) {
    var share := if raw.minRatio == 0.0 then 0.99 else raw.minRatio;
    if r.offered > 0.0 then MeanIn(run.rps, r) < share * r.offered else share > 0.0
  }

  /** Slower than the allowed multiple of the reference; the multiple is 3 where none is set. */
  predicate SlowedDown(r: Rung, run: Measured, raw: Config, reference: real) {
    var factor := if raw.latencyFactor == 0.0 then 3.0 else raw.latencyFactor;
    reference > 0.0 && MeanIn(run.latency, r) > reference * factor
  }

  /** The mean latency of the first rung up to i that had any, or 0. */
  ghost predicate IsReference(reference: real, rungs: seq<Rung>, run: Measured, i: nat)
    requires i < |rungs|
  {
    || (reference == 0.0 && forall j :: 0 <= j <= i ==> MeanIn(run.latency, rungs[j]) <= 0.0)
    || exists j :: 0 <= j <= i && FirstWithLatency(rungs, run, j) && reference == MeanIn(run.latency, rungs[j])
  }

  predicate FirstWithLatency(rungs: seq<Rung>, run: Measured, j: nat)
    requires j < |rungs|
  {
    MeanIn(run.latency, rungs[j]) > 0.0 && forall k :: 0 <= k < j ==> MeanIn(run.latency, rungs[k]) <= 0.0
  }

  // ---------- what is read and judged ----------

  lemma ReadIs(r: Rung, run: Measured)
    ensures var x := Read(r, run);
            && x.offered == r.offered && x.seconds == CountIn(run.rps, r) && x.achieved == MeanIn(run.rps, r)
            && x.dropped == SumIn(run.dropped, r) && x.failed == SumIn(run.failed, r) && x.latency == MeanIn(run.latency, r)
            && (if r.offered > 0.0 then x.ratio * r.offered == x.achieved else x.ratio == 0.0)
  {
    hide LS.Mean, LS.Sum, Clip;
    if r.offered > 0.0 {
      Quotient(MeanIn(run.rps, r), r.offered);
    }
  }

  lemma Quotient(x: real, y: real)
    requires y > 0.0
    ensures x / y * y == x
  {
    var q := x / y;
    assert q * y == x;
  }

  lemma {:induction false} ReferenceIs(rungs: seq<Rung>, run: Measured, i: nat)
    requires i < |rungs|
    ensures IsReference(Reference(rungs, run, i + 1), rungs, run, i)
    ensures Reference(rungs, run, i + 1) >= 0.0
  {
    hide Read, MeanIn;
    ReadIs(rungs[i], run);
    if i > 0 {
      ReferenceIs(rungs, run, i - 1);
    }
    var before := Reference(rungs, run, i);
    if before == 0.0 && MeanIn(run.latency, rungs[i]) > 0.0 {
      assert FirstWithLatency(rungs, run, i);
    }
  }

  lemma ShareIsOver(failed: real, requests: real, rate: real)
    requires requests > 0.0
    ensures failed / requests > rate <==> failed > rate * requests
  {
    var q := failed / requests;
    assert q * requests == failed;
    if q > rate {
      assert (q - rate) * requests > 0.0;
    } else {
      assert (rate - q) * requests >= 0.0;
    }
  }

  lemma ShareIsUnder(q: real, achieved: real, offered: real, share: real)
    requires offered > 0.0 && q * offered == achieved
    ensures q < share <==> achieved < share * offered
  {
    if q < share {
      assert (share - q) * offered > 0.0;
    } else {
      assert (q - share) * offered >= 0.0;
    }
  }

  lemma ConditionsAre(r: Rung, run: Measured, raw: Config, reference: real)
    requires !Unobserved(r, run)
    ensures var x, cfg := Read(r, run), WithDefaults(raw);
            && (TooManyFailed(x, cfg.maxFailedRate) <==> FailedTooMuch(r, run, raw))
            && (x.ratio < cfg.minRatio <==> FellShort(r, run, raw))
            && (reference > 0.0 && x.latency > LS.Times(reference, cfg.latencyFactor) <==> SlowedDown(r, run, raw, reference))
  {
    ReadIs(r, run);
    var x := Read(r, run);
    hide Read, MeanIn, SumIn, CountIn;
    if x.achieved > 0.0 {
      PositiveProduct(x.achieved, x.seconds as real);
      ShareIsOver(x.failed, x.achieved * x.seconds as real, raw.maxFailedRate);
    }
    if r.offered > 0.0 {
      ShareIsUnder(x.ratio, x.achieved, r.offered, WithDefaults(raw).minRatio);
    }
  }

  /**
   The verdict on rung i, against the first rung that showed a latency: the first of the conditions that
   applies, in this order, and held when none does.
   */
  lemma VerdictIs(rungs: seq<Rung>, run: Measured, raw: Config, i: nat)
    requires i < |rungs|
    ensures exists reference ::
              && IsReference(reference, rungs, run, i)
              && var r, v := rungs[i], ResultAt(rungs, run, WithDefaults(raw), i).verdict;
                 v == if Unobserved(r, run) then NoObservations
                      else if DroppedTooMuch(r, run, raw) then Shed
                      else if FailedTooMuch(r, run, raw) then Failing
                      else if FellShort(r, run, raw) then Short
                      else if SlowedDown(r, run, raw, reference) then Slow
                      else Held
  {
    var reference := Reference(rungs, run, i + 1);
    ReferenceIs(rungs, run, i);
    ReadIs(rungs[i], run);
    if !Unobserved(rungs[i], run) {
      ConditionsAre(rungs[i], run, raw, reference);
    }
    hide Read, MeanIn, SumIn, CountIn, TooManyFailed, FailedTooMuch, FellShort, SlowedDown, IsReference, LS.Times, Reference;
  }

  /** The reference is determined: any two agree. */
  lemma OneReference(a: real, b: real, rungs: seq<Rung>, run: Measured, i: nat)
    requires i < |rungs| && IsReference(a, rungs, run, i) && IsReference(b, rungs, run, i)
    ensures a == b
  {
    hide MeanIn;
  }

  /** A rung holds if and only if it was observed and dropped, failed, achieved and slowed within bounds. */
  lemma HeldIff(rungs: seq<Rung>, run: Measured, raw: Config, i: nat, reference: real)
    requires i < |rungs| && IsReference(reference, rungs, run, i)
    ensures HeldAt(rungs, run, WithDefaults(raw), i) <==>
              var r := rungs[i];
              && !Unobserved(r, run) && !DroppedTooMuch(r, run, raw) && !FailedTooMuch(r, run, raw)
              && !FellShort(r, run, raw) && !SlowedDown(r, run, raw, reference)
  {
    VerdictIs(rungs, run, raw, i);
    hide Unobserved, DroppedTooMuch, FailedTooMuch, FellShort, SlowedDown, IsReference, ResultAt;
    forall other | IsReference(other, rungs, run, i)
      ensures other == reference
    {
      OneReference(other, reference, rungs, run, i);
    }
  }
}
