/**
 Reading a capacity ramp (stats/knee.go): the knee is where the longest run of held rungs ends.
 */
module Knee {
  import opened TimeSeries
  import LS = LeastSquares

  datatype Rung = Rung(offered: real, from: int, to: int)

  datatype Measured = Measured(rps: Series, dropped: Series, failed: Series, latency: Series)

  datatype Config = Config(minRatio: real, latencyFactor: real, maxDropped: real, maxFailedRate: real)

  /** Why a rung did not hold, in the order the conditions are tried. */
  datatype Verdict = Held | NoObservations | Shed | Failing | Short | Slow

  datatype Reading = Reading(
    offered: real, seconds: nat, achieved: real, dropped: real, failed: real, latency: real, ratio: real)

  datatype Result = Result(reading: Reading, verdict: Verdict)

  datatype Knee = Knee(found: bool, rate: real, failedAt: real, results: seq<Result>)

  function WithDefaults(cfg: Config): Config {
    cfg.(minRatio := if cfg.minRatio == 0.0 then 0.99 else cfg.minRatio,
         latencyFactor := if cfg.latencyFactor == 0.0 then 3.0 else cfg.latencyFactor)
  }

  function MeanOr0(s: Series): real {
    match Mean(s) case Some(m) => m case None => 0.0
  }

  function Ratio(achieved: real, offered: real): real {
    if offered > 0.0 then achieved / offered else 0.0
  }

  /** What one rung measured: only what lies inside its window. */
  function Read(s: Rung, run: Measured): Reading {
    var win := Clip(run.rps, s.from, s.to);
    var achieved := MeanOr0(win);
    Reading(s.offered, |win|, achieved,
            LS.Sum(Values(Clip(run.dropped, s.from, s.to))),
            LS.Sum(Values(Clip(run.failed, s.from, s.to))),
            MeanOr0(Clip(run.latency, s.from, s.to)),
            Ratio(achieved, s.offered))
  }

  /** The first positive latency among the first n rungs; 0 when none was read. */
  function Reference(rungs: seq<Rung>, run: Measured, n: nat): real
    requires n <= |rungs|
  {
    if n == 0 then 0.0
    else
      var before := Reference(rungs, run, n - 1);
      var latency := Read(rungs[n - 1], run).latency;
      if before == 0.0 && latency > 0.0 then latency else before
  }

  predicate TooManyFailed(r: Reading, maxFailedRate: real) {
    r.failed > 0.0 && r.achieved > 0.0 && r.seconds > 0 && ErrorShare(r) > maxFailedRate
  }

  function ErrorShare(r: Reading): real
    requires r.achieved > 0.0 && r.seconds > 0
  {
    PositiveProduct(r.achieved, r.seconds as real);
    r.failed / (r.achieved * r.seconds as real)
  }

  lemma PositiveProduct(x: real, y: real)
    requires x > 0.0 && y > 0.0
    ensures x * y > 0.0
  {
  }

  function Judge(r: Reading, reference: real, cfg: Config): Verdict {
    if r.seconds == 0 then NoObservations
    else if r.dropped > cfg.maxDropped then Shed
    else if TooManyFailed(r, cfg.maxFailedRate) then Failing
    else if r.ratio < cfg.minRatio then Short
    else if reference > 0.0 && r.latency > LS.Times(reference, cfg.latencyFactor) then Slow
    else Held
  }

  function ResultAt(rungs: seq<Rung>, run: Measured, cfg: Config, i: nat): Result
    requires i < |rungs|
  {
    var r := Read(rungs[i], run);
    Result(r, Judge(r, Reference(rungs, run, i + 1), cfg))
  }

  function ResultsTo(rungs: seq<Rung>, run: Measured, cfg: Config, n: nat): (rs: seq<Result>)
    requires n <= |rungs|
    ensures |rs| == n && forall i :: 0 <= i < n ==> rs[i] == ResultAt(rungs, run, cfg, i)
  {
    seq(n, i requires 0 <= i < n => ResultAt(rungs, run, cfg, i))
  }

  predicate HeldAt(rungs: seq<Rung>, run: Measured, cfg: Config, i: nat)
    requires i < |rungs|
  {
    ResultAt(rungs, run, cfg, i).verdict == Held
  }

  /** n rungs hold and the next, if there is one, does not. */
  ghost predicate HeldExactly(rungs: seq<Rung>, run: Measured, cfg: Config, n: nat) {
    && n <= |rungs|
    && (forall i :: 0 <= i < n ==> HeldAt(rungs, run, cfg, i))
    && (n < |rungs| ==> !HeldAt(rungs, run, cfg, n))
  }

  function HighestHeld(rungs: seq<Rung>, n: nat): real
    requires n <= |rungs|
  {
    if n == 0 then 0.0 else rungs[n - 1].offered
  }

  /** The whole answer follows from the length of the held prefix. */
  ghost predicate IsKnee(k: Knee, rungs: seq<Rung>, run: Measured, raw: Config) {
    var cfg := WithDefaults(raw);
    var n := if k.found then |k.results| - 1 else |k.results|;
    && n >= 0 && HeldExactly(rungs, run, cfg, n)
    && k.found == (n < |rungs|)
    && k.rate == HighestHeld(rungs, n)
    && k.failedAt == (if n < |rungs| then rungs[n].offered else 0.0)
    && k.results == ResultsTo(rungs, run, cfg, |k.results|)
  }

  method ReadRung(s: Rung, run: Measured) returns (r: Reading)
    ensures r == Read(s, run)
  {
    hide Clip, Mean, LS.Sum, LS.Mean;
    var win := Window(run.rps, s.from, s.to);
    var achieved := MeanOr0(win);
    var shed := Window(run.dropped, s.from, s.to);
    var dropped := LS.ComputeSum(Values(shed));
    var errors := Window(run.failed, s.from, s.to);
    var failed := LS.ComputeSum(Values(errors));
    var lat := Window(run.latency, s.from, s.to);
    var latency := MeanOr0(lat);
    r := Reading(s.offered, |win|, achieved, dropped, failed, latency, Ratio(achieved, s.offered));
  }

  method FindKnee(rungs: seq<Rung>, run: Measured, raw: Config) returns (k: Knee)
    ensures IsKnee(k, rungs, run, raw)
  {
    hide Read, Judge;
    var cfg := WithDefaults(raw);
    k := Knee(false, 0.0, 0.0, []);
    var reference := 0.0;
    for i := 0 to |rungs|
      invariant !k.found && |k.results| == i && k.failedAt == 0.0
      invariant reference == Reference(rungs, run, i)
      invariant k.results == ResultsTo(rungs, run, cfg, i)
      invariant forall j :: 0 <= j < i ==> HeldAt(rungs, run, cfg, j)
      invariant k.rate == HighestHeld(rungs, i)
    {
      var r := ReadRung(rungs[i], run);
      if reference == 0.0 && r.latency > 0.0 { reference := r.latency; }
      var result := Result(r, Judge(r, reference, cfg));
      assert result == ResultAt(rungs, run, cfg, i);
      k := k.(results := k.results + [result]);
      assert k.results == ResultsTo(rungs, run, cfg, i + 1);
      if result.verdict != Held {
        k := k.(found := true, failedAt := rungs[i].offered, rate := if i == 0 then k.rate else rungs[i - 1].offered);
        return;
      }
      k := k.(rate := rungs[i].offered);
    }
  }

  // ---------- the answer is unique, and local ----------

  lemma HeldExactlyOnce(rungs: seq<Rung>, run: Measured, cfg: Config, n: nat, n': nat)
    requires HeldExactly(rungs, run, cfg, n) && HeldExactly(rungs, run, cfg, n')
    ensures n == n'
  {
    hide HeldAt;
  }

  lemma KneeIsUnique(k: Knee, k': Knee, rungs: seq<Rung>, run: Measured, raw: Config)
    requires IsKnee(k, rungs, run, raw) && IsKnee(k', rungs, run, raw)
    ensures k == k'
  {
    hide HeldAt, ResultAt;
    HeldExactlyOnce(rungs, run, WithDefaults(raw), if k.found then |k.results| - 1 else |k.results|,
                    if k'.found then |k'.results| - 1 else |k'.results|);
    hide HeldExactly, WithDefaults;
  }

  /** Two runs look the same through a rung's window. */
  ghost predicate SameWindow(s: Rung, a: Measured, b: Measured) {
    && Clip(a.rps, s.from, s.to) == Clip(b.rps, s.from, s.to)
    && Clip(a.dropped, s.from, s.to) == Clip(b.dropped, s.from, s.to)
    && Clip(a.failed, s.from, s.to) == Clip(b.failed, s.from, s.to)
    && Clip(a.latency, s.from, s.to) == Clip(b.latency, s.from, s.to)
  }

  lemma {:induction false} SameReference(rungs: seq<Rung>, a: Measured, rungs': seq<Rung>, b: Measured, n: nat)
    requires n <= |rungs| && n <= |rungs'|
    requires forall i :: 0 <= i < n ==> rungs'[i] == rungs[i] && SameWindow(rungs[i], a, b)
    ensures Reference(rungs', b, n) == Reference(rungs, a, n)
  {
    if n > 0 {
      SameReference(rungs, a, rungs', b, n - 1);
      assert SameWindow(rungs[n - 1], a, b);
      hide Clip, MeanOr0, LS.Sum;
    }
  }

  lemma SameResult(rungs: seq<Rung>, a: Measured, rungs': seq<Rung>, b: Measured, cfg: Config, i: nat)
    requires i < |rungs| && i < |rungs'|
    requires forall j :: 0 <= j <= i ==> rungs'[j] == rungs[j] && SameWindow(rungs[j], a, b)
    ensures ResultAt(rungs', b, cfg, i) == ResultAt(rungs, a, cfg, i)
  {
    hide Clip, MeanOr0, LS.Sum, Reference, Judge;
    SameReference(rungs, a, rungs', b, i + 1);
    assert SameWindow(rungs[i], a, b);
  }

  /**
   Nothing outside the examined windows matters: what the series hold elsewhere cannot change the answer,
   and once a rung has failed neither can the rungs after it.
   */
  lemma NothingLaterMatters(k: Knee, rungs: seq<Rung>, a: Measured, rungs': seq<Rung>, b: Measured, raw: Config)
    requires IsKnee(k, rungs, a, raw) && |rungs'| >= |k.results| && (!k.found ==> |rungs'| == |rungs|)
    requires forall i :: 0 <= i < |k.results| ==> rungs'[i] == rungs[i] && SameWindow(rungs[i], a, b)
    ensures IsKnee(k, rungs', b, raw)
  {
    hide SameWindow, ResultAt;
    var cfg, seen := WithDefaults(raw), |k.results|;
    var n := if k.found then seen - 1 else seen;
    forall i | 0 <= i < seen
      ensures ResultAt(rungs', b, cfg, i) == ResultAt(rungs, a, cfg, i)
    {
      SameResult(rungs, a, rungs', b, cfg, i);
    }
    assert k.results == ResultsTo(rungs', b, cfg, seen);
    forall i | 0 <= i < seen
      ensures HeldAt(rungs', b, cfg, i) == HeldAt(rungs, a, cfg, i)
    {
    }
    assert HeldExactly(rungs', b, cfg, n);
  }

  // ---------- loosening ----------

  predicate Looser(loose: Config, cfg: Config) {
    && loose.minRatio <= cfg.minRatio && loose.latencyFactor >= cfg.latencyFactor
    && loose.maxDropped >= cfg.maxDropped && loose.maxFailedRate >= cfg.maxFailedRate
  }

  lemma LooserStillHolds(rungs: seq<Rung>, run: Measured, cfg: Config, loose: Config, i: nat)
    requires Looser(loose, cfg) && i < |rungs|
    ensures HeldAt(rungs, run, cfg, i) ==> HeldAt(rungs, run, loose, i)
  {
    hide Read, ErrorShare, Reference, LS.Times;
    TimesMonotone(Reference(rungs, run, i + 1), cfg.latencyFactor, loose.latencyFactor);
  }

  lemma TimesMonotone(x: real, a: real, b: real)
    requires a <= b
    ensures x > 0.0 ==> LS.Times(x, a) <= LS.Times(x, b)
  {
    if x > 0.0 {
      assert x * (b - a) >= 0.0;
    }
  }

  predicate Ascending(rungs: seq<Rung>) {
    (forall i :: 0 <= i < |rungs| ==> rungs[i].offered >= 0.0)
    && forall i, j :: 0 <= i < j < |rungs| ==> rungs[i].offered <= rungs[j].offered
  }

  /** Loosening never shortens the held prefix, and on an ascending ramp never lowers the rate. */
  lemma LooseningNeverLowers(k: Knee, k': Knee, rungs: seq<Rung>, run: Measured, raw: Config, loose: Config)
    requires IsKnee(k, rungs, run, raw) && IsKnee(k', rungs, run, loose)
    requires Looser(WithDefaults(loose), WithDefaults(raw)) && Ascending(rungs)
    ensures k'.rate >= k.rate && (k'.found ==> k.found)
  {
    hide HeldAt, ResultAt, Looser, WithDefaults;
    var cfg, cfg' := WithDefaults(raw), WithDefaults(loose);
    var n := if k.found then |k.results| - 1 else |k.results|;
    var n' := if k'.found then |k'.results| - 1 else |k'.results|;
    if n' < |rungs| {
      LooserStillHolds(rungs, run, cfg, cfg', n');
    }
    assert n <= n';
  }

  /** How many rungs hold, counted from i. */
  function HeldUpTo(rungs: seq<Rung>, run: Measured, cfg: Config, i: nat): (n: nat)
    requires i <= |rungs|
    ensures i <= n <= |rungs| && (forall j :: i <= j < n ==> HeldAt(rungs, run, cfg, j))
    ensures n < |rungs| ==> !HeldAt(rungs, run, cfg, n)
    decreases |rungs| - i
  {
    if i < |rungs| && HeldAt(rungs, run, cfg, i) then HeldUpTo(rungs, run, cfg, i + 1) else i
  }

  /** The rate of the knee. */
  function RateOf(rungs: seq<Rung>, run: Measured, raw: Config): real {
    HighestHeld(rungs, HeldUpTo(rungs, run, WithDefaults(raw), 0))
  }

  lemma KneeHasRate(k: Knee, rungs: seq<Rung>, run: Measured, raw: Config)
    requires IsKnee(k, rungs, run, raw)
    ensures k.rate == RateOf(rungs, run, raw)
  {
    hide HeldAt, ResultAt, WithDefaults;
    HeldExactlyOnce(rungs, run, WithDefaults(raw), if k.found then |k.results| - 1 else |k.results|,
                    HeldUpTo(rungs, run, WithDefaults(raw), 0));
  }

  /** On no ascending ramp does the looser configuration report a lower rate. */
  ghost predicate NeverLowers(loose: Config, raw: Config) {
    forall rungs, run :: Ascending(rungs) ==> RateOf(rungs, run, loose) >= RateOf(rungs, run, raw)
  }

  /** A ratio is dropped to 0, which means 0.99; a factor of 0, which means 3, is raised to less than that. */
  predicate ZeroMisread(loose: Config, raw: Config) {
    || (loose.minRatio == 0.0 && 0.0 < raw.minRatio < 0.99)
    || (raw.latencyFactor == 0.0 && 0.0 < loose.latencyFactor < 3.0)
  }

  /**
   Loosening thresholds as written never lowers the rate on an ascending ramp if and only if it loosens
   them with the defaults filled in, which fails exactly when a zero is taken for a bound.
   */
  lemma LooseningIff(raw: Config, loose: Config)
    requires Looser(loose, raw)
    ensures NeverLowers(loose, raw) <==> Looser(WithDefaults(loose), WithDefaults(raw))
    ensures NeverLowers(loose, raw) <==> !ZeroMisread(loose, raw)
  {
    hide RateOf, Ascending;
    if Looser(WithDefaults(loose), WithDefaults(raw)) {
      forall rungs, run | Ascending(rungs)
        ensures RateOf(rungs, run, loose) >= RateOf(rungs, run, raw)
      {
        RateRises(rungs, run, raw, loose);
      }
    } else if loose.minRatio == 0.0 && 0.0 < raw.minRatio < 0.99 {
      var rungs, run := RatioFalls(raw, loose);
      assert RateOf(rungs, run, loose) < RateOf(rungs, run, raw);
    } else {
      var rungs, run := FactorFalls(raw, loose);
      assert RateOf(rungs, run, loose) < RateOf(rungs, run, raw);
    }
  }

  lemma RateRises(rungs: seq<Rung>, run: Measured, raw: Config, loose: Config)
    requires Looser(WithDefaults(loose), WithDefaults(raw)) && Ascending(rungs)
    ensures RateOf(rungs, run, loose) >= RateOf(rungs, run, raw)
  {
    hide HeldAt, Looser, WithDefaults;
    var n' := HeldUpTo(rungs, run, WithDefaults(loose), 0);
    if n' < |rungs| {
      LooserStillHolds(rungs, run, WithDefaults(raw), WithDefaults(loose), n');
    }
  }

  lemma TwoPoints(p: Point, q: Point)
    requires p.at < q.at
    ensures Clip([p, q], p.at, p.at) == [p] && Clip([p, q], q.at, q.at) == [q]
  {
    assert [p, q][1..] == [q] && [q][1..] == [];
    assert Clip([q], q.at, q.at) == [q];
  }

  lemma OnePoint(p: Point)
    ensures MeanOr0([p]) == p.v && LS.Sum(Values([p])) == p.v
  {
    assert Values([p]) == [p.v] && [p.v][..0] == [];
    assert LS.Sum([p.v]) == LS.Sum([]) + p.v;
    LS.MeanOfConstant([p.v], p.v);
  }

  lemma NoPoints(s: Series)
    requires s == []
    ensures LS.Sum(Values(s)) == 0.0
  {
    assert Values(s) == [];
  }

  /** A ramp of two rungs, offered 1 and 2, that make one ratio, shed one count and differ in latency. */
  function TwoRungs(): seq<Rung> { [Rung(1.0, 0, 0), Rung(2.0, 1, 1)] }

  function TwoReadings(ratio: real, dropped: real, l0: real, l1: real): Measured {
    Measured([Point(0, ratio), Point(1, 2.0 * ratio)], [Point(0, dropped), Point(1, dropped)], [], [Point(0, l0), Point(1, l1)])
  }

  lemma ReadTwo(ratio: real, dropped: real, l0: real, l1: real)
    ensures var rungs, run := TwoRungs(), TwoReadings(ratio, dropped, l0, l1);
            && Ascending(rungs)
            && Read(rungs[0], run) == Reading(1.0, 1, ratio, dropped, 0.0, l0, ratio)
            && Read(rungs[1], run) == Reading(2.0, 1, 2.0 * ratio, dropped, 0.0, l1, ratio)
            && Reference(rungs, run, 1) == (if l0 > 0.0 then l0 else 0.0)
            && (l0 > 0.0 || l1 <= 0.0 ==> Reference(rungs, run, 2) == Reference(rungs, run, 1))
  {
    var run := TwoReadings(ratio, dropped, l0, l1);
    TwoPoints(run.rps[0], run.rps[1]);
    TwoPoints(run.dropped[0], run.dropped[1]);
    TwoPoints(run.latency[0], run.latency[1]);
    OnePoint(run.rps[0]);
    OnePoint(run.rps[1]);
    OnePoint(run.dropped[0]);
    OnePoint(run.dropped[1]);
    OnePoint(run.latency[0]);
    OnePoint(run.latency[1]);
    NoPoints(Clip(run.failed, 0, 0));
    NoPoints(Clip(run.failed, 1, 1));
    hide MeanOr0, LS.Sum, Clip;
    assert Reference(TwoRungs(), run, 0) == 0.0;
  }

  /** As written both rungs hold; with the zero read as 0.99 the first falls short. */
  lemma RatioFalls(raw: Config, loose: Config) returns (rungs: seq<Rung>, run: Measured)
    requires loose.minRatio == 0.0 && 0.0 < raw.minRatio < 0.99
    ensures Ascending(rungs) && RateOf(rungs, run, loose) < RateOf(rungs, run, raw)
  {
    hide Read, Reference, Clip;
    rungs, run := TwoRungs(), TwoReadings(raw.minRatio, raw.maxDropped, 0.0, 0.0);
    ReadTwo(raw.minRatio, raw.maxDropped, 0.0, 0.0);
    assert HeldAt(rungs, run, WithDefaults(raw), 0) && HeldAt(rungs, run, WithDefaults(raw), 1);
    assert HeldUpTo(rungs, run, WithDefaults(raw), 1) == 2;
    assert !HeldAt(rungs, run, WithDefaults(loose), 0);
  }

  /** With the factor at its default both rungs hold; with a positive one below 3 the second is slow. */
  lemma FactorFalls(raw: Config, loose: Config) returns (rungs: seq<Rung>, run: Measured)
    requires raw.latencyFactor == 0.0 && 0.0 < loose.latencyFactor < 3.0
    ensures Ascending(rungs) && RateOf(rungs, run, loose) < RateOf(rungs, run, raw)
  {
    hide Read, Reference, Clip;
    var cfg := WithDefaults(raw);
    rungs, run := TwoRungs(), TwoReadings(cfg.minRatio, cfg.maxDropped, 1.0, 3.0);
    ReadTwo(cfg.minRatio, cfg.maxDropped, 1.0, 3.0);
    assert HeldAt(rungs, run, cfg, 0) && HeldAt(rungs, run, cfg, 1);
    assert HeldUpTo(rungs, run, cfg, 1) == 2;
    assert !HeldAt(rungs, run, WithDefaults(loose), 1);
  }

  // ---------- the chosen rate ----------

  function Chosen(k: Knee, fraction: real): int {
    if k.rate <= 0.0 || fraction <= 0.0 then 0 else LS.Times(k.rate, fraction).Floor
  }

  /** The campaign's rate is the largest whole rate within the stated fraction of the knee, so never above the knee. */
  lemma ChosenWithinFraction(k: Knee, fraction: real)
    requires k.rate >= 0.0 && fraction >= 0.0
    ensures var c := Chosen(k, fraction);
            && c >= 0 && c as real <= LS.Times(k.rate, fraction) < (c + 1) as real
            && (fraction <= 1.0 ==> c as real <= k.rate)
  {
    if k.rate > 0.0 && fraction > 0.0 {
      PositiveProduct(k.rate, fraction);
      if fraction <= 1.0 {
        TimesMonotone(k.rate, fraction, 1.0);
      }
    }
  }
}
