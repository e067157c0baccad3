/**
 The capacity ramp: the stage list the load generator executes (spec/spec.go, stats/knee.go,
 campaign/calibrate.go) and the windows its rungs are measured in.  Times are nanoseconds.
 */
module Ramp {
  import opened Integers
  import opened TimeSeries
  import opened Knee

  datatype Capacity = Capacity(start: int, peak: int, steps: int, dwell: int, transition: int, warmup: int)

  datatype Stage = Stage(target: int, duration: int)

  function Defaulted(c: Capacity): Capacity {
    var dwell := if c.dwell <= 0 then 15 * SECOND else c.dwell;
    Capacity(if c.start <= 0 then TruncDiv(c.peak, 20) else c.start,
             c.peak,
             if c.steps <= 0 then 10 else c.steps,
             dwell,
             if c.transition <= 0 then SECOND else c.transition,
             if c.warmup <= 0 then dwell else c.warmup)
  }

  /** How long the ramp is announced to take. */
  function Duration(cap: Capacity): int {
    var c := Defaulted(cap);
    c.transition + c.warmup + Times(c.steps, c.dwell + c.transition)
  }

  // ---------- targets ----------

  function Target(start: int, peak: int, steps: int, i: nat): int
    requires steps >= 1
  {
    if steps > 1 then start + TruncDiv(Times(peak - start, i), steps - 1) else peak
  }

  function Targets(start: int, peak: int, steps: int, k: nat): (ts: seq<int>)
    requires steps >= 1
    ensures |ts| == k && forall i :: 0 <= i < k ==> ts[i] == Target(start, peak, steps, i)
  {
    seq(k, i requires 0 <= i < k => Target(start, peak, steps, i))
  }

  /** A transition and a dwell for each target. */
  function Staircase(ts: seq<int>, dwell: int, transition: int): (stages: seq<Stage>)
    ensures |stages| == 2 * |ts|
  {
    if ts == [] then []
    else Staircase(ts[..|ts| - 1], dwell, transition) + [Stage(ts[|ts| - 1], transition), Stage(ts[|ts| - 1], dwell)]
  }

  method RampStages(startRate: int, peakRate: int, steps: int, dwell: int, transition: int)
    returns (targets: seq<int>, stages: seq<Stage>)
    ensures var n := if steps < 1 then 1 else steps;
            targets == Targets(startRate, peakRate, n, n)
            && stages == Staircase(targets, dwell, if transition <= 0 then SECOND else transition)
  {
    hide TruncDiv, Times;
    var n := if steps < 1 then 1 else steps;
    var tr := if transition <= 0 then SECOND else transition;
    targets, stages := [], [];
    for i := 0 to n
      invariant targets == Targets(startRate, peakRate, n, i)
      invariant stages == Staircase(targets, dwell, tr)
    {
      var target := startRate;
      if n > 1 {
        target := startRate + TruncDiv(Times(peakRate - startRate, i), n - 1);
      } else {
        target := peakRate;
      }
      assert (targets + [target])[..i] == targets;
      targets := targets + [target];
      stages := stages + [Stage(target, tr), Stage(target, dwell)];
    }
  }

  lemma ProductMonotone(n: int, x: int, y: int)
    requires n >= 0 && 0 <= x <= y
    ensures 0 <= Times(n, x) <= Times(n, y)
  {
    assert n * (y - x) >= 0;
  }

  lemma QuotientMonotone(a: int, b: int, d: int)
    requires 0 <= a <= b && d > 0
    ensures 0 <= TruncDiv(a, d) <= TruncDiv(b, d)
  {
    DivMonotone(a, b, d);
  }

  lemma DivMonotone(a: int, b: int, d: int)
    requires a <= b && d > 0
    ensures a / d <= b / d
  {
    var q, r := a / d, b / d;
    if q > r {
      SmallerQuotient(d, q, r);
    }
  }

  lemma SmallerQuotient(d: int, q: int, r: int)
    requires d > 0
    ensures q > r ==> d * q >= d * r + d
  {
    if q > r {
      AtLeastOnce(d, q - r);
      Distributes(d, r, q - r);
    }
  }

  lemma ExactQuotient(n: int, d: int)
    requires n >= 0 && d > 0
    ensures TruncDiv(Times(n, d), d) == n && TruncDiv(Times(n, 0), d) == 0
  {
    ProductMonotone(n, 0, d);
    var q := Times(n, d) / d;
    assert n * d == d * n;
    SmallerQuotient(d, q, n);
    SmallerQuotient(d, n, q);
  }

  /** With the start at or below the peak the targets rise from the start, stay within and end at the peak. */
  lemma TargetsRise(start: int, peak: int, steps: int, i: nat, j: nat)
    requires start <= peak && steps >= 1 && i <= j < steps
    ensures start <= Target(start, peak, steps, i) <= Target(start, peak, steps, j) <= peak
    ensures Target(start, peak, steps, steps - 1) == peak
    ensures steps > 1 ==> Target(start, peak, steps, 0) == start
  {
    if steps > 1 {
      ProductMonotone(peak - start, i, j);
      ProductMonotone(peak - start, j, steps - 1);
      QuotientMonotone(Times(peak - start, i), Times(peak - start, j), steps - 1);
      QuotientMonotone(Times(peak - start, j), Times(peak - start, steps - 1), steps - 1);
      ExactQuotient(peak - start, steps - 1);
      hide Times, TruncDiv;
    }
  }

  // ---------- windows ----------

  /** Where rung i's dwell begins, transitions and dwells before it laid end to end. */
  function DwellStart(start: int, dwell: int, transition: int, i: nat): int {
    if i == 0 then start + transition else DwellStart(start, dwell, transition, i - 1) + dwell + transition
  }

  method StepWindows(start: int, targets: seq<int>, dwell: int, transition: int) returns (out: seq<Rung>)
    ensures |out| == |targets|
    ensures forall i :: 0 <= i < |out| ==>
      var from := DwellStart(start, dwell, transition, i);
      out[i] == Rung(targets[i] as real, from, from + dwell - 1)
  {
    out := [];
    var at := start;
    for k := 0 to |targets|
      invariant |out| == k && at + transition == DwellStart(start, dwell, transition, k)
      invariant forall i :: 0 <= i < k ==>
        var from := DwellStart(start, dwell, transition, i);
        out[i] == Rung(targets[i] as real, from, from + dwell - 1)
    {
      at := at + transition;
      out := out + [Rung(targets[k] as real, at, at + (dwell - 1))];
      at := at + dwell;
    }
  }

  // ---------- the whole schedule ----------

  /** What the generator runs: the discarded warm-up rung, then the staircase. */
  function Schedule(cap: Capacity): (stages: seq<Stage>)
    ensures |stages| == 2 + 2 * Defaulted(cap).steps
  {
    var c := Defaulted(cap);
    [Stage(c.start, c.transition), Stage(c.start, c.warmup)]
    + Staircase(Targets(c.start, c.peak, c.steps, c.steps), c.dwell, c.transition)
  }

  /** Time from the start of the run to the start of stage j. */
  function Begin(stages: seq<Stage>, j: nat): int
    requires j <= |stages|
  {
    if j == 0 then 0 else Begin(stages, j - 1) + stages[j - 1].duration
  }

  lemma {:induction false} StaircaseAt(ts: seq<int>, dwell: int, transition: int, i: nat)
    requires i < |ts|
    ensures var stages := Staircase(ts, dwell, transition);
            stages[2 * i] == Stage(ts[i], transition) && stages[2 * i + 1] == Stage(ts[i], dwell)
  {
    if i < |ts| - 1 {
      StaircaseAt(ts[..|ts| - 1], dwell, transition, i);
    }
  }

  /** Stage 2 + 2i is rung i's transition, stage 3 + 2i its dwell. */
  lemma ScheduleAt(cap: Capacity, i: nat)
    requires i < Defaulted(cap).steps
    ensures var c := Defaulted(cap);
            var all := Schedule(cap);
            var target := Target(c.start, c.peak, c.steps, i);
            all[2 + 2 * i] == Stage(target, c.transition) && all[3 + 2 * i] == Stage(target, c.dwell)
  {
    hide Target, Defaulted;
    var c := Defaulted(cap);
    StaircaseAt(Targets(c.start, c.peak, c.steps, c.steps), c.dwell, c.transition, i);
  }

  lemma {:induction false} DwellStartsWithItsStage(cap: Capacity, t0: int, i: nat)
    requires i < Defaulted(cap).steps
    ensures var c := Defaulted(cap);
            DwellStart(t0 + c.transition + c.warmup, c.dwell, c.transition, i) == t0 + Begin(Schedule(cap), 3 + 2 * i)
  {
    var all, c := Schedule(cap), Defaulted(cap);
    assert all[0].duration == c.transition && all[1].duration == c.warmup;
    hide Target, Defaulted, Schedule;
    ScheduleAt(cap, i);
    BeginStep(all, 2 + 2 * i);
    if i == 0 {
      BeginStep(all, 0);
      BeginStep(all, 1);
    } else {
      DwellStartsWithItsStage(cap, t0, i - 1);
      ScheduleAt(cap, i - 1);
      BeginStep(all, 1 + 2 * i);
    }
  }

  lemma BeginStep(stages: seq<Stage>, j: nat)
    requires j < |stages|
    ensures Begin(stages, j + 1) == Begin(stages, j) + stages[j].duration && Begin(stages, 0) == 0
  {
  }

  /** What calibration does: build the stages, run them from t0, measure in the windows. */
  method PlanRamp(cap: Capacity, t0: int) returns (all: seq<Stage>, windows: seq<Rung>)
    ensures all == Schedule(cap)
    ensures |windows| == Defaulted(cap).steps
    ensures forall i :: 0 <= i < |windows| ==> IsDwell(cap, t0, windows[i], i)
  {
    hide TruncDiv, Target;
    var c := Defaulted(cap);
    var targets, stages := RampStages(c.start, c.peak, c.steps, c.dwell, c.transition);
    all := [Stage(c.start, c.transition), Stage(c.start, c.warmup)] + stages;
    windows := StepWindows(t0 + (c.transition + c.warmup), targets, c.dwell, c.transition);
    forall i | 0 <= i < |windows|
      ensures IsDwell(cap, t0, windows[i], i)
    {
      ScheduleAt(cap, i);
      DwellStartsWithItsStage(cap, t0, i);
      BeginStep(Schedule(cap), 3 + 2 * i);
    }
  }

  /** Window i is exactly the dwell stage of rung i, less its last nanosecond, at that stage's rate. */
  ghost predicate IsDwell(cap: Capacity, t0: int, w: Rung, i: nat) {
    var all := Schedule(cap);
    && i < Defaulted(cap).steps
    && w.offered == all[3 + 2 * i].target as real
    && w.from == t0 + Begin(all, 3 + 2 * i)
    && w.to == t0 + Begin(all, 4 + 2 * i) - 1
  }

  lemma DurationsPositive(cap: Capacity, j: nat)
    requires j < |Schedule(cap)|
    ensures Schedule(cap)[j].duration > 0
  {
    if j >= 2 {
      ScheduleAt(cap, (j - 2) / 2);
    }
    hide Target;
  }

  lemma {:induction false} StagesInOrder(cap: Capacity, j: nat, k: nat)
    requires j <= k <= |Schedule(cap)|
    ensures Begin(Schedule(cap), j) <= Begin(Schedule(cap), k)
  {
    hide Schedule;
    if j < k {
      StagesInOrder(cap, j, k - 1);
      DurationsPositive(cap, k - 1);
    }
  }

  /** The stage running at an instant of the run. */
  ghost predicate Running(cap: Capacity, t0: int, t: int, j: nat) {
    j < |Schedule(cap)| && t0 + Begin(Schedule(cap), j) <= t < t0 + Begin(Schedule(cap), j + 1)
  }

  /**
   A window sees its own dwell and nothing else: an instant inside window i belongs to no other
   window, to no transition and to no other stage at all.
   */
  lemma WindowsSeeOnlyTheirDwell(cap: Capacity, t0: int, w: Rung, i: nat, t: int, j: nat)
    requires IsDwell(cap, t0, w, i) && w.from <= t <= w.to && Running(cap, t0, t, j)
    ensures j == 3 + 2 * i
  {
    hide Schedule, Defaulted;
    ScheduleLength(cap);
    if j < 3 + 2 * i {
      StagesInOrder(cap, j + 1, 3 + 2 * i);
    } else if j > 3 + 2 * i {
      StagesInOrder(cap, 4 + 2 * i, j);
    }
  }

  lemma ScheduleLength(cap: Capacity)
    ensures |Schedule(cap)| == 2 + 2 * Defaulted(cap).steps && Defaulted(cap).steps >= 1
  {
  }

  lemma WindowsDisjoint(cap: Capacity, t0: int, w: Rung, i: nat, w': Rung, i': nat, t: int)
    requires IsDwell(cap, t0, w, i) && IsDwell(cap, t0, w', i') && w.from <= t <= w.to && w'.from <= t <= w'.to
    ensures i == i'
  {
    ScheduleLength(cap);
    hide Schedule, Defaulted;
    BeginStep(Schedule(cap), 3 + 2 * i);
    assert Running(cap, t0, t, 3 + 2 * i);
    WindowsSeeOnlyTheirDwell(cap, t0, w', i', t, 3 + 2 * i);
  }

  lemma {:induction false} DwellsTotal(cap: Capacity, i: nat)
    requires i <= Defaulted(cap).steps
    ensures var c := Defaulted(cap);
            Begin(Schedule(cap), 2 + 2 * i) == c.transition + c.warmup + Times(i, c.dwell + c.transition)
  {
    var all, c := Schedule(cap), Defaulted(cap);
    assert all[0].duration == c.transition && all[1].duration == c.warmup;
    hide Target, Defaulted, Schedule, Times;
    NextProduct(i - 1, c.dwell + c.transition);
    if i == 0 {
      BeginStep(all, 0);
      BeginStep(all, 1);
    } else {
      DwellsTotal(cap, i - 1);
      ScheduleAt(cap, i - 1);
      BeginStep(all, 2 * i);
      BeginStep(all, 2 * i + 1);
    }
  }

  lemma NextProduct(n: int, x: int)
    ensures Times(n + 1, x) == Times(n, x) + x && Times(0, x) == 0
  {
  }

  /** The stages sum to the duration the campaign plans for. */
  lemma ScheduleTakesItsDuration(cap: Capacity)
    ensures Begin(Schedule(cap), |Schedule(cap)|) == Duration(cap)
  {
    DwellsTotal(cap, Defaulted(cap).steps);
    hide Schedule, Times;
  }
}
