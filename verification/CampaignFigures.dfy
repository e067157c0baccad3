/**
 What the figures of a roll-up are figures of (result/campaign.go): each comparison of the cells it is
 drawn from, each judgement of the two medians, each count of what it counts.
 */
module CampaignFigures {
  import opened Campaign
  import opened CampaignProperties
  import opened Describe
  import opened Options
  import opened Randomness
  import opened Verdicts
  import Compare
  import D = Decisions
  import Names
  import Sorting

  // ---------- the cells behind a figure ----------

  /** The cells of one scenario and arm that no gate excluded, as they ran. */
  function Chosen(cells: seq<Cell>, id: string, arm: string): seq<Cell> {
    if cells == [] then []
    else
      var n := |cells| - 1;
      var c := cells[n];
      Chosen(cells[..n], id, arm) + if c.scenario == id && c.arm == arm && c.level != Invalid then [c] else []
  }

  lemma {:induction false} ScenarioAppend(cells: seq<Cell>, c: Cell, id: string)
    ensures OfScenario(cells + [c], id) == OfScenario(cells, id) + if c.scenario == id then [c] else []
  {
    if cells == [] {
      assert [] + [c] == [c] && OfScenario([c][1..], id) == [];
    } else {
      assert (cells + [c])[1..] == cells[1..] + [c];
      ScenarioAppend(cells[1..], c, id);
    }
  }

  lemma {:induction false} SelectionIs(cells: seq<Cell>, id: string, arm: string)
    ensures Used(OfArm(OfScenario(cells, id), arm)) == Chosen(cells, id, arm)
  {
    hide OfScenario, OfArm, Used;
    if cells == [] {
      NothingSelected(id, arm);
    } else {
      var n := |cells| - 1;
      var c := cells[n];
      SelectionIs(cells[..n], id, arm);
      assert cells == cells[..n] + [c];
      ScenarioAppend(cells[..n], c, id);
      var mine := OfScenario(cells[..n], id);
      assert mine + [] == mine;
      OfArmAppend(mine, c, arm);
      assert OfArm(mine, arm) + [] == OfArm(mine, arm);
      UsedAppend(OfArm(mine, arm), c);
    }
  }

  lemma NothingSelected(id: string, arm: string)
    ensures Used(OfArm(OfScenario([], id), arm)) == []
  {
  }

  /** The values above 0, in order: 0 stands for a figure that was not measured. */
  function Above0(vs: seq<real>): seq<real> {
    if vs == [] then []
    else
      var n := |vs| - 1;
      Above0(vs[..n]) + if vs[n] > 0.0 then [vs[n]] else []
  }

  function ServerMeans(cells: seq<Cell>): seq<real> {
    if cells == [] then []
    else
      var n := |cells| - 1;
      ServerMeans(cells[..n]) + if cells[n].headline.hasServerMean then [cells[n].headline.serverMean] else []
  }

  lemma {:induction false} MeasuredAppend(q: Quantity, cells: seq<Cell>, c: Cell)
    ensures Measured(q, cells + [c]) == Measured(q, cells) + match Pick(q, c) case Some(v) => [v] case None => []
  {
    hide Pick;
    if cells == [] {
      assert [] + [c] == [c] && Measured(q, [c][1..]) == [];
    } else {
      assert (cells + [c])[1..] == cells[1..] + [c];
      MeasuredAppend(q, cells[1..], c);
    }
  }

  lemma MeasuredStep(q: Quantity, cells: seq<Cell>)
    requires cells != []
    ensures var n := |cells| - 1;
            Measured(q, cells) == Measured(q, cells[..n]) + match Pick(q, cells[n]) case Some(v) => [v] case None => []
  {
    hide Pick, Measured;
    MeasuredAppend(q, cells[..|cells| - 1], cells[|cells| - 1]);
    assert cells == cells[..|cells| - 1] + [cells[|cells| - 1]];
  }

  lemma {:induction false} AllMeasured(q: Quantity, cells: seq<Cell>)
    requires forall i :: 0 <= i < |cells| ==> Pick(q, cells[i]).Some?
    ensures |Measured(q, cells)| == |cells| && forall i :: 0 <= i < |cells| ==> Some(Measured(q, cells)[i]) == Pick(q, cells[i])
  {
    hide Pick;
    if cells != [] {
      AllMeasured(q, cells[..|cells| - 1]);
      MeasuredStep(q, cells);
    }
  }

  lemma {:induction false} MeasuredAbove0(q: Quantity, cells: seq<Cell>, vs: seq<real>)
    requires |vs| == |cells|
    requires forall i :: 0 <= i < |cells| ==> Pick(q, cells[i]) == if vs[i] > 0.0 then Some(vs[i]) else None
    ensures Measured(q, cells) == Above0(vs)
  {
    hide Pick;
    if cells != [] {
      MeasuredAbove0(q, cells[..|cells| - 1], vs[..|vs| - 1]);
      MeasuredStep(q, cells);
    }
  }

  lemma {:induction false} MeasuredMeans(cells: seq<Cell>)
    ensures Measured(ServerMean, cells) == ServerMeans(cells)
  {
    if cells != [] {
      MeasuredMeans(cells[..|cells| - 1]);
      MeasuredStep(ServerMean, cells);
      hide Measured;
    }
  }

  /** Achieved throughput and the three client latencies are figures of every cell. */
  lemma ClientFiguresAre(cells: seq<Cell>)
    ensures |Measured(Throughput, cells)| == |cells|
    ensures forall i :: 0 <= i < |cells| ==> Measured(Throughput, cells)[i] == cells[i].headline.achievedRPS
    ensures |Measured(ClientP50, cells)| == |cells|
    ensures forall i :: 0 <= i < |cells| ==> Measured(ClientP50, cells)[i] == cells[i].headline.clientP50
    ensures |Measured(ClientP95, cells)| == |cells|
    ensures forall i :: 0 <= i < |cells| ==> Measured(ClientP95, cells)[i] == cells[i].headline.clientP95
    ensures |Measured(ClientP99, cells)| == |cells|
    ensures forall i :: 0 <= i < |cells| ==> Measured(ClientP99, cells)[i] == cells[i].headline.clientP99
  {
    hide Measured;
    AllMeasured(Throughput, cells);
    AllMeasured(ClientP50, cells);
    AllMeasured(ClientP95, cells);
    AllMeasured(ClientP99, cells);
  }

  function ProcessorTimes(cells: seq<Cell>): (vs: seq<real>)
    ensures |vs| == |cells| && forall i :: 0 <= i < |vs| ==> vs[i] == cells[i].headline.cpuPerRequest
  {
    seq(|cells|, i requires 0 <= i < |cells| => cells[i].headline.cpuPerRequest)
  }

  function MemoryPeaks(cells: seq<Cell>): (vs: seq<real>)
    ensures |vs| == |cells| && forall i :: 0 <= i < |vs| ==> vs[i] == cells[i].headline.rssPeak
  {
    seq(|cells|, i requires 0 <= i < |cells| => cells[i].headline.rssPeak)
  }

  function StartTimes(cells: seq<Cell>): (vs: seq<real>)
    ensures |vs| == |cells| && forall i :: 0 <= i < |vs| ==> vs[i] == cells[i].headline.coldStart
  {
    seq(|cells|, i requires 0 <= i < |cells| => cells[i].headline.coldStart)
  }

  /** The server's mean is one of the cells that have it; processor, memory and start-up figures are those above 0. */
  lemma ServerFiguresAre(cells: seq<Cell>)
    ensures Measured(ServerMean, cells) == ServerMeans(cells)
    ensures Measured(CPUPerReq, cells) == Above0(ProcessorTimes(cells))
    ensures Measured(RSSPeak, cells) == Above0(MemoryPeaks(cells))
    ensures Measured(ColdStart, cells) == Above0(StartTimes(cells))
  {
    hide Measured, Above0, ServerMeans, ProcessorTimes, MemoryPeaks, StartTimes;
    MeasuredMeans(cells);
    MeasuredAbove0(CPUPerReq, cells, ProcessorTimes(cells));
    MeasuredAbove0(RSSPeak, cells, MemoryPeaks(cells));
    MeasuredAbove0(ColdStart, cells, StartTimes(cells));
  }

  // ---------- an arm ----------

  function Places(cells: seq<Cell>): (ns: seq<int>)
    ensures |ns| == |cells| && forall i :: 0 <= i < |ns| ==> ns[i] == cells[i].ordinal
  {
    seq(|cells|, i requires 0 <= i < |cells| => cells[i].ordinal)
  }

  function Rates(cells: seq<Cell>): (vs: seq<real>)
    ensures |vs| == |cells| && forall i :: 0 <= i < |vs| ==> vs[i] == cells[i].headline.achievedRPS
  {
    seq(|cells|, i requires 0 <= i < |cells| => cells[i].headline.achievedRPS)
  }

  /**
   An arm of a scenario counts its cells that ran and were used, summarises each of the eight quantities
   over the used ones, and relates their throughput to their place in the plan.
   */
  lemma ArmIs(cells: seq<Cell>, id: string, arm: string)
    ensures var a, used := RolledArm(arm, OfArm(OfScenario(cells, id), arm)), Chosen(cells, id, arm);
            && a.arm == arm && a.used == |used| && a.used + a.excluded == a.cells
            && (forall q :: q in a.metrics)
            && (forall q :: a.metrics[q] == Metric(q, Described(Measured(q, used))))
            && a.order == OrderFit(Places(used), Rates(used))
  {
    SelectionIs(cells, id, arm);
    var mine, used := OfArm(OfScenario(cells, id), arm), Chosen(cells, id, arm);
    ClientFiguresAre(used);
    assert Measured(Throughput, used) == Rates(used);
    assert Ordinals(used) == Places(used);
    hide Chosen, Measured, OfArm, OfScenario, Used, OrderFit, Described;
    forall q: Quantity
      ensures q in QUANTITIES
    {
      AllQuantities(q);
    }
    UsedAtMost(mine);
  }

  // ---------- a comparison ----------

  /**
   A comparison is one of the cells given: its counts, medians, change and band are those of the two
   columns of figures, and it is decided with three values a side, a floor of 2 %, and 95 % intervals of
   2000 resamples drawn from the source given.
   */
  ghost predicate IsComparison(c: Comparison, base: seq<Cell>, cells: seq<Cell>, src: Source) {
    var b, a := Measured(c.quantity, base), Measured(c.quantity, cells);
    && Described(b).Some? && Described(a).Some?
    && var sb, sa := Described(b).value, Described(a).value;
       var (cb, src') := Bootstrapped(b, 0.95, 2000, src);
       var ca := Bootstrapped(a, 0.95, 2000, src').0;
       && c.baselineN == |b| && c.armN == |a| && c.baselineMedian == sb.median && c.armMedian == sa.median
       && D.IsChange(c.deltaPct, sb.median, sa.median)
       && c.noiseBandPct >= 2.0 && c.noiseBandPct >= sb.spreadPct && c.noiseBandPct >= sa.spreadPct
       && (c.noiseBandPct == 2.0 || c.noiseBandPct == sb.spreadPct || c.noiseBandPct == sa.spreadPct)
       && (c.decision == Compare.Insufficient <==> |b| < 3 || |a| < 3)
       && (c.decision == Compare.Higher <==> |b| >= 3 && |a| >= 3 && D.Apart(cb, ca) && D.Rises(sb, sa, 2.0))
       && (c.decision == Compare.Lower <==> |b| >= 3 && |a| >= 3 && D.Apart(cb, ca) && D.Falls(sb, sa, 2.0))
  }

  lemma IntervalsDoNotMatter(a: Summary, b: Summary, ca: Option<Interval>, cb: Option<Interval>, floor: real)
    ensures D.Rises(a.(ci := ca), b.(ci := cb), floor) <==> D.Rises(a, b, floor)
    ensures D.Falls(a.(ci := ca), b.(ci := cb), floor) <==> D.Falls(a, b, floor)
  {
  }

  lemma OneComparison(q: Quantity, baseline: string, base: seq<Cell>, arm: string, cells: seq<Cell>, rnd: Source)
    ensures var (cs, rnd') := ComparedOne(q, baseline, base, arm, cells, rnd);
            && rnd'.stream == rnd.stream
            && |cs| == (if Measured(q, base) != [] && Measured(q, cells) != [] then 1 else 0)
            && forall i :: 0 <= i < |cs| ==>
                 cs[i].quantity == q && cs[i].baseline == baseline && cs[i].arm == arm && IsComparison(cs[i], base, cells, rnd)
  {
    var b, a := Measured(q, base), Measured(q, cells);
    if b != [] && a != [] {
      D.DecisionIs(b, a, CONFIG, Some(rnd));
      D.FiguresAre(b, a, CONFIG, Some(rnd));
      D.IntervalsAre(b, a, CONFIG, Some(rnd));
      D.Defined(b);
      D.Defined(a);
      var k := Compare.Compared(b, a, CONFIG, Some(rnd)).0;
      IntervalsDoNotMatter(Described(b).value, Described(a).value, k.a.value.ci, k.b.value.ci, 2.0);
      SameStream(b, a, rnd);
    }
    hide Measured, Described, Bootstrapped, Compare.Compared, D.Rises, D.Falls, D.Apart, D.IsChange, LabelFor;
  }

  lemma SameStream(b: seq<real>, a: seq<real>, rnd: Source)
    ensures var r := Compare.Compared(b, a, CONFIG, Some(rnd)).1; r.Some? && r.value.stream == rnd.stream
  {
    hide Described, Medians, Quantile, Sorting.Sort;
  }

  /** Drawn from some position of the stream. */
  ghost predicate Explained(c: Comparison, base: seq<Cell>, cells: seq<Cell>, stream: nat -> nat) {
    exists src: Source :: src.stream == stream && IsComparison(c, base, cells, src)
  }

  ghost predicate AllExplained(cs: seq<Comparison>, baseline: string, base: seq<Cell>, arm: string, cells: seq<Cell>, stream: nat -> nat) {
    forall i :: 0 <= i < |cs| ==> cs[i].baseline == baseline && cs[i].arm == arm && Explained(cs[i], base, cells, stream)
  }

  function Quantities(cs: seq<Comparison>): (qs: seq<Quantity>)
    ensures |qs| == |cs| && forall i :: 0 <= i < |qs| ==> qs[i] == cs[i].quantity
  {
    seq(|cs|, i requires 0 <= i < |cs| => cs[i].quantity)
  }

  /** The quantities both sides measured, in the order given. */
  function MeasuredByBoth(qs: seq<Quantity>, base: seq<Cell>, cells: seq<Cell>): seq<Quantity> {
    if qs == [] then []
    else
      var n := |qs| - 1;
      MeasuredByBoth(qs[..n], base, cells) + if Measured(qs[n], base) != [] && Measured(qs[n], cells) != [] then [qs[n]] else []
  }

  lemma {:induction false} AllCompared(
    qs: seq<Quantity>, baseline: string, base: seq<Cell>, arm: string, cells: seq<Cell>, rnd: Source)
    ensures var (cs, rnd') := ComparedAll(qs, baseline, base, arm, cells, rnd);
            && rnd'.stream == rnd.stream
            && AllExplained(cs, baseline, base, arm, cells, rnd.stream)
            && Quantities(cs) == MeasuredByBoth(qs, base, cells)
  {
    hide ComparedOne, IsComparison, Measured;
    if qs != [] {
      var n := |qs| - 1;
      AllCompared(qs[..n], baseline, base, arm, cells, rnd);
      var (cs, r) := ComparedAll(qs[..n], baseline, base, arm, cells, rnd);
      OneComparison(qs[n], baseline, base, arm, cells, r);
      var more := ComparedOne(qs[n], baseline, base, arm, cells, r).0;
      assert Quantities(cs + more) == Quantities(cs) + Quantities(more);
    }
  }

  /** The six quantities an arm is compared in, in the order they are drawn. */
  function Six(): seq<Quantity> { [Throughput, ClientP95, ClientP50, ServerMean, CPUPerReq, RSSPeak] }

  /** Between two arms, each of the six quantities that both measured is compared once, in that order. */
  lemma ComparedQuantities(baseline: string, base: seq<Cell>, arm: string, cells: seq<Cell>, rnd: Source)
    ensures Quantities(ComparedAll(COMPARED, baseline, base, arm, cells, rnd).0) == MeasuredByBoth(Six(), base, cells)
  {
    AllCompared(COMPARED, baseline, base, arm, cells, rnd);
    hide ComparedAll, MeasuredByBoth;
  }

  ghost predicate OfMine(c: Comparison, base: string, mine: seq<Cell>, stream: nat -> nat) {
    c.baseline == base && c.arm != base && Explained(c, Used(OfArm(mine, base)), Used(OfArm(mine, c.arm)), stream)
  }

  lemma {:induction false} ArmsCompared(base: string, arms: seq<string>, mine: seq<Cell>, rnd: Source)
    ensures var (cs, rnd') := ComparedArms(base, arms, mine, rnd);
            && rnd'.stream == rnd.stream
            && forall i :: 0 <= i < |cs| ==> OfMine(cs[i], base, mine, rnd.stream) && cs[i].arm in arms
  {
    hide ComparedAll, Explained, Used, OfArm;
    if arms != [] {
      var n := |arms| - 1;
      ArmsCompared(base, arms[..n], mine, rnd);
      var (cs, r) := ComparedArms(base, arms[..n], mine, rnd);
      AllCompared(COMPARED, base, Used(OfArm(mine, base)), arms[n], Used(OfArm(mine, arms[n])), r);
      assert forall a :: a in arms[..n] ==> a in arms;
    }
  }

  /** Each comparison of a scenario: between the baseline and another arm, of the cells chosen for either. */
  ghost predicate OfScenarioCells(c: Comparison, id: string, input: Input, cells: seq<Cell>, stream: nat -> nat) {
    && c.arm != c.baseline
    && (input.baseline != "" ==> c.baseline == input.baseline)
    && Explained(c, Chosen(cells, id, c.baseline), Chosen(cells, id, c.arm), stream)
  }

  lemma ScenarioCompared(id: string, input: Input, cells: seq<Cell>, rnd: Source)
    ensures var (s, rnd') := RolledScenario(id, input, cells, rnd);
            && rnd'.stream == rnd.stream && s.scenario == id
            && forall i :: 0 <= i < |s.comparisons| ==> OfScenarioCells(s.comparisons[i], id, input, cells, rnd.stream)
  {
    var mine := OfScenario(cells, id);
    var order := ArmOrder(input.arms, ArmsIn(mine));
    var base := BaselineOf(input.baseline, order);
    ArmsCompared(base, order, mine, rnd);
    forall arm
      ensures Used(OfArm(mine, arm)) == Chosen(cells, id, arm)
    {
      SelectionIs(cells, id, arm);
    }
    hide ComparedArms, Explained, Used, OfArm, OfScenario, Chosen, ArmOrder, ArmsIn, RolledArm;
  }

  ghost predicate AllOfCells(flat: seq<(string, Comparison)>, input: Input, cells: seq<Cell>, stream: nat -> nat) {
    forall i :: 0 <= i < |flat| ==> OfScenarioCells(flat[i].1, flat[i].0, input, cells, stream)
  }

  lemma {:induction false} ScenariosCompared(ids: seq<string>, input: Input, cells: seq<Cell>, rnd: Source)
    ensures var (ss, rnd') := RolledScenarios(ids, input, cells, rnd);
            rnd'.stream == rnd.stream && AllOfCells(Flat(ss), input, cells, rnd.stream)
  {
    hide RolledScenario, OfScenarioCells, Flat;
    if ids == [] {
      NothingFlat();
    } else {
      var n := |ids| - 1;
      ScenariosCompared(ids[..n], input, cells, rnd);
      var (ss, r) := RolledScenarios(ids[..n], input, cells, rnd);
      ScenarioCompared(ids[n], input, cells, r);
      var s := RolledScenario(ids[n], input, cells, r).0;
      FlatAppend(ss, s);
      MoreOfCells(Flat(ss), s, input, cells, rnd.stream);
    }
  }

  lemma MoreOfCells(flat: seq<(string, Comparison)>, s: ScenarioRollup, input: Input, cells: seq<Cell>, stream: nat -> nat)
    requires AllOfCells(flat, input, cells, stream)
    requires forall i :: 0 <= i < |s.comparisons| ==> OfScenarioCells(s.comparisons[i], s.scenario, input, cells, stream)
    ensures AllOfCells(flat + Tagged(s.scenario, s.comparisons), input, cells, stream)
  {
    hide OfScenarioCells;
    var more := flat + Tagged(s.scenario, s.comparisons);
    forall i | 0 <= i < |more|
      ensures OfScenarioCells(more[i].1, more[i].0, input, cells, stream)
    {
      if i >= |flat| {
        assert more[i] == (s.scenario, s.comparisons[i - |flat|]);
      }
    }
  }

  /** The stream a roll-up draws from: the generator's for the given seed, or for the default where that is 0. */
  function StreamOf(seed: nat, generator: nat -> (nat -> nat)): nat -> nat {
    generator(if seed == 0 then 0x0c70_be9c else seed)
  }

  /** Every comparison of a roll-up is one of the usable cells of its own scenario and of its own two arms. */
  lemma ComparisonsAre(input: Input, cells: seq<Cell>, generator: nat -> (nat -> nat))
    ensures AllOfCells(Flat(RolledUp(input, cells, generator).scenarios), input, cells, StreamOf(input.seed, generator))
  {
    RollupShape(input, cells, generator);
    ScenariosCompared(Names.Sorted(ScenariosIn(cells)), input, cells, SourceFor(input.seed, generator));
    hide RolledUp, RolledScenarios, AllOfCells, ScenariosIn;
  }

  // ---------- a judgement ----------

  /** The arm did worse: less throughput, or more of anything else. */
  predicate Worse(c: Comparison) {
    if c.quantity == Throughput then c.armMedian < c.baselineMedian else c.armMedian > c.baselineMedian
  }

  predicate Better(c: Comparison) {
    if c.quantity == Throughput then c.armMedian > c.baselineMedian else c.armMedian < c.baselineMedian
  }

  predicate Directed(c: Comparison) {
    c.decision == Compare.Higher || c.decision == Compare.Lower
  }

  lemma DirectionIsTheMedians(c: Comparison, base: seq<Cell>, cells: seq<Cell>, src: Source)
    requires IsComparison(c, base, cells, src)
    ensures c.decision == Compare.Higher ==> c.armMedian > c.baselineMedian
    ensures c.decision == Compare.Lower ==> c.armMedian < c.baselineMedian
  {
    var sb, sa := Described(Measured(c.quantity, base)).value, Described(Measured(c.quantity, cells)).value;
    FallsBelow(sb, sa);
    hide Measured, Described, Bootstrapped, D.Apart, D.Falls, D.IsChange, D.ClearRise;
  }

  lemma FallsBelow(a: Summary, b: Summary)
    ensures D.Falls(a, b, 2.0) ==> b.median < a.median
  {
  }

  /**
   A comparison is a regression if and only if a direction was found and the arm did worse, an
   improvement if and only if one was found and it did better; no other label hides a direction.
   */
  lemma JudgementsAre(input: Input, cells: seq<Cell>, generator: nat -> (nat -> nat), i: nat)
    requires i < |Flat(RolledUp(input, cells, generator).scenarios)|
    ensures var c := Flat(RolledUp(input, cells, generator).scenarios)[i].1;
            && (c.judgement == Regression <==> Directed(c) && Worse(c))
            && (c.judgement == Improvement <==> Directed(c) && Better(c))
            && (c.judgement == InsufficientLabel <==> c.decision == Compare.Insufficient)
            && (c.judgement == NoiseLabel <==> c.decision == Compare.Noise)
  {
    ComparisonsAre(input, cells, generator);
    RollupFacts(input, cells, generator);
    hide RolledUp, Flat, IsComparison, Chosen, EvidenceOf, FindingsOf, JudgedScenarios, ScenarioNames;
    var (id, c) := Flat(RolledUp(input, cells, generator).scenarios)[i];
    var stream := StreamOf(input.seed, generator);
    assert Explained(c, Chosen(cells, id, c.baseline), Chosen(cells, id, c.arm), stream);
    var src: Source :| src.stream == stream && IsComparison(c, Chosen(cells, id, c.baseline), Chosen(cells, id, c.arm), src);
    DirectionIsTheMedians(c, Chosen(cells, id, c.baseline), Chosen(cells, id, c.arm), src);
    assert Labelled(c);
  }

  // ---------- findings and counts ----------

  predicate IsFinding(f: Finding, x: (string, Comparison)) {
    f.scenario == x.0 && f.arm == x.1.arm && f.quantity == x.1.quantity && f.deltaPct == x.1.deltaPct
  }

  /** The comparisons of one label, in report order. */
  function OfLabel(flat: seq<(string, Comparison)>, l: Label): seq<(string, Comparison)> {
    if flat == [] then []
    else
      var n := |flat| - 1;
      OfLabel(flat[..n], l) + if flat[n].1.judgement == l then [flat[n]] else []
  }

  /** The findings are the comparisons of their label, each with its scenario, arm, quantity and change. */
  lemma {:induction false} FindingsAre(flat: seq<(string, Comparison)>, l: Label)
    ensures var fs, xs := FindingsOf(flat, l), OfLabel(flat, l);
            |fs| == |xs| && forall i :: 0 <= i < |fs| ==> IsFinding(fs[i], xs[i])
  {
    if flat != [] {
      FindingsAre(flat[..|flat| - 1], l);
    }
  }

  /** The five counts of cells and the three of comparisons count what they name. */
  lemma CountsAre(input: Input, cells: seq<Cell>, generator: nat -> (nat -> nat))
    ensures var r := RolledUp(input, cells, generator);
            var flat := Flat(r.scenarios);
            && r.counts.ran == |cells|
            && r.counts.valid == |set i | 0 <= i < |cells| && cells[i].level == Valid|
            && r.counts.suspect == |set i | 0 <= i < |cells| && cells[i].level == Suspect|
            && r.counts.invalid == r.counts.excluded == |set i | 0 <= i < |cells| && cells[i].level == Invalid|
            && r.evidence.comparisons == |flat| == r.evidence.conclusive + r.evidence.insufficient
            && r.evidence.conclusive == |set i | 0 <= i < |flat| && flat[i].1.decision != Compare.Insufficient|
  {
    RollupShape(input, cells, generator);
    LevelsCounted(cells, Valid);
    LevelsCounted(cells, Suspect);
    LevelsCounted(cells, Invalid);
    DecidedCounted(Flat(RolledUp(input, cells, generator).scenarios));
    CountsFields(cells);
    EvidenceCounts(Flat(RolledUp(input, cells, generator).scenarios));
    hide RolledUp, Flat, CountLevel, FindingsOf, RolledScenarios, ScenariosIn, CountsOf;
  }

  function AtLevel(cells: seq<Cell>, l: Level): set<int> {
    set i | 0 <= i < |cells| && cells[i].level == l
  }

  lemma {:induction false} LevelsCounted(cells: seq<Cell>, l: Level)
    ensures CountLevel(cells, l) == |set i | 0 <= i < |cells| && cells[i].level == l|
  {
    if cells == [] {
      assert AtLevel(cells, l) == {};
    } else {
      var n := |cells| - 1;
      LevelsCounted(cells[..n], l);
      assert AtLevel(cells, l) == AtLevel(cells[..n], l) + if cells[n].level == l then {n} else {};
      assert n !in AtLevel(cells[..n], l);
    }
  }

  function DecidedAt(flat: seq<(string, Comparison)>): set<int> {
    set i | 0 <= i < |flat| && flat[i].1.decision != Compare.Insufficient
  }

  lemma {:induction false} DecidedCounted(flat: seq<(string, Comparison)>)
    ensures |flat| - CountInsufficient(flat) == |set i | 0 <= i < |flat| && flat[i].1.decision != Compare.Insufficient|
  {
    if flat == [] {
      assert DecidedAt(flat) == {};
    } else {
      var n := |flat| - 1;
      DecidedCounted(flat[..n]);
      assert DecidedAt(flat) == DecidedAt(flat[..n]) + if flat[n].1.decision != Compare.Insufficient then {n} else {};
      assert n !in DecidedAt(flat[..n]);
    }
  }

  // ---------- the order of arms ----------

  /** Where a name is first declared. */
  function FirstPlace(declared: seq<string>, a: string): nat {
    if declared == [] || declared[0] == a then 0 else 1 + FirstPlace(declared[1..], a)
  }

  /**
   Arms come in the order they are declared, and those that are not declared after them, in ascending
   order of name.
   */
  lemma ArmsAreInOrder(declared: seq<string>, seen: set<string>, i: nat, j: nat)
    requires i < j < |ArmOrder(declared, seen)|
    ensures var a, b := ArmOrder(declared, seen)[i], ArmOrder(declared, seen)[j];
            && (b in declared ==> a in declared && FirstPlace(declared, a) < FirstPlace(declared, b))
            && (a !in declared ==> b !in declared && Names.Leq(a, b) && a != b)
  {
    var front, rest := DeclaredFirst(declared, seen), Undeclared(declared, seen);
    Names.SortedLists(rest);
    DeclaredInOrder(declared, seen);
    var tail := Names.Sorted(rest);
    assert forall x :: x in rest ==> x !in declared;
    hide DeclaredFirst, Names.Sorted, Names.Leq, FirstPlace, Undeclared;
    InTwoParts(front, tail, i, j);
    assert Names.Ascending(tail);
  }

  lemma InTwoParts(front: seq<string>, tail: seq<string>, i: nat, j: nat)
    requires i < j < |front| + |tail|
    ensures j < |front| ==> (front + tail)[i] == front[i] && (front + tail)[j] == front[j]
    ensures i < |front| <= j ==> (front + tail)[i] == front[i] && (front + tail)[j] == tail[j - |front|] && (front + tail)[j] in tail
    ensures |front| <= i ==>
              && (front + tail)[i] == tail[i - |front|] && (front + tail)[j] == tail[j - |front|]
              && (front + tail)[i] in tail && (front + tail)[j] in tail
  {
  }

  /** Declared names that were seen, in the order they are first declared. */
  predicate AsDeclared(names: seq<string>, declared: seq<string>, seen: set<string>) {
    && (forall k :: 0 <= k < |names| ==> names[k] in declared && names[k] in seen)
    && (forall k, l :: 0 <= k < l < |names| ==> FirstPlace(declared, names[k]) < FirstPlace(declared, names[l]))
  }

  lemma {:induction false} DeclaredInOrder(declared: seq<string>, seen: set<string>)
    ensures AsDeclared(DeclaredFirst(declared, seen), declared, seen)
  {
    if declared != [] {
      var d, later := declared[0], declared[1..];
      var seen' := if d in seen then seen - {d} else seen;
      DeclaredInOrder(later, seen');
      OneMoreDeclared(d, later, seen, DeclaredFirst(later, seen'));
      hide AsDeclared;
      assert declared == [d] + later;
    }
  }

  lemma NextPlace(d: string, later: seq<string>, x: string)
    ensures FirstPlace([d] + later, x) == if x == d then 0 else 1 + FirstPlace(later, x)
  {
    assert ([d] + later)[1..] == later;
  }

  lemma OneMoreDeclared(d: string, later: seq<string>, seen: set<string>, rest: seq<string>)
    requires AsDeclared(rest, later, if d in seen then seen - {d} else seen)
    ensures AsDeclared(if d in seen then [d] + rest else rest, [d] + later, seen)
  {
    hide FirstPlace;
    forall k | 0 <= k < |rest|
      ensures rest[k] != d && rest[k] in [d] + later && rest[k] in seen
      ensures FirstPlace([d] + later, rest[k]) == 1 + FirstPlace(later, rest[k])
    {
      NextPlace(d, later, rest[k]);
    }
    NextPlace(d, later, d);
  }
}
