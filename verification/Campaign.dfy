/**
 The campaign roll-up (result/campaign.go): cells that ran, aggregated per scenario and arm and
 compared against a baseline, with one random source threaded through every comparison.
 */
module Campaign {
  import opened Options
  import opened Randomness
  import Describe
  import Compare
  import Names

  datatype Level = Valid | Suspect | Invalid

  datatype Headline = Headline(
    achievedRPS: real, clientP50: real, clientP95: real, clientP99: real, serverMean: real, hasServerMean: bool,
    cpuPerRequest: real, rssPeak: real, coldStart: real)

  datatype Cell = Cell(scenario: string, arm: string, ordinal: int, level: Level, headline: Headline)

  /** The declared side of a campaign: its baseline, its arms in order, and the seed of its resampling. */
  datatype Input = Input(baseline: string, arms: seq<string>, seed: nat)

  datatype Quantity = Throughput | ClientP50 | ClientP95 | ClientP99 | ServerMean | CPUPerReq | RSSPeak | ColdStart

  /** The quantities compared between arms, in the order they draw on the random source. */
  const COMPARED: seq<Quantity> := [Throughput, ClientP95, ClientP50, ServerMean, CPUPerReq, RSSPeak]

  const CONFIG: Compare.Config := Compare.Config(2.0, 3, 0.95, 2000)

  const DEFAULT_SEED: nat := 0x0c70_be9c

  function LowerIsBetter(q: Quantity): bool { q != Throughput }

  /** A quantity a cell did not measure is absent, never zero. */
  function Pick(q: Quantity, c: Cell): Option<real> {
    var h := c.headline;
    match q
    case Throughput => Some(h.achievedRPS)
    case ClientP50 => Some(h.clientP50)
    case ClientP95 => Some(h.clientP95)
    case ClientP99 => Some(h.clientP99)
    case ServerMean => if h.hasServerMean then Some(h.serverMean) else None
    case CPUPerReq => if h.cpuPerRequest > 0.0 then Some(h.cpuPerRequest) else None
    case RSSPeak => if h.rssPeak > 0.0 then Some(h.rssPeak) else None
    case ColdStart => if h.coldStart > 0.0 then Some(h.coldStart) else None
  }

  predicate Usable(c: Cell) { c.level != Invalid }

  // ---------- selecting cells ----------

  function Used(cells: seq<Cell>): seq<Cell> {
    if cells == [] then []
    else if Usable(cells[0]) then [cells[0]] + Used(cells[1..])
    else Used(cells[1..])
  }

  function OfScenario(cells: seq<Cell>, id: string): seq<Cell> {
    if cells == [] then []
    else if cells[0].scenario == id then [cells[0]] + OfScenario(cells[1..], id)
    else OfScenario(cells[1..], id)
  }

  function OfArm(cells: seq<Cell>, arm: string): seq<Cell> {
    if cells == [] then []
    else if cells[0].arm == arm then [cells[0]] + OfArm(cells[1..], arm)
    else OfArm(cells[1..], arm)
  }

  function Measured(q: Quantity, cells: seq<Cell>): seq<real> {
    if cells == [] then []
    else
      match Pick(q, cells[0])
      case Some(v) => [v] + Measured(q, cells[1..])
      case None => Measured(q, cells[1..])
  }

  function ArmsIn(cells: seq<Cell>): set<string> { set c | c in cells :: c.arm }

  function ScenariosIn(cells: seq<Cell>): set<string> { set c | c in cells :: c.scenario }

  /** The declared arms that occur, in declared order and once each. */
  function DeclaredFirst(declared: seq<string>, seen: set<string>): seq<string> {
    if declared == [] then []
    else if declared[0] in seen then [declared[0]] + DeclaredFirst(declared[1..], seen - {declared[0]})
    else DeclaredFirst(declared[1..], seen)
  }

  function Undeclared(declared: seq<string>, seen: set<string>): set<string> {
    seen - (set d | d in declared)
  }

  function ArmOrder(declared: seq<string>, seen: set<string>): seq<string> {
    DeclaredFirst(declared, seen) + Names.Sorted(Undeclared(declared, seen))
  }

  // ---------- the model ----------

  datatype Metric = Metric(quantity: Quantity, summary: Option<Describe.Summary>)

  datatype ArmRollup = ArmRollup(
    arm: string, cells: nat, used: nat, excluded: nat, metrics: map<Quantity, Metric>, order: Option<Describe.Order>)

  datatype Label = NoiseLabel | InsufficientLabel | Regression | Improvement

  datatype Comparison = Comparison(
    quantity: Quantity, baseline: string, arm: string, baselineMedian: real, armMedian: real,
    deltaPct: real, noiseBandPct: real, decision: Compare.Decision, judgement: Label, baselineN: nat, armN: nat)

  datatype ScenarioRollup = ScenarioRollup(scenario: string, arms: seq<ArmRollup>, comparisons: seq<Comparison>)

  datatype Counts = Counts(ran: nat, valid: nat, suspect: nat, invalid: nat, excluded: nat)
  datatype Evidence = Evidence(comparisons: nat, conclusive: nat, insufficient: nat)
  datatype Finding = Finding(scenario: string, arm: string, quantity: Quantity, deltaPct: real)

  datatype Rollup = Rollup(
    counts: Counts, scenarios: seq<ScenarioRollup>, evidence: Evidence,
    regressions: seq<Finding>, improvements: seq<Finding>)

  function LabelFor(d: Compare.Decision, lowerIsBetter: bool): Label {
    match d
    case Noise => NoiseLabel
    case Insufficient => InsufficientLabel
    case Higher => if lowerIsBetter then Regression else Improvement
    case Lower => if lowerIsBetter then Improvement else Regression
  }

  function MetricOf(q: Quantity, used: seq<Cell>): Metric {
    Metric(q, Describe.Described(Measured(q, used)))
  }

  function Ordinals(cells: seq<Cell>): (r: seq<int>)
    ensures |r| == |cells|
  {
    seq(|cells|, i requires 0 <= i < |cells| => cells[i].ordinal)
  }

  const QUANTITIES: set<Quantity> := {Throughput, ClientP50, ClientP95, ClientP99, ServerMean, CPUPerReq, RSSPeak, ColdStart}

  function RolledArm(arm: string, cells: seq<Cell>): ArmRollup {
    var used := Used(cells);
    UsedAtMost(cells);
    ArmRollup(arm, |cells|, |used|, |cells| - |used|,
              map q | q in QUANTITIES :: MetricOf(q, used),
              Describe.OrderFit(Ordinals(used), Measured(Throughput, used)))
  }

  lemma {:induction false} UsedAtMost(cells: seq<Cell>)
    ensures |Used(cells)| <= |cells|
  {
    if cells != [] {
      UsedAtMost(cells[1..]);
    }
  }

  /** One quantity, when both sides measured it; nothing, and no draw, when one did not. */
  function ComparedOne(q: Quantity, baseline: string, base: seq<Cell>, arm: string, cells: seq<Cell>, rnd: Source)
    : (seq<Comparison>, Source)
  {
    var b, a := Measured(q, base), Measured(q, cells);
    if b == [] || a == [] then ([], rnd)
    else
      var (c, r) := Compare.Compared(b, a, CONFIG, Some(rnd));
      var sb, sa := Describe.Described(b).value, Describe.Described(a).value;
      ([Comparison(q, baseline, arm, sb.median, sa.median, c.deltaPct, c.bandPct, c.decision,
                   LabelFor(c.decision, LowerIsBetter(q)), sb.n, sa.n)],
       if r.Some? then r.value else rnd)
  }

  /** The quantities qs in turn, between two sets of used cells. */
  function ComparedAll(qs: seq<Quantity>, baseline: string, base: seq<Cell>, arm: string, cells: seq<Cell>, rnd: Source)
    : (seq<Comparison>, Source)
  {
    if qs == [] then ([], rnd)
    else
      var (cs, r) := ComparedAll(qs[..|qs| - 1], baseline, base, arm, cells, rnd);
      var (c, r') := ComparedOne(qs[|qs| - 1], baseline, base, arm, cells, r);
      (cs + c, r')
  }

  /** Every arm but the baseline, in turn, against the baseline's cells. */
  function ComparedArms(base: string, arms: seq<string>, mine: seq<Cell>, rnd: Source): (seq<Comparison>, Source) {
    if arms == [] then ([], rnd)
    else
      var n := |arms| - 1;
      var (cs, r) := ComparedArms(base, arms[..n], mine, rnd);
      if arms[n] == base then (cs, r)
      else
        var (c, r') := ComparedAll(COMPARED, base, Used(OfArm(mine, base)), arms[n], Used(OfArm(mine, arms[n])), r);
        (cs + c, r')
  }

  function BaselineOf(declared: string, order: seq<string>): string {
    if declared == "" && order != [] then order[0] else declared
  }

  function RolledScenario(id: string, input: Input, cells: seq<Cell>, rnd: Source): (ScenarioRollup, Source) {
    var mine := OfScenario(cells, id);
    var order := ArmOrder(input.arms, ArmsIn(mine));
    var (cs, r) := ComparedArms(BaselineOf(input.baseline, order), order, mine, rnd);
    (ScenarioRollup(id, seq(|order|, i requires 0 <= i < |order| => RolledArm(order[i], OfArm(mine, order[i]))), cs), r)
  }

  function RolledScenarios(ids: seq<string>, input: Input, cells: seq<Cell>, rnd: Source): (seq<ScenarioRollup>, Source) {
    if ids == [] then ([], rnd)
    else
      var n := |ids| - 1;
      var (ss, r) := RolledScenarios(ids[..n], input, cells, rnd);
      var (s, r') := RolledScenario(ids[n], input, cells, r);
      (ss + [s], r')
  }

  function CountLevel(cells: seq<Cell>, level: Level): nat {
    if cells == [] then 0
    else CountLevel(cells[..|cells| - 1], level) + if cells[|cells| - 1].level == level then 1 else 0
  }

  function CountsOf(cells: seq<Cell>): Counts {
    Counts(|cells|, CountLevel(cells, Valid), CountLevel(cells, Suspect), CountLevel(cells, Invalid), CountLevel(cells, Invalid))
  }

  /** Every comparison of a roll-up with the scenario it belongs to, in report order. */
  function Flat(ss: seq<ScenarioRollup>): seq<(string, Comparison)> {
    if ss == [] then []
    else
      var n := |ss| - 1;
      Flat(ss[..n]) + Tagged(ss[n].scenario, ss[n].comparisons)
  }

  function Tagged(id: string, cs: seq<Comparison>): seq<(string, Comparison)> {
    seq(|cs|, i requires 0 <= i < |cs| => (id, cs[i]))
  }

  function FindingsOf(flat: seq<(string, Comparison)>, wanted: Label): seq<Finding> {
    if flat == [] then []
    else
      var n := |flat| - 1;
      var (id, c) := flat[n];
      FindingsOf(flat[..n], wanted) + if c.judgement == wanted then [Finding(id, c.arm, c.quantity, c.deltaPct)] else []
  }

  function CountInsufficient(flat: seq<(string, Comparison)>): nat {
    if flat == [] then 0
    else
      var n := |flat| - 1;
      CountInsufficient(flat[..n]) + if flat[n].1.decision == Compare.Insufficient then 1 else 0
  }

  lemma {:induction false} InsufficientAtMost(flat: seq<(string, Comparison)>)
    ensures CountInsufficient(flat) <= |flat|
  {
    if flat != [] {
      InsufficientAtMost(flat[..|flat| - 1]);
    }
  }

  function EvidenceOf(flat: seq<(string, Comparison)>): Evidence {
    InsufficientAtMost(flat);
    Evidence(|flat|, |flat| - CountInsufficient(flat), CountInsufficient(flat))
  }

  /** Seed zero stands for the default; the generator is any function from seeds to streams. */
  function SourceFor(seed: nat, generator: nat -> (nat -> nat)): Source {
    Source(generator(if seed == 0 then DEFAULT_SEED else seed), 0)
  }

  function RolledUp(input: Input, cells: seq<Cell>, generator: nat -> (nat -> nat)): Rollup {
    if cells == [] then Rollup(CountsOf(cells), [], Evidence(0, 0, 0), [], [])
    else
      var ss := RolledScenarios(Names.Sorted(ScenariosIn(cells)), input, cells, SourceFor(input.seed, generator)).0;
      Rollup(CountsOf(cells), ss, EvidenceOf(Flat(ss)), FindingsOf(Flat(ss), Regression), FindingsOf(Flat(ss), Improvement))
  }

  // ---------- the loops ----------

  method ComputeMetric(q: Quantity, used: seq<Cell>) returns (m: Metric)
    ensures m == MetricOf(q, used)
  {
    hide Pick, Describe.Described;
    var vals: seq<real> := [];
    for i := 0 to |used|
      invariant vals + Measured(q, used[i..]) == Measured(q, used)
    {
      assert used[i..][1..] == used[i + 1..];
      match Pick(q, used[i]) {
        case Some(v) => vals := vals + [v];
        case None =>
      }
    }
    assert used[|used|..] == [] && vals == Measured(q, used);
    DescribedNothing();
    if |vals| == 0 { return Metric(q, None); }
    var s := Describe.Describe(vals);
    m := Metric(q, s);
  }

  lemma DescribedNothing()
    ensures Describe.Described([]) == None
  {
  }

  method SplitUsed(cells: seq<Cell>) returns (used: seq<Cell>, excluded: nat)
    ensures used == Used(cells) && |used| + excluded == |cells|
  {
    used, excluded := [], 0;
    for i := 0 to |cells|
      invariant used + Used(cells[i..]) == Used(cells)
      invariant |used| + excluded == i
    {
      assert cells[i..][1..] == cells[i + 1..];
      if Usable(cells[i]) {
        used := used + [cells[i]];
      } else {
        excluded := excluded + 1;
      }
    }
  }

  method Positions(used: seq<Cell>) returns (ords: seq<int>, vals: seq<real>)
    ensures ords == Ordinals(used) && vals == Measured(Throughput, used)
  {
    hide Pick;
    ords, vals := [], [];
    for i := 0 to |used|
      invariant ords == Ordinals(used)[..i]
      invariant vals + Measured(Throughput, used[i..]) == Measured(Throughput, used)
    {
      assert used[i..][1..] == used[i + 1..];
      PickThroughput(used[i]);
      ords := ords + [used[i].ordinal];
      vals := vals + [used[i].headline.achievedRPS];
    }
  }

  method ComputeArm(arm: string, cells: seq<Cell>) returns (a: ArmRollup)
    ensures a == RolledArm(arm, cells)
  {
    hide MetricOf, Describe.OrderFit, Pick, Used, Ordinals, Measured;
    var used, excluded := SplitUsed(cells);
    var throughput := ComputeMetric(Throughput, used);
    var p50 := ComputeMetric(ClientP50, used);
    var p95 := ComputeMetric(ClientP95, used);
    var p99 := ComputeMetric(ClientP99, used);
    var serverMean := ComputeMetric(ServerMean, used);
    var cpu := ComputeMetric(CPUPerReq, used);
    var rss := ComputeMetric(RSSPeak, used);
    var cold := ComputeMetric(ColdStart, used);
    var metrics := map[Throughput := throughput, ClientP50 := p50, ClientP95 := p95, ClientP99 := p99,
                       ServerMean := serverMean, CPUPerReq := cpu, RSSPeak := rss, ColdStart := cold];
    assert metrics == map q | q in QUANTITIES :: MetricOf(q, used);
    var ords, vals := Positions(used);
    var order := Describe.OrderEffect(ords, vals);
    a := ArmRollup(arm, |cells|, |used|, excluded, metrics, order);
  }

  lemma PickThroughput(c: Cell)
    ensures Pick(Throughput, c) == Some(c.headline.achievedRPS)
  {
  }

  method CompareArms(baseName: string, base: seq<Cell>, arm: ArmRollup, armCells: seq<Cell>, rnd: Rand)
    returns (out: seq<Comparison>)
    requires arm == RolledArm(arm.arm, armCells)
    modifies rnd
    ensures (out, rnd.State()) == ComparedAll(COMPARED, baseName, Used(base), arm.arm, Used(armCells), old(rnd.State()))
  {
    var baseRollup := ComputeArm(baseName, base);
    out := [];
    for i := 0 to |COMPARED|
      invariant (out, rnd.State()) == ComparedAll(COMPARED[..i], baseName, Used(base), arm.arm, Used(armCells), old(rnd.State()))
    {
      hide Describe.Described, Compare.Compared, Used, Measured;
      var q := COMPARED[i];
      assert COMPARED[..i + 1][..i] == COMPARED[..i];
      AllQuantities(q);
      var b, a := baseRollup.metrics[q], arm.metrics[q];
      PresentIff(q, Used(base));
      PresentIff(q, Used(armCells));
      if b.summary.None? || a.summary.None? {
        assert out + [] == out;
        continue;
      }
      var sb, sa := b.summary.value, a.summary.value;
      var c := Compare.Compare(sb.values, sa.values, CONFIG, rnd);
      out := out + [Comparison(q, baseName, arm.arm, sb.median, sa.median, c.deltaPct, c.bandPct, c.decision,
                               LabelFor(c.decision, LowerIsBetter(q)), sb.n, sa.n)];
    }
    assert COMPARED[..|COMPARED|] == COMPARED;
  }

  lemma AllQuantities(q: Quantity)
    ensures q in QUANTITIES
  {
  }

  /** A metric is present exactly when some cell measured it, and then keeps every value in order. */
  lemma PresentIff(q: Quantity, used: seq<Cell>)
    ensures MetricOf(q, used).summary == Describe.Described(Measured(q, used))
    ensures Describe.Described(Measured(q, used)).Some? <==> Measured(q, used) != []
    ensures Measured(q, used) != [] ==> Describe.Described(Measured(q, used)).value.values == Measured(q, used)
  {
  }

  method SeenArms(cells: seq<Cell>) returns (seen: set<string>)
    ensures seen == ArmsIn(cells)
  {
    seen := {};
    for i := 0 to |cells|
      invariant seen == ArmsIn(cells[..i])
    {
      assert cells[..i + 1] == cells[..i] + [cells[i]];
      seen := seen + {cells[i].arm};
    }
    assert cells[..|cells|] == cells;
  }

  lemma DeclaredStep(declared: seq<string>, i: nat, seen: set<string>)
    requires i < |declared|
    ensures var d, rest := declared[i], declared[i + 1..];
            && DeclaredFirst(declared[i..], seen)
               == (if d in seen then [d] + DeclaredFirst(rest, seen - {d}) else DeclaredFirst(rest, seen))
            && Undeclared(declared[i..], seen) == Undeclared(rest, if d in seen then seen - {d} else seen)
  {
    assert declared[i..][1..] == declared[i + 1..];
    assert declared[i..] == [declared[i]] + declared[i + 1..];
  }

  lemma NothingDeclared(declared: seq<string>, seen: set<string>)
    ensures DeclaredFirst(declared[|declared|..], seen) == [] && Undeclared(declared[|declared|..], seen) == seen
    ensures declared[0..] == declared
  {
  }

  method ComputeArmOrder(declared: seq<string>, cells: seq<Cell>) returns (order: seq<string>)
    ensures order == ArmOrder(declared, ArmsIn(cells))
  {
    hide DeclaredFirst, Undeclared, ArmsIn, Names.Sorted;
    var seen := SeenArms(cells);
    ghost var all := seen;
    order := [];
    NothingDeclared(declared, seen);
    for i := 0 to |declared|
      invariant order + DeclaredFirst(declared[i..], seen) == DeclaredFirst(declared, all)
      invariant Undeclared(declared[i..], seen) == Undeclared(declared, all)
    {
      var d := declared[i];
      DeclaredStep(declared, i, seen);
      if d in seen {
        ghost var rest := DeclaredFirst(declared[i + 1..], seen - {d});
        assert order + ([d] + rest) == (order + [d]) + rest;
        order := order + [d];
        seen := seen - {d};
      }
    }
    NothingDeclared(declared, seen);
    assert order == DeclaredFirst(declared, all);
    order := order + Names.Sorted(seen);
  }

  lemma {:induction false} OfArmAppend(cells: seq<Cell>, c: Cell, arm: string)
    ensures OfArm(cells + [c], arm) == OfArm(cells, arm) + if c.arm == arm then [c] else []
  {
    if cells == [] {
      assert [] + [c] == [c] && OfArm([c][1..], arm) == [];
    } else {
      assert (cells + [c])[1..] == cells[1..] + [c];
      OfArmAppend(cells[1..], c, arm);
    }
  }

  /** A missing key reads as no cells. */
  function Lookup(byArm: map<string, seq<Cell>>, arm: string): seq<Cell> {
    if arm in byArm then byArm[arm] else []
  }

  method GroupByArm(mine: seq<Cell>) returns (byArm: map<string, seq<Cell>>)
    ensures forall a :: Lookup(byArm, a) == OfArm(mine, a)
  {
    byArm := map[];
    for i := 0 to |mine|
      invariant forall a :: Lookup(byArm, a) == OfArm(mine[..i], a)
    {
      hide OfArm;
      assert mine[..i + 1] == mine[..i] + [mine[i]];
      forall a
        ensures OfArm(mine[..i + 1], a) == if mine[i].arm == a then OfArm(mine[..i], a) + [mine[i]] else OfArm(mine[..i], a)
      {
        OfArmAppend(mine[..i], mine[i], a);
        assert OfArm(mine[..i], a) + [] == OfArm(mine[..i], a);
      }
      ghost var was := byArm;
      byArm := byArm[mine[i].arm := Lookup(byArm, mine[i].arm) + [mine[i]]];
      forall a
        ensures Lookup(byArm, a) == OfArm(mine[..i + 1], a)
      {
        assert Lookup(was, a) == OfArm(mine[..i], a);
        assert Lookup(byArm, a) == if a == mine[i].arm then Lookup(was, a) + [mine[i]] else Lookup(was, a);
      }
    }
    assert mine[..|mine|] == mine;
  }

  method ComputeScenario(id: string, input: Input, cells: seq<Cell>, rnd: Rand) returns (s: ScenarioRollup)
    modifies rnd
    ensures (s, rnd.State()) == RolledScenario(id, input, cells, old(rnd.State()))
  {
    hide ComparedAll, RolledArm, Used, ArmOrder, OfArm, Lookup, ArmsIn;
    var mine: seq<Cell> := [];
    for i := 0 to |cells|
      invariant mine + OfScenario(cells[i..], id) == OfScenario(cells, id)
    {
      assert cells[i..][1..] == cells[i + 1..];
      if cells[i].scenario == id { mine := mine + [cells[i]]; }
    }
    assert mine == OfScenario(cells, id);
    var byArm := GroupByArm(mine);
    var order := ComputeArmOrder(input.arms, mine);
    var arms := ComputeArms(order, mine, byArm);
    var base := input.baseline;
    if base == "" && |arms| > 0 {
      RolledArmName(order[0], OfArm(mine, order[0]));
      base := arms[0].arm;
    }
    var comparisons: seq<Comparison> := [];
    for i := 0 to |arms|
      invariant (comparisons, rnd.State()) == ComparedArms(base, order[..i], mine, old(rnd.State()))
    {
      RolledArmName(order[i], OfArm(mine, order[i]));
      assert order[..i + 1][..i] == order[..i];
      if arms[i].arm == base { continue; }
      var cs := CompareArms(base, Lookup(byArm, base), arms[i], Lookup(byArm, order[i]), rnd);
      comparisons := comparisons + cs;
    }
    assert order[..|order|] == order;
    assert arms == seq(|order|, i requires 0 <= i < |order| => RolledArm(order[i], OfArm(mine, order[i])));
    s := ScenarioRollup(id, arms, comparisons);
  }

  method ComputeArms(order: seq<string>, ghost mine: seq<Cell>, byArm: map<string, seq<Cell>>) returns (arms: seq<ArmRollup>)
    requires forall a :: Lookup(byArm, a) == OfArm(mine, a)
    ensures |arms| == |order| && forall k :: 0 <= k < |order| ==> arms[k] == RolledArm(order[k], OfArm(mine, order[k]))
  {
    hide RolledArm, OfArm, Lookup;
    arms := [];
    for i := 0 to |order|
      invariant |arms| == i && forall k :: 0 <= k < i ==> arms[k] == RolledArm(order[k], OfArm(mine, order[k]))
    {
      var a := ComputeArm(order[i], Lookup(byArm, order[i]));
      arms := arms + [a];
    }
  }

  lemma RolledArmName(arm: string, cells: seq<Cell>)
    ensures RolledArm(arm, cells).arm == arm
  {
  }

  method CountVerdicts(cells: seq<Cell>) returns (c: Counts)
    ensures c == CountsOf(cells)
  {
    var valid, suspect, invalid, excluded := 0, 0, 0, 0;
    for i := 0 to |cells|
      invariant valid == CountLevel(cells[..i], Valid) && suspect == CountLevel(cells[..i], Suspect)
      invariant invalid == excluded == CountLevel(cells[..i], Invalid)
    {
      assert cells[..i + 1][..i] == cells[..i];
      match cells[i].level {
        case Valid => valid := valid + 1;
        case Suspect => suspect := suspect + 1;
        case Invalid => invalid := invalid + 1;
      }
      if !Usable(cells[i]) { excluded := excluded + 1; }
    }
    assert cells[..|cells|] == cells;
    c := Counts(|cells|, valid, suspect, invalid, excluded);
  }

  method ScenarioOrder(cells: seq<Cell>) returns (ids: seq<string>)
    ensures ids == Names.Sorted(ScenariosIn(cells))
  {
    var found: set<string> := {};
    for i := 0 to |cells|
      invariant found == ScenariosIn(cells[..i])
    {
      assert cells[..i + 1] == cells[..i] + [cells[i]];
      if cells[i].scenario !in found { found := found + {cells[i].scenario}; }
    }
    assert cells[..|cells|] == cells;
    ids := Names.Sorted(found);
  }

  lemma FlatStep(ss: seq<ScenarioRollup>, i: nat)
    requires i < |ss|
    ensures Flat(ss[..i + 1]) == Flat(ss[..i]) + Tagged(ss[i].scenario, ss[i].comparisons)
  {
    assert ss[..i + 1][..i] == ss[..i];
  }

  lemma ConcludeStep(flat: seq<(string, Comparison)>, id: string, c: Comparison)
    ensures forall l :: FindingsOf(flat + [(id, c)], l)
                     == FindingsOf(flat, l) + if c.judgement == l then [Finding(id, c.arm, c.quantity, c.deltaPct)] else []
    ensures CountInsufficient(flat + [(id, c)]) == CountInsufficient(flat) + if c.decision == Compare.Insufficient then 1 else 0
  {
    assert (flat + [(id, c)])[..|flat|] == flat;
  }

  lemma TagStep(flat: seq<(string, Comparison)>, id: string, cs: seq<Comparison>, j: nat)
    requires j < |cs|
    ensures flat + Tagged(id, cs[..j + 1]) == flat + Tagged(id, cs[..j]) + [(id, cs[j])]
  {
  }

  lemma TagEnds(flat: seq<(string, Comparison)>, id: string, cs: seq<Comparison>)
    ensures flat + Tagged(id, cs[..0]) == flat && cs[..|cs|] == cs
  {
  }

  /** The nested loops over scenarios and comparisons, deciding findings and counting evidence. */
  method Conclude(ss: seq<ScenarioRollup>) returns (e: Evidence, regressions: seq<Finding>, improvements: seq<Finding>)
    ensures e == EvidenceOf(Flat(ss))
    ensures regressions == FindingsOf(Flat(ss), Regression) && improvements == FindingsOf(Flat(ss), Improvement)
  {
    regressions, improvements := [], [];
    var comparisons, conclusive, insufficient := 0, 0, 0;
    ghost var flat: seq<(string, Comparison)> := [];
    for i := 0 to |ss|
      invariant flat == Flat(ss[..i])
      invariant comparisons == |flat| && insufficient == CountInsufficient(flat) && conclusive == comparisons - insufficient
      invariant regressions == FindingsOf(flat, Regression) && improvements == FindingsOf(flat, Improvement)
    {
      FlatStep(ss, i);
      hide *;
      var s := ss[i];
      ghost var before := flat;
      TagEnds(before, s.scenario, s.comparisons);
      for j := 0 to |s.comparisons|
        invariant flat == before + Tagged(s.scenario, s.comparisons[..j])
        invariant comparisons == |flat| && insufficient == CountInsufficient(flat) && conclusive == comparisons - insufficient
        invariant regressions == FindingsOf(flat, Regression) && improvements == FindingsOf(flat, Improvement)
      {
        var c := s.comparisons[j];
        ghost var prev := flat;
        TagStep(before, s.scenario, s.comparisons, j);
        flat := flat + [(s.scenario, c)];
        ConcludeStep(prev, s.scenario, c);
        var f := Finding(s.scenario, c.arm, c.quantity, c.deltaPct);
        if c.judgement == Regression {
          regressions := regressions + [f];
        } else if c.judgement == Improvement {
          improvements := improvements + [f];
        }
        comparisons := comparisons + 1;
        if c.decision == Compare.Insufficient {
          insufficient := insufficient + 1;
        } else {
          conclusive := conclusive + 1;
        }
      }
    }
    assert ss[..|ss|] == ss;
    e := Evidence(comparisons, conclusive, insufficient);
  }

  method ComputeRollup(input: Input, cells: seq<Cell>, generator: nat -> (nat -> nat)) returns (r: Rollup)
    ensures r == RolledUp(input, cells, generator)
  {
    hide RolledScenario, CountsOf, EvidenceOf, FindingsOf, Flat;
    var rnd := new Rand(generator(if input.seed == 0 then DEFAULT_SEED else input.seed));
    var counts := CountVerdicts(cells);
    if |cells| == 0 { return Rollup(counts, [], Evidence(0, 0, 0), [], []); }
    var ids := ScenarioOrder(cells);
    var ss: seq<ScenarioRollup> := [];
    for i := 0 to |ids|
      invariant (ss, rnd.State()) == RolledScenarios(ids[..i], input, cells, SourceFor(input.seed, generator))
    {
      assert ids[..i + 1][..i] == ids[..i];
      var s := ComputeScenario(ids[i], input, cells, rnd);
      ss := ss + [s];
    }
    assert ids[..|ids|] == ids;
    var e, regressions, improvements := Conclude(ss);
    r := Rollup(counts, ss, e, regressions, improvements);
  }
}
