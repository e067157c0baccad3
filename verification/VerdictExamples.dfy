/** Campaigns whose leading sentence claims more than their comparisons show (result/campaign.go). */
module VerdictExamples {
  import opened Campaign
  import opened CampaignProperties
  import opened Describe
  import opened Options
  import opened Randomness
  import opened Verdicts
  import opened VerdictClaims
  import Compare
  import Names

  // ---------- two arms that differ in throughput alone ----------

  /** Repetitions of one value have nothing but that value in their summary. */
  lemma ThreeAlike(x: real)
    ensures Described([x, x, x]).Some?
    ensures var s := Described([x, x, x]).value; s.n == 3 && s.min == s.median == s.max == x && s.spreadPct == SpreadPct(x, x, x)
  {
    SummaryOrdered([x, x, x]);
    hide Quantile, SpreadPct, Deviations;
    var s := Described([x, x, x]).value;
    assert s.min in [x, x, x] && s.max in [x, x, x];
  }

  predicate Apart(x: real, y: real) {
    (x == 1.0 && y == 10.0) || (x == 10.0 && y == 1.0)
  }

  lemma FarFromNoise(x: real, y: real)
    requires Apart(x, y)
    ensures SpreadPct(x, x, x) == 0.0
    ensures var d := Compare.DeltaPct(x, y); (d > 0.0 <==> y > x) && !(-2.0 < d < 2.0)
  {
  }

  /** Three repetitions of either are told apart, whatever the source deals. */
  lemma ToldApart(x: real, y: real, rnd: Source)
    requires Apart(x, y)
    ensures Compare.Compared([x, x, x], [y, y, y], CONFIG, Some(rnd)).0.decision == if y > x then Compare.Higher else Compare.Lower
  {
    ThreeAlike(x);
    ThreeAlike(y);
    FarFromNoise(x, y);
    var (ca, r) := Bootstrapped([x, x, x], CONFIG.level, CONFIG.iters, rnd);
    BootstrapInRange([x, x, x], CONFIG.level, CONFIG.iters, rnd);
    BootstrapInRange([y, y, y], CONFIG.level, CONFIG.iters, r);
    hide Described, Bootstrapped, Compare.DeltaPct, SpreadPct;
  }

  predicate DifferInThroughput(base: seq<Cell>, cells: seq<Cell>, x: real, y: real) {
    && Measured(Throughput, base) == [x, x, x] && Measured(Throughput, cells) == [y, y, y]
    && forall q :: q != Throughput ==> Measured(q, base) == Measured(q, cells)
  }

  lemma LabelFollows(q: Quantity, baseline: string, base: seq<Cell>, arm: string, cells: seq<Cell>, rnd: Source)
    requires Measured(q, base) != [] && Measured(q, cells) != []
    ensures var cs := ComparedOne(q, baseline, base, arm, cells, rnd).0;
            var d := Compare.Compared(Measured(q, base), Measured(q, cells), CONFIG, Some(rnd)).0.decision;
            |cs| == 1 && cs[0].judgement == LabelFor(d, LowerIsBetter(q))
  {
    hide Compare.Compared, Measured, Described, LabelFor;
  }

  lemma NothingMeasured(q: Quantity, baseline: string, base: seq<Cell>, arm: string, cells: seq<Cell>, rnd: Source)
    requires Measured(q, base) == [] || Measured(q, cells) == []
    ensures ComparedOne(q, baseline, base, arm, cells, rnd).0 == []
  {
    hide Measured;
  }

  lemma LabelsOfDecisions(d: Compare.Decision)
    ensures LabelFor(d, false) == Improvement <==> d == Compare.Higher
    ensures LabelFor(d, false) == Regression <==> d == Compare.Lower
    ensures forall b :: !Compare.Significant(d) ==> LabelFor(d, b) != Regression && LabelFor(d, b) != Improvement
  {
  }

  lemma OneSided(q: Quantity, baseline: string, base: seq<Cell>, arm: string, cells: seq<Cell>, rnd: Source, x: real, y: real)
    requires Apart(x, y) && DifferInThroughput(base, cells, x, y)
    ensures var cs := ComparedOne(q, baseline, base, arm, cells, rnd).0;
            && |cs| <= 1 && (q == Throughput ==> |cs| == 1)
            && forall c :: c in cs ==>
                 if q == Throughput then c.judgement == (if y > x then Improvement else Regression)
                 else c.judgement != Regression && c.judgement != Improvement
  {
    hide Compare.Compared, Compare.Significant, ComparedOne, Measured, LabelFor;
    if Measured(q, base) == [] || Measured(q, cells) == [] {
      NothingMeasured(q, baseline, base, arm, cells, rnd);
    } else {
      LabelFollows(q, baseline, base, arm, cells, rnd);
      LabelsOfDecisions(Compare.Compared(Measured(q, base), Measured(q, cells), CONFIG, Some(rnd)).0.decision);
      if q == Throughput {
        ToldApart(x, y, rnd);
      } else {
        Compare.PermutationsNeverDiffer(Measured(q, base), Measured(q, cells), CONFIG, Some(rnd));
      }
    }
  }

  /** Of all the comparisons of two such arms, only the one of throughput is a finding. */
  lemma {:induction false} OnlyThroughput(
    qs: seq<Quantity>, baseline: string, base: seq<Cell>, arm: string, cells: seq<Cell>, rnd: Source, x: real, y: real)
    requires Apart(x, y) && DifferInThroughput(base, cells, x, y)
    ensures var cs := ComparedAll(qs, baseline, base, arm, cells, rnd).0;
            && (forall c :: c in cs ==> c.judgement != if y > x then Regression else Improvement)
            && (Throughput in qs ==> exists c :: c in cs && c.judgement == if y > x then Improvement else Regression)
  {
    hide Apart, DifferInThroughput, ComparedOne;
    if qs != [] {
      var n := |qs| - 1;
      OnlyThroughput(qs[..n], baseline, base, arm, cells, rnd, x, y);
      var (cs, r) := ComparedAll(qs[..n], baseline, base, arm, cells, rnd);
      OneSided(qs[n], baseline, base, arm, cells, r, x, y);
      var c := ComparedOne(qs[n], baseline, base, arm, cells, r).0;
      assert qs == qs[..n] + [qs[n]];
      if qs[n] == Throughput {
        assert c[0] in c && c[0] in cs + c;
      }
    }
  }

  // ---------- the cells ----------

  function Rep(scenario: string, arm: string, rps: real, h: Headline): Cell {
    Cell(scenario, arm, 0, Valid, h.(achievedRPS := rps))
  }

  function Thrice(c: Cell): seq<Cell> { [c, c, c] }

  lemma First(c: Cell, rest: seq<Cell>, n: string, q: Quantity)
    ensures OfArm([c] + rest, n) == (if c.arm == n then [c] else []) + OfArm(rest, n)
    ensures OfScenario([c] + rest, n) == (if c.scenario == n then [c] else []) + OfScenario(rest, n)
    ensures Measured(q, [c] + rest) == (match Pick(q, c) case Some(v) => [v] case None => []) + Measured(q, rest)
    ensures Used([c] + rest) == (if Usable(c) then [c] else []) + Used(rest)
  {
    hide Pick;
    assert ([c] + rest)[1..] == rest;
  }

  lemma OneByOne(c: Cell, rest: seq<Cell>)
    ensures Thrice(c) + rest == [c] + ([c] + ([c] + rest))
  {
  }

  lemma ThriceMeasured(q: Quantity, c: Cell)
    ensures Measured(q, Thrice(c)) == match Pick(q, c) case Some(v) => [v, v, v] case None => []
  {
    hide Pick, Thrice;
    OneByOne(c, []);
    assert Thrice(c) + [] == Thrice(c);
    First(c, [c] + ([c] + []), "", q);
    First(c, [c] + [], "", q);
    First(c, [], "", q);
  }

  lemma RepsDiffer(scenario: string, x: real, y: real, h: Headline)
    ensures DifferInThroughput(Thrice(Rep(scenario, "a", x, h)), Thrice(Rep(scenario, "b", y, h)), x, y)
  {
    var a, b := Rep(scenario, "a", x, h), Rep(scenario, "b", y, h);
    forall q
      ensures q != Throughput ==> Pick(q, a) == Pick(q, b)
      ensures Measured(q, Thrice(a)) == match Pick(q, a) case Some(v) => [v, v, v] case None => []
      ensures Measured(q, Thrice(b)) == match Pick(q, b) case Some(v) => [v, v, v] case None => []
    {
      ThriceMeasured(q, a);
      ThriceMeasured(q, b);
    }
    assert Pick(Throughput, a) == Some(x) && Pick(Throughput, b) == Some(y);
    hide Pick, Measured;
  }

  lemma SelectThrice(c: Cell, rest: seq<Cell>, n: string)
    ensures OfArm(Thrice(c) + rest, n) == (if c.arm == n then Thrice(c) else []) + OfArm(rest, n)
    ensures OfScenario(Thrice(c) + rest, n) == (if c.scenario == n then Thrice(c) else []) + OfScenario(rest, n)
  {
    OneByOne(c, rest);
    First(c, [c] + ([c] + rest), n, Throughput);
    First(c, [c] + rest, n, Throughput);
    First(c, rest, n, Throughput);
    hide OfArm, OfScenario;
  }

  lemma NamesOfThrice(c: Cell, rest: seq<Cell>)
    ensures ArmsIn(Thrice(c) + rest) == {c.arm} + ArmsIn(rest)
    ensures ScenariosIn(Thrice(c) + rest) == {c.scenario} + ScenariosIn(rest)
  {
    assert (Thrice(c) + rest)[0] == c;
    assert forall x :: x in Thrice(c) + rest <==> x == c || x in rest;
    hide Thrice;
  }

  lemma UsedThrice(c: Cell)
    requires Usable(c)
    ensures Used(Thrice(c)) == Thrice(c)
  {
    OneByOne(c, []);
    assert Thrice(c) + [] == Thrice(c);
    First(c, [c] + ([c] + []), "", Throughput);
    First(c, [c] + [], "", Throughput);
    First(c, [], "", Throughput);
    hide Used;
  }

  const ARMS: seq<string> := ["a", "b"]

  const DECLARED: Input := Input("a", ARMS, 1)

  lemma BothArms()
    ensures ArmOrder(ARMS, {"a", "b"}) == ["a", "b"] && ArmOrder(ARMS, {"a"}) == ["a"]
  {
    assert "a"[0] == 'a' && "b"[0] == 'b';
    assert ARMS[1..] == ["b"] && ["b"][1..] == [];
    assert {"a", "b"} - {"a"} == {"b"} && {"a"} - {"a"} == {};
    assert DeclaredFirst(["b"], {"b"}) == ["b"] && DeclaredFirst(["b"], {}) == [];
    assert DeclaredFirst(ARMS, {"a", "b"}) == ["a"] + ["b"] && DeclaredFirst(ARMS, {"a"}) == ["a"] + [];
    assert ARMS[0] in ARMS && ARMS[1] in ARMS;
    assert Undeclared(ARMS, {"a", "b"}) == {} && Undeclared(ARMS, {"a"}) == {};
  }

  lemma ArmsOfTwo(a: Cell, b: Cell)
    requires a.arm == "a" && b.arm == "b"
    ensures var mine := Thrice(a) + Thrice(b);
            OfArm(mine, "a") == Thrice(a) && OfArm(mine, "b") == Thrice(b) && ArmsIn(mine) == {"a", "b"}
  {
    assert "a"[0] == 'a' && "b"[0] == 'b';
    SelectThrice(a, Thrice(b), "a");
    SelectThrice(a, Thrice(b), "b");
    SelectThrice(b, [], "a");
    SelectThrice(b, [], "b");
    NamesOfThrice(a, Thrice(b));
    NamesOfThrice(b, []);
    hide Thrice;
    assert Thrice(b) + [] == Thrice(b);
    assert ArmsIn([]) == {};
  }

  /** A scenario measured three times with each arm is judged by throughput alone. */
  lemma ScenarioOfTwo(id: string, x: real, y: real, h: Headline, cells: seq<Cell>, rnd: Source)
    requires Apart(x, y) && OfScenario(cells, id) == Thrice(Rep(id, "a", x, h)) + Thrice(Rep(id, "b", y, h))
    ensures var cs := RolledScenario(id, DECLARED, cells, rnd).0.comparisons;
            && (forall c :: c in cs ==> c.judgement != if y > x then Regression else Improvement)
            && (exists c :: c in cs && c.judgement == if y > x then Improvement else Regression)
  {
    hide *;
    var a, b := Rep(id, "a", x, h), Rep(id, "b", y, h);
    var mine := Thrice(a) + Thrice(b);
    RepFields(id, "a", x, h);
    RepFields(id, "b", y, h);
    BothArms();
    ArmsOfTwo(a, b);
    UsedThrice(a);
    UsedThrice(b);
    RepsDiffer(id, x, y, h);
    ThroughputCompared();
    OnlyThroughput(COMPARED, "a", Thrice(a), "b", Thrice(b), rnd, x, y);
    assert "a"[0] == 'a' && "b"[0] == 'b';
    TwoArms("a", "b", mine, rnd);
    DeclaredScenario(id, cells, rnd);
  }

  lemma RepFields(scenario: string, arm: string, rps: real, h: Headline)
    ensures var c := Rep(scenario, arm, rps, h); c.scenario == scenario && c.arm == arm && Usable(c)
  {
  }

  lemma DeclaredScenario(id: string, cells: seq<Cell>, rnd: Source)
    ensures var mine := OfScenario(cells, id);
            RolledScenario(id, DECLARED, cells, rnd).0.comparisons
            == ComparedArms("a", ArmOrder(ARMS, ArmsIn(mine)), mine, rnd).0
  {
    hide ComparedArms, ArmOrder, OfScenario, RolledArm, ArmsIn;
    assert "a"[0] == 'a';
  }

  predicate Judged(cs: seq<Comparison>, l: Label) {
    exists i :: 0 <= i < |cs| && cs[i].judgement == l
  }

  lemma TaggedJudged(id: string, cs: seq<Comparison>, l: Label)
    ensures SomeJudged(Tagged(id, cs), l) <==> Judged(cs, l)
  {
    var tagged := Tagged(id, cs);
    assert forall i :: 0 <= i < |cs| ==> tagged[i].1 == cs[i];
  }

  lemma JudgedIff(cs: seq<Comparison>, l: Label)
    ensures Judged(cs, l) <==> exists c :: c in cs && c.judgement == l
  {
    if Judged(cs, l) {
      var i :| 0 <= i < |cs| && cs[i].judgement == l;
      assert cs[i] in cs;
    }
  }

  /** One scenario, two arms, the second ten times faster: "every delta is inside its noise band" is said, and false. */
  lemma NoRegressionHidesAnImprovement(h: Headline, generator: nat -> (nat -> nat))
    ensures var cells := Thrice(Rep("s", "a", 1.0, h)) + Thrice(Rep("s", "b", 10.0, h));
            var r := RolledUp(DECLARED, cells, generator);
            && VerdictOf(r, 2).NoRegression?
            && !AllInside(Flat(r.scenarios))
  {
    hide *;
    var a, b := Rep("s", "a", 1.0, h), Rep("s", "b", 10.0, h);
    var cells := Thrice(a) + Thrice(b);
    var rnd := SourceFor(1, generator);
    FarApart();
    SixCells("s", a, b, h, 1.0, 10.0);
    ScenarioOfTwo("s", 1.0, 10.0, h, cells, rnd);
    OnlyScenario(DECLARED, cells, "s", generator);
    var s := RolledScenario("s", DECLARED, cells, rnd).0;
    ScenarioLabelled("s", DECLARED, cells, rnd);
    FlatOfOne(s);
    TaggedJudged("s", s.comparisons, Improvement);
    TaggedJudged("s", s.comparisons, Regression);
    JudgedIff(s.comparisons, Improvement);
    JudgedIff(s.comparisons, Regression);
    DeclaredFields();
    RollupFacts(DECLARED, cells, generator);
    VerdictIsTrue(DECLARED, cells, generator, 2);
    InsideIff(Flat(RolledUp(DECLARED, cells, generator).scenarios));
    ImprovedIsDecided(Flat(RolledUp(DECLARED, cells, generator).scenarios));
  }

  lemma DeclaredFields()
    ensures DECLARED.seed == 1
  {
  }

  lemma FarApart()
    ensures Apart(1.0, 10.0) && Apart(10.0, 1.0)
  {
  }

  lemma ImprovedIsDecided(flat: seq<(string, Comparison)>)
    requires FlatLabelled(flat)
    ensures SomeJudged(flat, Improvement) ==> SomeDecided(flat)
  {
    JudgedMeans(flat);
    hide FlatLabelled;
  }

  lemma SixCells(id: string, a: Cell, b: Cell, h: Headline, x: real, y: real)
    requires a == Rep(id, "a", x, h) && b == Rep(id, "b", y, h)
    ensures var cells := Thrice(a) + Thrice(b);
            && cells != [] && OfScenario(cells, id) == cells && forall c :: c in cells ==> c.scenario == id
  {
    SelectThrice(a, Thrice(b), id);
    SelectThrice(b, [], id);
    assert Thrice(b) + [] == Thrice(b);
  }

  // ---------- a second scenario about which nothing was concluded ----------

  lemma TwoNames()
    ensures Names.Sorted({"s", "t"}) == ["s", "t"]
  {
    assert "s"[0] == 's' && "t"[0] == 't';
    Names.SortedLists({"s", "t"});
    var names := Names.Sorted({"s", "t"});
    assert |{"s", "t"}| == 2;
    assert names[0] in names && names[1] in names;
    assert Names.Leq(names[0], names[1]) && names[0] != names[1];
    assert !Names.Leq("t", "s");
  }

  /** Throughput regresses in scenario "s"; scenario "t" ran with the baseline alone. */
  function SevenCells(h: Headline): seq<Cell> {
    Thrice(Rep("s", "a", 10.0, h)) + (Thrice(Rep("s", "b", 1.0, h)) + [Rep("t", "a", 10.0, h)])
  }

  lemma SevenNames(a: Cell, b: Cell, c: Cell)
    requires a.scenario == "s" && b.scenario == "s" && c.scenario == "t"
    ensures ScenariosIn(Thrice(a) + (Thrice(b) + [c])) == {"s", "t"}
  {
    NamesOfThrice(a, Thrice(b) + [c]);
    NamesOfThrice(b, [c]);
    assert ScenariosIn([c]) == {"t"};
    hide Thrice, ScenariosIn;
    assert {"s"} + ({"s"} + {"t"}) == {"s", "t"};
  }

  lemma SevenInScenario(a: Cell, b: Cell, c: Cell, n: string)
    requires a.scenario == "s" && b.scenario == "s" && c.scenario == "t" && (n == "s" || n == "t")
    ensures OfScenario(Thrice(a) + (Thrice(b) + [c]), n) == if n == "s" then Thrice(a) + Thrice(b) else [c]
  {
    assert "s"[0] == 's' && "t"[0] == 't';
    First(c, [], n, Throughput);
    assert [c] + [] == [c] && OfScenario([], n) == [];
    hide Thrice, OfScenario;
    SelectThrice(a, Thrice(b) + [c], n);
    SelectThrice(b, [c], n);
    assert Thrice(b) + [] == Thrice(b);
    assert [] + ([] + [c]) == [c];
  }

  lemma SevenSelected(h: Headline)
    ensures var cells := SevenCells(h);
            && cells != [] && ScenariosIn(cells) == {"s", "t"}
            && OfScenario(cells, "s") == Thrice(Rep("s", "a", 10.0, h)) + Thrice(Rep("s", "b", 1.0, h))
            && OfScenario(cells, "t") == [Rep("t", "a", 10.0, h)]
  {
    var a, b, c := Rep("s", "a", 10.0, h), Rep("s", "b", 1.0, h), Rep("t", "a", 10.0, h);
    assert "s"[0] == 's' && "t"[0] == 't';
    SevenNames(a, b, c);
    SevenInScenario(a, b, c, "s");
    SevenInScenario(a, b, c, "t");
    hide Thrice, OfScenario, ScenariosIn;
  }

  lemma BaselineAlone(c: Cell, cells: seq<Cell>, rnd: Source)
    requires c.arm == "a" && OfScenario(cells, "t") == [c]
    ensures RolledScenario("t", DECLARED, cells, rnd).0.comparisons == []
  {
    DeclaredScenario("t", cells, rnd);
    BothArms();
    assert ArmsIn([c]) == {"a"};
    hide *;
    AgainstItself("a", [c], rnd);
  }

  lemma AgainstItself(arm: string, mine: seq<Cell>, rnd: Source)
    ensures ComparedArms(arm, [arm], mine, rnd).0 == []
  {
    assert [arm][..0] == [];
    hide ComparedAll;
  }

  lemma TwoScenarios(h: Headline, generator: nat -> (nat -> nat))
    ensures var rnd := SourceFor(1, generator);
            var (s, r) := RolledScenario("s", DECLARED, SevenCells(h), rnd);
            RolledUp(DECLARED, SevenCells(h), generator).scenarios == [s, RolledScenario("t", DECLARED, SevenCells(h), r).0]
  {
    hide *;
    var rnd, cells := SourceFor(1, generator), SevenCells(h);
    SevenSelected(h);
    TwoNames();
    RollupShape(DECLARED, cells, generator);
    DeclaredFields();
    NoScenarios(cells, rnd);
    OneMoreRolled([], "s", cells, rnd);
    OneMoreRolled(["s"], "t", cells, rnd);
    assert [] + ["s"] == ["s"] && ["s"] + ["t"] == ["s", "t"];
  }

  lemma NoScenarios(cells: seq<Cell>, rnd: Source)
    ensures RolledScenarios([], DECLARED, cells, rnd) == ([], rnd)
  {
  }

  lemma OneMoreRolled(ids: seq<string>, id: string, cells: seq<Cell>, rnd: Source)
    ensures var (ss, r) := RolledScenarios(ids, DECLARED, cells, rnd);
            var (s, r') := RolledScenario(id, DECLARED, cells, r);
            RolledScenarios(ids + [id], DECLARED, cells, rnd) == (ss + [s], r')
  {
    hide RolledScenario;
    assert (ids + [id])[..|ids|] == ids;
  }

  /** "Regressions on 1 of 2; the other is inside its noise band" is said, though the other was never compared. */
  lemma OthersMayBeUndecided(h: Headline, generator: nat -> (nat -> nat))
    ensures var r := RolledUp(DECLARED, SevenCells(h), generator);
            VerdictOf(r, 2) == Regressed(1, 1) && !OthersInside(r)
  {
    hide *;
    var cells, rnd := SevenCells(h), SourceFor(1, generator);
    SevenSelected(h);
    FarApart();
    ScenarioOfTwo("s", 10.0, 1.0, h, cells, rnd);
    TwoScenarios(h, generator);
    var (s, src) := RolledScenario("s", DECLARED, cells, rnd);
    var t := RolledScenario("t", DECLARED, cells, src).0;
    RepFields("t", "a", 10.0, h);
    BaselineAlone(Rep("t", "a", 10.0, h), cells, src);
    ScenarioLabelled("s", DECLARED, cells, rnd);
    ScenarioLabelled("t", DECLARED, cells, src);
    JudgedIff(s.comparisons, Regression);
    SecondIsEmpty(s, t);
    TaggedJudged("s", s.comparisons, Regression);
    OneTouched(s.comparisons);
    var r := RolledUp(DECLARED, cells, generator);
    RollupFacts(DECLARED, cells, generator);
    VerdictIsTrue(DECLARED, cells, generator, 2);
    FindingsTouch(Flat(r.scenarios), Regression);
    SecondIsUntouched(r, s, t);
    OneOfTwo(r);
  }

  lemma SecondIsEmpty(s: ScenarioRollup, t: ScenarioRollup)
    requires t.comparisons == []
    ensures Flat([s, t]) == Tagged(s.scenario, s.comparisons)
  {
    FlatOfOne(s);
    FlatAppend([s], t);
    assert [s] + [t] == [s, t];
    hide Flat;
    assert Tagged(t.scenario, []) == [];
  }

  lemma OneTouched(cs: seq<Comparison>)
    requires Judged(cs, Regression)
    ensures JudgedScenarios(Tagged("s", cs), Regression) == {"s"}
  {
    var tagged := Tagged("s", cs);
    var i :| 0 <= i < |cs| && cs[i].judgement == Regression;
    assert tagged[i] == ("s", cs[i]);
    assert "s" in JudgedScenarios(tagged, Regression);
  }

  lemma SecondIsUntouched(r: Rollup, s: ScenarioRollup, t: ScenarioRollup)
    requires r.scenarios == [s, t] && t.scenario == "t" && t.comparisons == [] && Touched(r.regressions) == {"s"}
    ensures !OthersInside(r)
  {
    hide Touched;
    assert "s"[0] == 's' && "t"[0] == 't';
    assert r.scenarios[1].scenario !in Touched(r.regressions);
  }

  lemma OneOfTwo(r: Rollup)
    requires VerdictOf(r, 2).Regressed? && Touched(r.regressions) == {"s"} && |r.scenarios| == 2
    ensures VerdictOf(r, 2) == Regressed(1, 1)
  {
  }
}
