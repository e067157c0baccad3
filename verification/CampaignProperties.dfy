/**
 What the roll-up keeps: excluded cells contribute to nothing but the counts, although one random
 source is threaded through every comparison, and every cell is accounted for exactly once.
 */
module CampaignProperties {
  import opened Lists
  import opened Campaign
  import opened Randomness
  import Compare
  import Describe
  import Names

  // ---------- selections commute ----------

  lemma {:induction false} UsedOfScenario(cells: seq<Cell>, id: string)
    ensures Used(OfScenario(cells, id)) == OfScenario(Used(cells), id)
  {
    if cells != [] {
      UsedOfScenario(cells[1..], id);
      if cells[0].scenario == id {
        assert OfScenario(cells, id)[1..] == OfScenario(cells[1..], id);
      }
      if Usable(cells[0]) {
        assert Used(cells)[1..] == Used(cells[1..]);
      }
    }
  }

  lemma {:induction false} UsedOfArm(cells: seq<Cell>, arm: string)
    ensures Used(OfArm(cells, arm)) == OfArm(Used(cells), arm)
  {
    if cells != [] {
      UsedOfArm(cells[1..], arm);
      if cells[0].arm == arm {
        assert OfArm(cells, arm)[1..] == OfArm(cells[1..], arm);
      }
      if Usable(cells[0]) {
        assert Used(cells)[1..] == Used(cells[1..]);
      }
    }
  }

  lemma {:induction false} UsedTwice(cells: seq<Cell>)
    ensures Used(Used(cells)) == Used(cells)
  {
    if cells != [] {
      UsedTwice(cells[1..]);
      if Usable(cells[0]) {
        assert Used(cells)[1..] == Used(cells[1..]);
      }
    }
  }

  lemma {:induction false} UsedAreCells(cells: seq<Cell>)
    ensures forall c :: c in Used(cells) ==> c in cells && Usable(c)
  {
    if cells != [] {
      UsedAreCells(cells[1..]);
    }
  }

  lemma {:induction false} OfArmEmpty(cells: seq<Cell>, arm: string)
    requires arm !in ArmsIn(cells)
    ensures OfArm(cells, arm) == []
  {
    if cells != [] {
      assert cells[0] in cells;
      assert forall c :: c in cells[1..] ==> c in cells;
      OfArmEmpty(cells[1..], arm);
    }
  }

  lemma {:induction false} OfScenarioEmpty(cells: seq<Cell>, id: string)
    requires id !in ScenariosIn(cells)
    ensures OfScenario(cells, id) == []
  {
    if cells != [] {
      assert cells[0] in cells;
      assert forall c :: c in cells[1..] ==> c in cells;
      OfScenarioEmpty(cells[1..], id);
    }
  }

  // ---------- the arm order ----------

  lemma {:induction false} DeclaredAreSeen(declared: seq<string>, seen: set<string>)
    ensures forall x :: x in DeclaredFirst(declared, seen) <==> x in seen && x in declared
    ensures Distinct(DeclaredFirst(declared, seen))
  {
    if declared != [] {
      if declared[0] in seen {
        DeclaredAreSeen(declared[1..], seen - {declared[0]});
      } else {
        DeclaredAreSeen(declared[1..], seen);
      }
    }
  }

  /** Every arm that occurs is visited exactly once. */
  lemma ArmOrderVisitsOnce(declared: seq<string>, seen: set<string>)
    ensures Distinct(ArmOrder(declared, seen))
    ensures forall x :: x in ArmOrder(declared, seen) <==> x in seen
  {
    var a, b := DeclaredFirst(declared, seen), Names.Sorted(Undeclared(declared, seen));
    DeclaredAreSeen(declared, seen);
    Names.SortedLists(Undeclared(declared, seen));
    forall i, j | 0 <= i < |a| && 0 <= j < |b|
      ensures a[i] != b[j]
    {
      assert a[i] in a && b[j] in b;
    }
  }

  lemma {:induction false} DeclaredSubset(declared: seq<string>, s: set<string>, t: set<string>)
    requires t <= s
    ensures Names.Keep(DeclaredFirst(declared, s), t) == DeclaredFirst(declared, t)
  {
    if declared != [] {
      var d := declared[0];
      if d in s {
        DeclaredSubset(declared[1..], s - {d}, t - {d});
        var rest := DeclaredFirst(declared[1..], s - {d});
        DeclaredAreSeen(declared[1..], s - {d});
        Names.KeepSame(rest, t, t - {d});
        assert d !in rest;
        assert Names.Keep(rest, t) == DeclaredFirst(declared[1..], t - {d});
        assert ([d] + rest)[1..] == rest;
        if d in t {
          assert Names.Keep([d] + rest, t) == [d] + Names.Keep(rest, t);
        } else {
          assert t - {d} == t;
        }
      } else {
        DeclaredSubset(declared[1..], s, t);
      }
    }
  }

  /** Arms that drop out leave the others in the same order. */
  lemma ArmOrderSubset(declared: seq<string>, s: set<string>, t: set<string>)
    requires t <= s
    ensures Names.Keep(ArmOrder(declared, s), t) == ArmOrder(declared, t)
  {
    var us, ut := Undeclared(declared, s), Undeclared(declared, t);
    Names.KeepAppend(DeclaredFirst(declared, s), Names.Sorted(us), t);
    DeclaredSubset(declared, s, t);
    Names.SortedLists(us);
    Names.SortedSubset(us, ut);
    Names.KeepSame(Names.Sorted(us), t, ut);
  }

  // ---------- excluded cells draw nothing ----------

  lemma {:induction false} NothingToCompare(qs: seq<Quantity>, baseline: string, base: seq<Cell>, arm: string, cells: seq<Cell>, rnd: Source)
    requires base == [] || cells == []
    ensures ComparedAll(qs, baseline, base, arm, cells, rnd) == ([], rnd)
  {
    if qs != [] {
      NothingToCompare(qs[..|qs| - 1], baseline, base, arm, cells, rnd);
      AppendNothing([]);
    }
  }

  lemma AppendNothing(cs: seq<Comparison>)
    ensures cs + [] == cs
  {
  }

  lemma SameUsedCells(mine: seq<Cell>, arm: string)
    ensures Used(OfArm(mine, arm)) == Used(OfArm(Used(mine), arm))
  {
    UsedOfArm(mine, arm);
    UsedOfArm(Used(mine), arm);
    UsedTwice(mine);
  }

  lemma NoUsedCells(mine: seq<Cell>, arm: string)
    requires arm !in ArmsIn(Used(mine))
    ensures Used(OfArm(mine, arm)) == []
  {
    UsedOfArm(mine, arm);
    OfArmEmpty(Used(mine), arm);
  }

  /** Dropping the excluded cells, and the arms left with none, changes no comparison and no draw. */
  lemma {:induction false} ArmsIgnoreExcluded(base: string, arms: seq<string>, mine: seq<Cell>, rnd: Source)
    ensures ComparedArms(base, arms, mine, rnd)
         == ComparedArms(base, Names.Keep(arms, ArmsIn(Used(mine))), Used(mine), rnd)
  {
    hide ComparedAll, OfArm, Used, ArmsIn;
    var t := ArmsIn(Used(mine));
    if arms != [] {
      var n := |arms| - 1;
      var a := arms[n];
      ArmsIgnoreExcluded(base, arms[..n], mine, rnd);
      assert arms == arms[..n] + [a];
      Names.KeepAppend(arms[..n], [a], t);
      var kept := Names.Keep(arms[..n], t);
      assert Names.Keep([a], t) == if a in t then [a] else [] by { KeepOne(a, t); }
      SameUsedCells(mine, base);
      SameUsedCells(mine, a);
      AppendNothing(ComparedArms(base, arms[..n], mine, rnd).0);
      if a in t {
        assert (kept + [a])[..|kept|] == kept;
        assert Names.Keep(arms, t) == kept + [a];
      } else {
        assert Names.Keep(arms, t) == kept;
        NoUsedCells(mine, a);
        NothingToCompare(COMPARED, base, Used(OfArm(mine, base)), a, [], ComparedArms(base, arms[..n], mine, rnd).1);
      }
    }
  }

  lemma KeepOne(a: string, t: set<string>)
    ensures Names.Keep([a], t) == if a in t then [a] else []
  {
    assert Names.Keep([a][1..], t) == [];
  }

  function FirstArm(input: Input, mine: seq<Cell>): string {
    BaselineOf("", ArmOrder(input.arms, ArmsIn(mine)))
  }

  /** The baseline does not hinge on an excluded cell: it is declared, or the first arm has a usable one. */
  predicate BaselineStable(input: Input, mine: seq<Cell>) {
    input.baseline != "" || Used(mine) == [] || FirstArm(input, mine) in ArmsIn(Used(mine))
  }

  lemma {:induction false} KeepFirst(names: seq<string>, t: set<string>)
    requires Names.Keep(names, t) != []
    ensures names != [] && (Names.Keep(names, t)[0] == names[0] <==> names[0] in t)
    ensures Names.Keep(names, t)[0] in t
  {
    if names[0] !in t {
      KeepFirst(names[1..], t);
    }
  }

  /** With no declared baseline, excluded cells leave the chosen one alone exactly when its first arm has a usable cell. */
  lemma BaselineStableIff(input: Input, mine: seq<Cell>)
    requires Used(mine) != []
    ensures BaselineStable(input, mine) <==>
            BaselineOf(input.baseline, ArmOrder(input.arms, ArmsIn(mine)))
            == BaselineOf(input.baseline, ArmOrder(input.arms, ArmsIn(Used(mine))))
  {
    UsedArmsAreArms(mine);
    var t := ArmsIn(Used(mine));
    assert Used(mine)[0] in Used(mine) && Used(mine)[0].arm in t;
    ArmOrderSubset(input.arms, ArmsIn(mine), t);
    ArmOrderVisitsOnce(input.arms, t);
    KeepFirst(ArmOrder(input.arms, ArmsIn(mine)), t);
  }

  lemma UsedArmsAreArms(mine: seq<Cell>)
    ensures ArmsIn(Used(mine)) <= ArmsIn(mine)
    ensures ScenariosIn(Used(mine)) <= ScenariosIn(mine)
  {
    UsedAreCells(mine);
  }

  predicate AtMostOneArm(mine: seq<Cell>) {
    forall a, b :: a in ArmsIn(mine) && b in ArmsIn(mine) ==> a == b
  }

  /** The comparisons do not hinge on an excluded cell: the baseline is stable, or there is nothing to compare. */
  predicate Settled(input: Input, mine: seq<Cell>) {
    BaselineStable(input, mine) || AtMostOneArm(Used(mine))
  }

  // ---------- when a scenario compares anything ----------

  lemma {:induction false} NoBaselineNoComparisons(base: string, arms: seq<string>, mine: seq<Cell>, rnd: Source)
    requires Used(OfArm(mine, base)) == []
    ensures ComparedArms(base, arms, mine, rnd) == ([], rnd)
  {
    if arms != [] {
      var n := |arms| - 1;
      NoBaselineNoComparisons(base, arms[..n], mine, rnd);
      NothingToCompare(COMPARED, base, [], arms[n], Used(OfArm(mine, arms[n])), rnd);
      AppendNothing([]);
    }
  }

  lemma {:induction false} ThroughputIsMeasured(cells: seq<Cell>)
    ensures |Measured(Throughput, cells)| == |cells|
  {
    if cells != [] {
      ThroughputIsMeasured(cells[1..]);
    }
  }

  lemma {:induction false} SomethingCompared(qs: seq<Quantity>, baseline: string, base: seq<Cell>, arm: string, cells: seq<Cell>, rnd: Source)
    requires base != [] && cells != [] && Throughput in qs
    ensures ComparedAll(qs, baseline, base, arm, cells, rnd).0 != []
  {
    hide Compare.Compared;
    var n := |qs| - 1;
    if qs[n] == Throughput {
      ThroughputIsMeasured(base);
      ThroughputIsMeasured(cells);
    } else {
      assert Throughput in qs[..n];
      SomethingCompared(qs[..n], baseline, base, arm, cells, rnd);
    }
  }

  lemma ThroughputCompared()
    ensures Throughput in COMPARED
  {
    assert COMPARED[0] == Throughput;
  }

  lemma UsedArmIff(mine: seq<Cell>, a: string)
    ensures Used(OfArm(mine, a)) != [] <==> a in ArmsIn(Used(mine))
  {
    UsedOfArm(mine, a);
    SelectedIff(Used(mine), a);
  }

  lemma {:induction false} SelectedIff(cells: seq<Cell>, a: string)
    ensures OfArm(cells, a) != [] <==> a in ArmsIn(cells)
  {
    if cells != [] {
      SelectedIff(cells[1..], a);
      assert cells == [cells[0]] + cells[1..];
    }
  }

  ghost predicate SomeOther(base: string, arms: seq<string>, mine: seq<Cell>) {
    exists a :: a in arms && a != base && a in ArmsIn(Used(mine))
  }

  /** Something is compared exactly when the baseline has a usable cell and so has another arm; otherwise nothing is drawn. */
  lemma {:induction false} ArmsCompareIff(base: string, arms: seq<string>, mine: seq<Cell>, rnd: Source)
    ensures ComparedArms(base, arms, mine, rnd).0 != [] <==> base in ArmsIn(Used(mine)) && SomeOther(base, arms, mine)
    ensures ComparedArms(base, arms, mine, rnd).0 == [] ==> ComparedArms(base, arms, mine, rnd).1 == rnd
  {
    hide ComparedAll, OfArm, Used, ArmsIn;
    if arms != [] {
      var n := |arms| - 1;
      var a := arms[n];
      assert arms == arms[..n] + [a];
      ArmsCompareIff(base, arms[..n], mine, rnd);
      UsedArmIff(mine, base);
      UsedArmIff(mine, a);
      ThroughputCompared();
      var r := ComparedArms(base, arms[..n], mine, rnd).1;
      if base in ArmsIn(Used(mine)) && a in ArmsIn(Used(mine)) {
        SomethingCompared(COMPARED, base, Used(OfArm(mine, base)), a, Used(OfArm(mine, a)), r);
      } else {
        NothingToCompare(COMPARED, base, Used(OfArm(mine, base)), a, Used(OfArm(mine, a)), r);
      }
    }
  }

  ghost predicate Compares(input: Input, mine: seq<Cell>) {
    var base := BaselineOf(input.baseline, ArmOrder(input.arms, ArmsIn(mine)));
    base in ArmsIn(Used(mine)) && exists a :: a in ArmsIn(Used(mine)) && a != base
  }

  lemma ScenarioComparesIff(id: string, input: Input, cells: seq<Cell>, rnd: Source)
    ensures RolledScenario(id, input, cells, rnd).0.comparisons != [] <==> Compares(input, OfScenario(cells, id))
    ensures RolledScenario(id, input, cells, rnd).0.comparisons == [] ==> RolledScenario(id, input, cells, rnd).1 == rnd
  {
    hide ComparedArms, OfScenario, OfArm, Used, ArmsIn, RolledArm, ArmOrder;
    var mine := OfScenario(cells, id);
    var order := ArmOrder(input.arms, ArmsIn(mine));
    ArmsCompareIff(BaselineOf(input.baseline, order), order, mine, rnd);
    ArmOrderVisitsOnce(input.arms, ArmsIn(mine));
    UsedArmsAreArms(mine);
  }

  lemma NoArms(declared: seq<string>, mine: seq<Cell>)
    requires mine == []
    ensures ArmOrder(declared, ArmsIn(mine)) == []
  {
    ArmOrderVisitsOnce(declared, ArmsIn(mine));
    var order := ArmOrder(declared, ArmsIn(mine));
    assert ArmsIn(mine) == {};
    FirstIsMember(order);
  }

  lemma FirstIsMember(names: seq<string>)
    ensures names != [] ==> names[0] in names
  {
  }

  /**
   One scenario, exactly.  When it is settled its comparisons and draws are those of its usable cells
   alone; when it is not, the usable cells alone would compare something and it compares nothing.
   */
  lemma ScenarioOfUsable(id: string, input: Input, cells: seq<Cell>, rnd: Source)
    ensures var (s, r) := RolledScenario(id, input, cells, rnd);
            var (s', r') := RolledScenario(id, input, Used(cells), rnd);
            && s.scenario == s'.scenario == id
            && (Settled(input, OfScenario(cells, id)) ==> s.comparisons == s'.comparisons && r == r')
            && (!Settled(input, OfScenario(cells, id)) ==> s.comparisons == [] && r == rnd && s'.comparisons != [])
            && (s.comparisons == s'.comparisons <==> Settled(input, OfScenario(cells, id)))
  {
    var mine := OfScenario(cells, id);
    UsedOfScenario(cells, id);
    hide ArmsIn, Used, OfArm, OfScenario, ComparedArms, RolledArm, BaselineStable, AtMostOneArm;
    ScenarioComparesIff(id, input, cells, rnd);
    ScenarioComparesIff(id, input, Used(cells), rnd);
    if BaselineStable(input, mine) {
      StableScenario(id, input, cells, rnd);
    } else {
      UnstableCompares(input, mine);
    }
  }

  lemma StableScenario(id: string, input: Input, cells: seq<Cell>, rnd: Source)
    requires BaselineStable(input, OfScenario(cells, id))
    ensures var (s, r) := RolledScenario(id, input, cells, rnd);
            var (s', r') := RolledScenario(id, input, Used(cells), rnd);
            s.comparisons == s'.comparisons && r == r'
  {
    var mine := OfScenario(cells, id);
    UsedOfScenario(cells, id);
    UsedArmsAreArms(mine);
    hide ArmsIn, Used, OfArm, ComparedAll, RolledArm;
    var order, order' := ArmOrder(input.arms, ArmsIn(mine)), ArmOrder(input.arms, ArmsIn(Used(mine)));
    ArmOrderSubset(input.arms, ArmsIn(mine), ArmsIn(Used(mine)));
    ArmsIgnoreExcluded(BaselineOf(input.baseline, order), order, mine, rnd);
    if Used(mine) == [] {
      NoArms(input.arms, Used(mine));
    } else {
      BaselineStableIff(input, mine);
    }
  }

  /** An unstable baseline compares nothing; the first usable arm compares something unless it is alone. */
  lemma UnstableCompares(input: Input, mine: seq<Cell>)
    requires !BaselineStable(input, mine)
    ensures !Compares(input, mine)
    ensures Compares(input, Used(mine)) <==> !AtMostOneArm(Used(mine))
  {
    var t := ArmsIn(Used(mine));
    UsedTwice(mine);
    UsedArmsAreArms(mine);
    assert Used(mine)[0] in Used(mine) && Used(mine)[0].arm in t;
    hide Used, ArmsIn;
    ArmOrderVisitsOnce(input.arms, t);
    ArmOrderVisitsOnce(input.arms, ArmsIn(mine));
    hide ArmOrder;
    FirstIsMember(ArmOrder(input.arms, t));
    FirstIsMember(ArmOrder(input.arms, ArmsIn(mine)));
  }

  // ---------- the whole roll-up ----------

  /** The scenarios with a usable cell whose comparisons do not hinge on an excluded one. */
  function SettledIn(input: Input, cells: seq<Cell>): set<string> {
    set id | id in ScenariosIn(Used(cells)) && Settled(input, OfScenario(cells, id))
  }

  /** What the usable cells conclude over the settled scenarios, one source threaded through. */
  function Concluded(ids: seq<string>, input: Input, used: seq<Cell>, settled: set<string>, rnd: Source)
    : (seq<(string, Comparison)>, Source)
  {
    if ids == [] then ([], rnd)
    else
      var n := |ids| - 1;
      var (flat, r) := Concluded(ids[..n], input, used, settled, rnd);
      if ids[n] in settled then
        var (s, r') := RolledScenario(ids[n], input, used, r);
        (flat + Tagged(ids[n], s.comparisons), r')
      else (flat, r)
  }

  lemma {:induction false} FlatAppend(ss: seq<ScenarioRollup>, s: ScenarioRollup)
    ensures Flat(ss + [s]) == Flat(ss) + Tagged(s.scenario, s.comparisons)
  {
    assert (ss + [s])[..|ss|] == ss;
  }

  lemma NoUsableScenario(id: string, input: Input, cells: seq<Cell>, rnd: Source)
    requires id !in ScenariosIn(Used(cells))
    ensures RolledScenario(id, input, cells, rnd).0.comparisons == [] && RolledScenario(id, input, cells, rnd).1 == rnd
  {
    UsedOfScenario(cells, id);
    OfScenarioEmpty(Used(cells), id);
    ScenarioComparesIff(id, input, cells, rnd);
    hide ArmOrder;
  }

  /** Whatever the cells, a roll-up's comparisons are those of its usable cells over its settled scenarios. */
  lemma {:induction false} ScenariosConclude(ids: seq<string>, input: Input, cells: seq<Cell>, rnd: Source)
    ensures var (ss, r) := RolledScenarios(ids, input, cells, rnd);
            (Flat(ss), r) == Concluded(Names.Keep(ids, ScenariosIn(Used(cells))), input, Used(cells), SettledIn(input, cells), rnd)
  {
    hide RolledScenario, Settled, ScenariosIn, Used, OfScenario, Flat;
    var t := ScenariosIn(Used(cells));
    if ids != [] {
      var n := |ids| - 1;
      var id := ids[n];
      ScenariosConclude(ids[..n], input, cells, rnd);
      assert ids == ids[..n] + [id];
      Names.KeepAppend(ids[..n], [id], t);
      KeepOne(id, t);
      var kept := Names.Keep(ids[..n], t);
      var (ss, r) := RolledScenarios(ids[..n], input, cells, rnd);
      var s := RolledScenario(id, input, cells, r).0;
      FlatAppend(ss, s);
      ScenarioOfUsable(id, input, cells, r);
      assert Tagged(id, []) == [] && Flat(ss) + [] == Flat(ss);
      if id in t {
        assert (kept + [id])[..|kept|] == kept;
        assert Names.Keep(ids, t) == kept + [id];
      } else {
        assert Names.Keep(ids, t) == kept;
        NoUsableScenario(id, input, cells, r);
      }
    } else {
      NothingFlat();
    }
  }

  lemma NothingFlat()
    ensures Flat([]) == []
  {
  }

  ghost predicate HasTag(flat: seq<(string, Comparison)>, id: string) {
    exists i :: 0 <= i < |flat| && flat[i].0 == id
  }

  lemma TagsTogether(flat: seq<(string, Comparison)>, x: string, cs: seq<Comparison>, id: string)
    ensures HasTag(flat + Tagged(x, cs), id) <==> HasTag(flat, id) || (x == id && cs != [])
  {
    var all := flat + Tagged(x, cs);
    assert forall i :: 0 <= i < |flat| ==> all[i] == flat[i];
    assert forall i :: |flat| <= i < |all| ==> all[i] == Tagged(x, cs)[i - |flat|];
    if x == id && cs != [] {
      assert all[|flat|].0 == id;
    }
  }

  /** A scenario shows up in what is concluded exactly when it is listed, settled and has something to compare. */
  lemma {:induction false} ConcludedTags(ids: seq<string>, input: Input, used: seq<Cell>, settled: set<string>, rnd: Source, id: string)
    ensures HasTag(Concluded(ids, input, used, settled, rnd).0, id)
       <==> id in ids && id in settled && Compares(input, OfScenario(used, id))
  {
    hide RolledScenario, Compares, OfScenario, HasTag;
    if ids == [] {
      NoTag(id);
    } else {
      var n := |ids| - 1;
      assert ids == ids[..n] + [ids[n]];
      ConcludedTags(ids[..n], input, used, settled, rnd, id);
      var (flat, r) := Concluded(ids[..n], input, used, settled, rnd);
      ScenarioComparesIff(ids[n], input, used, r);
      TagsTogether(flat, ids[n], RolledScenario(ids[n], input, used, r).0.comparisons, id);
    }
  }

  lemma NoTag(id: string)
    ensures !HasTag([], id)
  {
  }

  lemma {:induction false} RollupConcludes(input: Input, cells: seq<Cell>, generator: nat -> (nat -> nat))
    ensures Flat(RolledUp(input, cells, generator).scenarios)
         == Concluded(Names.Sorted(ScenariosIn(Used(cells))), input, Used(cells), SettledIn(input, cells), SourceFor(input.seed, generator)).0
  {
    hide *;
    RollupShape(input, cells, generator);
    UsedArmsAreArms(cells);
    Names.SortedSubset(ScenariosIn(cells), ScenariosIn(Used(cells)));
    ScenariosConclude(Names.Sorted(ScenariosIn(cells)), input, cells, SourceFor(input.seed, generator));
  }

  /** The early return for an empty campaign is the general case over no scenarios. */
  lemma RollupShape(input: Input, cells: seq<Cell>, generator: nat -> (nat -> nat))
    ensures var ss := RolledScenarios(Names.Sorted(ScenariosIn(cells)), input, cells, SourceFor(input.seed, generator)).0;
            RolledUp(input, cells, generator)
            == Rollup(CountsOf(cells), ss, EvidenceOf(Flat(ss)), FindingsOf(Flat(ss), Regression), FindingsOf(Flat(ss), Improvement))
  {
    if cells == [] {
      assert ScenariosIn(cells) == {};
    }
    hide RolledScenario, CountsOf, SourceFor;
  }

  /** Everything concluded is a function of the comparisons. */
  lemma ConclusionsFollow(input: Input, cells: seq<Cell>, cells': seq<Cell>, generator: nat -> (nat -> nat))
    ensures var r, r' := RolledUp(input, cells, generator), RolledUp(input, cells', generator);
            Flat(r.scenarios) == Flat(r'.scenarios) ==>
              r.evidence == r'.evidence && r.regressions == r'.regressions && r.improvements == r'.improvements
  {
    hide *;
    RollupShape(input, cells, generator);
    RollupShape(input, cells', generator);
  }

  lemma UnsettledCompares(input: Input, cells: seq<Cell>, id: string)
    requires id in ScenariosIn(Used(cells)) && id !in SettledIn(input, cells)
    ensures Compares(input, OfScenario(Used(cells), id))
  {
    hide OfScenario, ScenariosIn, Used, Compares, BaselineStable, AtMostOneArm;
    UsedOfScenario(cells, id);
    UnstableCompares(input, OfScenario(cells, id));
  }

  lemma SettledAreListed(input: Input, cells: seq<Cell>)
    ensures SettledIn(input, cells) <= ScenariosIn(Used(cells))
    ensures forall id :: id in Names.Sorted(ScenariosIn(Used(cells))) <==> id in ScenariosIn(Used(cells))
    ensures input.baseline != "" ==> SettledIn(input, cells) == ScenariosIn(Used(cells))
  {
    hide OfScenario, ScenariosIn, Used;
    Names.SortedLists(ScenariosIn(Used(cells)));
  }

  /**
   Exactly when excluded cells interfere.  Two sets of cells with the same usable ones, in order, reach
   the same comparisons if and only if the same scenarios are settled in both; then they reach the same
   findings and evidence too.
   */
  lemma InterferenceIff(input: Input, cells: seq<Cell>, cells': seq<Cell>, generator: nat -> (nat -> nat))
    requires Used(cells) == Used(cells')
    ensures var r, r' := RolledUp(input, cells, generator), RolledUp(input, cells', generator);
            && (Flat(r.scenarios) == Flat(r'.scenarios) <==> SettledIn(input, cells) == SettledIn(input, cells'))
            && (Flat(r.scenarios) == Flat(r'.scenarios) ==>
                  r.evidence == r'.evidence && r.regressions == r'.regressions && r.improvements == r'.improvements)
  {
    hide *;
    RollupConcludes(input, cells, generator);
    RollupConcludes(input, cells', generator);
    ConclusionsFollow(input, cells, cells', generator);
    SettledAreListed(input, cells);
    SettledAreListed(input, cells');
    var ids, rnd := Names.Sorted(ScenariosIn(Used(cells))), SourceFor(input.seed, generator);
    forall id | id in ScenariosIn(Used(cells))
      ensures Flat(RolledUp(input, cells, generator).scenarios) == Flat(RolledUp(input, cells', generator).scenarios) ==>
                (id in SettledIn(input, cells) <==> id in SettledIn(input, cells'))
    {
      ConcludedTags(ids, input, Used(cells), SettledIn(input, cells), rnd, id);
      ConcludedTags(ids, input, Used(cells), SettledIn(input, cells'), rnd, id);
      if id !in SettledIn(input, cells) {
        UnsettledCompares(input, cells, id);
      } else if id !in SettledIn(input, cells') {
        UnsettledCompares(input, cells', id);
      }
    }
  }

  /** A roll-up concludes what its usable cells alone conclude if and only if every scenario is settled. */
  lemma RollupOfUsable(input: Input, cells: seq<Cell>, generator: nat -> (nat -> nat))
    ensures var r, r' := RolledUp(input, cells, generator), RolledUp(input, Used(cells), generator);
            && (Flat(r.scenarios) == Flat(r'.scenarios) <==> SettledIn(input, cells) == ScenariosIn(Used(cells)))
            && (Flat(r.scenarios) == Flat(r'.scenarios) ==>
                  r.evidence == r'.evidence && r.regressions == r'.regressions && r.improvements == r'.improvements)
  {
    hide *;
    UsedTwice(cells);
    InterferenceIff(input, cells, Used(cells), generator);
    UsableAreSettled(input, cells);
  }

  lemma UsableAreSettled(input: Input, cells: seq<Cell>)
    ensures SettledIn(input, Used(cells)) == ScenariosIn(Used(cells))
  {
    UsedTwice(cells);
    hide ScenariosIn, Used;
    forall id | id in ScenariosIn(Used(cells))
      ensures Settled(input, OfScenario(Used(cells), id))
    {
      UsedOfScenario(cells, id);
      UsedStable(input, OfScenario(cells, id));
    }
  }

  lemma UsedStable(input: Input, mine: seq<Cell>)
    ensures BaselineStable(input, Used(mine))
  {
    UsedTwice(mine);
    if Used(mine) != [] {
      assert Used(mine)[0] in Used(mine) && Used(mine)[0].arm in ArmsIn(Used(mine));
    }
    hide Used, ArmsIn;
    ArmOrderVisitsOnce(input.arms, ArmsIn(Used(mine)));
    hide ArmOrder;
    FirstIsMember(ArmOrder(input.arms, ArmsIn(Used(mine))));
  }

  /**
   Non-interference.  With a declared baseline and one seed, any two sets of cells that agree on the
   usable ones, in order, reach the same comparisons, the same findings and the same evidence, however
   many excluded cells either holds and wherever they stand.
   */
  lemma ExcludedCellsDoNotInterfere(input: Input, cells: seq<Cell>, cells': seq<Cell>, generator: nat -> (nat -> nat))
    requires Used(cells) == Used(cells') && input.baseline != ""
    ensures var r, r' := RolledUp(input, cells, generator), RolledUp(input, cells', generator);
            && Flat(r.scenarios) == Flat(r'.scenarios)
            && r.evidence == r'.evidence && r.regressions == r'.regressions && r.improvements == r'.improvements
  {
    hide *;
    InterferenceIff(input, cells, cells', generator);
    SettledAreListed(input, cells);
    SettledAreListed(input, cells');
  }

  // ---------- why the baseline has to be declared ----------

  lemma FlatOfOne(s: ScenarioRollup)
    ensures Flat([s]) == Tagged(s.scenario, s.comparisons)
  {
    FlatAppend([], s);
    assert [] + [s] == [s];
    assert Flat([]) == [];
  }

  lemma OnlyScenario(input: Input, cells: seq<Cell>, id: string, generator: nat -> (nat -> nat))
    requires cells != [] && forall c :: c in cells ==> c.scenario == id
    ensures RolledUp(input, cells, generator).scenarios == [RolledScenario(id, input, cells, SourceFor(input.seed, generator)).0]
  {
    hide RolledScenario, EvidenceOf, FindingsOf, CountsOf, SourceFor;
    assert cells[0] in cells;
    assert ScenariosIn(cells) == {id};
    assert Names.Sorted({id} - {id}) == [];
    assert Names.Sorted({id}) == [id];
    var rnd := SourceFor(input.seed, generator);
    assert RolledScenarios([id][..0], input, cells, rnd) == ([], rnd);
    assert RolledScenarios([id], input, cells, rnd).0 == [] + [RolledScenario(id, input, cells, rnd).0];
  }

  lemma OneScenario(input: Input, cells: seq<Cell>, id: string, generator: nat -> (nat -> nat))
    requires cells != [] && forall c :: c in cells ==> c.scenario == id
    ensures RolledUp(input, cells, generator).evidence.comparisons
         == |RolledScenario(id, input, cells, SourceFor(input.seed, generator)).0.comparisons|
  {
    hide *;
    OnlyScenario(input, cells, id, generator);
    RollupShape(input, cells, generator);
    var s := RolledScenario(id, input, cells, SourceFor(input.seed, generator)).0;
    FlatOfOne(s);
    EvidenceCounts(Flat([s]));
    TaggedLength(s.scenario, s.comparisons);
  }

  lemma TaggedLength(id: string, cs: seq<Comparison>)
    ensures |Tagged(id, cs)| == |cs|
  {
  }

  lemma EvidenceCounts(flat: seq<(string, Comparison)>)
    ensures var e := EvidenceOf(flat); e.comparisons == |flat| == e.conclusive + e.insufficient
  {
  }

  /**
   Without a declared baseline the property fails: one excluded cell of the first arm takes the
   baseline away from the arm that had a usable one, and every comparison disappears with it.
   */
  lemma UndeclaredBaselineInterferes(h: Headline, generator: nat -> (nat -> nat))
    ensures var input := Input("", ["a", "b", "c"], 1);
            var plain := [Cell("s", "b", 1, Valid, h), Cell("s", "c", 2, Valid, h)];
            var extended := [Cell("s", "a", 0, Invalid, h)] + plain;
            && Used(extended) == Used(plain)
            && RolledUp(input, plain, generator).evidence.comparisons > 0
            && RolledUp(input, extended, generator).evidence.comparisons == 0
  {
    UndeclaredFrom(Cell("s", "b", 1, Valid, h), Cell("s", "c", 2, Valid, h), Cell("s", "a", 0, Invalid, h), generator);
  }

  lemma UndeclaredFrom(b: Cell, c: Cell, x: Cell, generator: nat -> (nat -> nat))
    requires b.scenario == c.scenario == x.scenario == "s"
    requires b.arm == "b" && c.arm == "c" && x.arm == "a"
    requires b.level == Valid && c.level == Valid && x.level == Invalid
    ensures var input := Input("", ["a", "b", "c"], 1);
            && Used([x] + [b, c]) == Used([b, c])
            && RolledUp(input, [b, c], generator).evidence.comparisons > 0
            && RolledUp(input, [x] + [b, c], generator).evidence.comparisons == 0
  {
    hide *;
    var input := Input("", ["a", "b", "c"], 1);
    var plain, extended := [b, c], [x] + [b, c];
    SmallSelections(b, c, x);
    SmallOrders(plain, extended);
    var rnd := SourceFor(1, generator);
    OneScenario(input, extended, "s", generator);
    OneScenario(input, plain, "s", generator);
    NoBaselineNoComparisons("a", ["a", "b", "c"], extended, rnd);
    UndeclaredScenario(input, extended, rnd);
    UndeclaredScenario(input, plain, rnd);
    BCompared(plain, b, c, rnd);
  }

  lemma BCompared(plain: seq<Cell>, b: Cell, c: Cell, rnd: Source)
    requires Used(OfArm(plain, "b")) == [b] && Used(OfArm(plain, "c")) == [c]
    ensures ComparedArms("b", ["b", "c"], plain, rnd).0 != []
  {
    hide *;
    ThroughputCompared();
    SomethingCompared(COMPARED, "b", [b], "c", [c], rnd);
    assert "b"[0] == 'b' && "c"[0] == 'c';
    TwoArms("b", "c", plain, rnd);
  }

  lemma UndeclaredScenario(input: Input, cells: seq<Cell>, rnd: Source)
    requires input.baseline == "" && OfScenario(cells, "s") == cells
    requires ArmOrder(input.arms, ArmsIn(cells)) != []
    ensures var order := ArmOrder(input.arms, ArmsIn(cells));
            RolledScenario("s", input, cells, rnd).0.comparisons == ComparedArms(order[0], order, cells, rnd).0
  {
    hide ComparedArms, ArmOrder, OfScenario, RolledArm;
  }

  lemma SelectOne(c: Cell, n: string)
    ensures OfArm([c], n) == if c.arm == n then [c] else []
    ensures OfScenario([c], n) == if c.scenario == n then [c] else []
    ensures Used([c]) == if Usable(c) then [c] else []
  {
    assert [c][1..] == [];
  }

  lemma PlainSelections(b: Cell, c: Cell)
    requires b.scenario == c.scenario == "s" && b.arm == "b" && c.arm == "c" && b.level == Valid && c.level == Valid
    ensures var plain := [b, c];
            && OfScenario(plain, "s") == plain && Used(plain) == plain && Used([b]) == [b] && Used([c]) == [c]
            && OfArm(plain, "a") == [] && OfArm(plain, "b") == [b] && OfArm(plain, "c") == [c]
            && ArmsIn(plain) == {"b", "c"}
  {
    var plain := [b, c];
    assert plain[1..] == [c];
    assert "a"[0] == 'a' && "b"[0] == 'b' && "c"[0] == 'c';
    SelectOne(b, "s");
    SelectOne(c, "s");
    SelectOne(c, "a");
    SelectOne(c, "b");
    SelectOne(c, "c");
    assert plain[0] == b && plain[1] == c;
  }

  lemma SmallSelections(b: Cell, c: Cell, x: Cell)
    requires b.scenario == c.scenario == x.scenario == "s"
    requires b.arm == "b" && c.arm == "c" && x.arm == "a"
    requires b.level == Valid && c.level == Valid && x.level == Invalid
    ensures var plain, extended := [b, c], [x] + [b, c];
            && OfScenario(plain, "s") == plain && OfScenario(extended, "s") == extended
            && Used(plain) == plain && Used(extended) == plain
            && OfArm(plain, "b") == [b] && OfArm(plain, "c") == [c] && Used([b]) == [b] && Used([c]) == [c]
            && Used(OfArm(extended, "a")) == []
            && ArmsIn(plain) == {"b", "c"} && ArmsIn(extended) == {"a", "b", "c"}
  {
    var plain, extended := [b, c], [x] + [b, c];
    PlainSelections(b, c);
    assert extended[1..] == plain && extended[0] == x && extended[1] == b && extended[2] == c;
    SelectOne(x, "s");
    assert OfArm(extended, "a") == [x] + OfArm(plain, "a") == [x];
  }

  lemma TwoArms(b: string, c: string, mine: seq<Cell>, rnd: Source)
    requires b != c
    ensures ComparedArms(b, [b, c], mine, rnd).0 == ComparedAll(COMPARED, b, Used(OfArm(mine, b)), c, Used(OfArm(mine, c)), rnd).0
  {
    hide ComparedAll;
    assert [b, c][..1] == [b] && [b][..0] == [];
    assert ComparedArms(b, [b], mine, rnd) == ([], rnd);
    var cs := ComparedAll(COMPARED, b, Used(OfArm(mine, b)), c, Used(OfArm(mine, c)), rnd).0;
    assert [] + cs == cs;
  }

  lemma SmallOrders(plain: seq<Cell>, extended: seq<Cell>)
    requires ArmsIn(plain) == {"b", "c"} && ArmsIn(extended) == {"a", "b", "c"}
    ensures ArmOrder(["a", "b", "c"], ArmsIn(plain)) == ["b", "c"]
    ensures ArmOrder(["a", "b", "c"], ArmsIn(extended)) == ["a", "b", "c"]
  {
    var d := ["a", "b", "c"];
    assert d[1..] == ["b", "c"] && d[1..][1..] == ["c"] && ["c"][1..] == [];
    assert DeclaredFirst(["c"], {"c"}) == ["c"];
    assert {"b", "c"} - {"b"} == {"c"} && {"a", "b", "c"} - {"a"} == {"b", "c"};
    assert DeclaredFirst(["b", "c"], {"b", "c"}) == ["b", "c"];
    assert DeclaredFirst(d, {"b", "c"}) == ["b", "c"];
    assert DeclaredFirst(d, {"a", "b", "c"}) == ["a"] + ["b", "c"];
    assert Undeclared(d, ArmsIn(plain)) == {} && Undeclared(d, ArmsIn(extended)) == {} by {
      assert d[0] in d && d[1] in d && d[2] in d;
    }
  }

  // ---------- conservation ----------

  function CountOf(keys: seq<string>, k: string): nat {
    if keys == [] then 0 else (if keys[0] == k then 1 else 0) + CountOf(keys[1..], k)
  }

  function Tally(names: seq<string>, keys: seq<string>): nat {
    if names == [] then 0 else CountOf(keys, names[0]) + Tally(names[1..], keys)
  }

  lemma {:induction false} TallyStep(names: seq<string>, keys: seq<string>)
    requires keys != [] && Distinct(names)
    ensures Tally(names, keys) == Tally(names, keys[1..]) + if keys[0] in names then 1 else 0
  {
    if names != [] {
      TallyStep(names[1..], keys);
      assert keys[0] in names <==> keys[0] == names[0] || keys[0] in names[1..];
      assert names[0] !in names[1..];
    }
  }

  /** Over names that are distinct and miss no key, the counts add up to the whole. */
  lemma {:induction false} TallyIsAll(names: seq<string>, keys: seq<string>)
    requires Distinct(names) && forall k :: k in keys ==> k in names
    ensures Tally(names, keys) == |keys|
  {
    if keys == [] {
      TallyOfNothing(names);
    } else {
      assert keys[0] in keys;
      TallyStep(names, keys);
      TallyIsAll(names, keys[1..]);
    }
  }

  lemma {:induction false} TallyOfNothing(names: seq<string>)
    ensures Tally(names, []) == 0
  {
    if names != [] {
      TallyOfNothing(names[1..]);
    }
  }

  function ArmKeys(cells: seq<Cell>): (r: seq<string>)
    ensures |r| == |cells|
  {
    seq(|cells|, i requires 0 <= i < |cells| => cells[i].arm)
  }

  function ScenarioKeys(cells: seq<Cell>): (r: seq<string>)
    ensures |r| == |cells|
  {
    seq(|cells|, i requires 0 <= i < |cells| => cells[i].scenario)
  }

  lemma {:induction false} CountsArm(cells: seq<Cell>, arm: string)
    ensures |OfArm(cells, arm)| == CountOf(ArmKeys(cells), arm)
  {
    if cells != [] {
      CountsArm(cells[1..], arm);
      assert ArmKeys(cells)[1..] == ArmKeys(cells[1..]);
    }
  }

  lemma {:induction false} CountsScenario(cells: seq<Cell>, id: string)
    ensures |OfScenario(cells, id)| == CountOf(ScenarioKeys(cells), id)
  {
    if cells != [] {
      CountsScenario(cells[1..], id);
      assert ScenarioKeys(cells)[1..] == ScenarioKeys(cells[1..]);
    }
  }

  /** What a list of arm roll-ups, or of scenarios, says it used and excluded. */
  function ArmTotals(arms: seq<ArmRollup>): (int, int) {
    if arms == [] then (0, 0)
    else
      var (u, x) := ArmTotals(arms[1..]);
      (arms[0].used + u, arms[0].excluded + x)
  }

  function ScenarioTotals(ss: seq<ScenarioRollup>): (int, int) {
    if ss == [] then (0, 0)
    else
      var (u, x) := ScenarioTotals(ss[..|ss| - 1]);
      var (u', x') := ArmTotals(ss[|ss| - 1].arms);
      (u + u', x + x')
  }

  function RolledArms(order: seq<string>, mine: seq<Cell>): seq<ArmRollup> {
    seq(|order|, i requires 0 <= i < |order| => RolledArm(order[i], OfArm(mine, order[i])))
  }

  lemma {:induction false} ArmTotalsTally(order: seq<string>, mine: seq<Cell>)
    ensures var (u, x) := ArmTotals(RolledArms(order, mine));
            u == Tally(order, ArmKeys(Used(mine))) && u + x == Tally(order, ArmKeys(mine))
  {
    if order != [] {
      ArmTotalsTally(order[1..], mine);
      assert RolledArms(order, mine)[1..] == RolledArms(order[1..], mine);
      CountsArm(mine, order[0]);
      CountsArm(Used(mine), order[0]);
      UsedOfArm(mine, order[0]);
      hide MetricOf, Describe.OrderFit;
    }
  }

  /** Within a scenario the arms account for every cell once. */
  lemma ScenarioAccountsForCells(id: string, input: Input, cells: seq<Cell>, rnd: Source)
    ensures var mine := OfScenario(cells, id);
            ArmTotals(RolledScenario(id, input, cells, rnd).0.arms) == (|Used(mine)|, |mine| - |Used(mine)|)
  {
    hide ComparedArms, RolledArm, ArmOrder, ArmsIn, Used, Tally, OfScenario, OfArm;
    var mine := OfScenario(cells, id);
    var order := ArmOrder(input.arms, ArmsIn(mine));
    KeysAreVisited(input.arms, mine);
    ArmTotalsTally(order, mine);
    TallyIsAll(order, ArmKeys(mine));
    TallyIsAll(order, ArmKeys(Used(mine)));
    assert RolledScenario(id, input, cells, rnd).0.arms == RolledArms(order, mine);
  }

  lemma KeysAreVisited(declared: seq<string>, mine: seq<Cell>)
    ensures var order := ArmOrder(declared, ArmsIn(mine));
            && Distinct(order)
            && (forall k :: k in ArmKeys(mine) ==> k in order)
            && (forall k :: k in ArmKeys(Used(mine)) ==> k in order)
  {
    hide ArmOrder, Used;
    ArmOrderVisitsOnce(declared, ArmsIn(mine));
    UsedAreCells(mine);
  }

  lemma {:induction false} TallyAppend(names: seq<string>, n: string, keys: seq<string>)
    ensures Tally(names + [n], keys) == Tally(names, keys) + CountOf(keys, n)
  {
    if names == [] {
      assert [] + [n] == [n];
      assert Tally([n][1..], keys) == 0;
    } else {
      assert (names + [n])[1..] == names[1..] + [n];
      TallyAppend(names[1..], n, keys);
    }
  }

  lemma {:induction false} ScenarioTotalsTally(ids: seq<string>, input: Input, cells: seq<Cell>, rnd: Source)
    ensures var (u, x) := ScenarioTotals(RolledScenarios(ids, input, cells, rnd).0);
            u == Tally(ids, ScenarioKeys(Used(cells))) && u + x == Tally(ids, ScenarioKeys(cells))
  {
    hide RolledScenario, OfScenario, Used;
    if ids != [] {
      var n := |ids| - 1;
      ScenarioTotalsTally(ids[..n], input, cells, rnd);
      assert ids == ids[..n] + [ids[n]];
      TallyAppend(ids[..n], ids[n], ScenarioKeys(cells));
      TallyAppend(ids[..n], ids[n], ScenarioKeys(Used(cells)));
      var (ss, r) := RolledScenarios(ids[..n], input, cells, rnd);
      var s := RolledScenario(ids[n], input, cells, r).0;
      assert (ss + [s])[..|ss|] == ss;
      ScenarioAccountsForCells(ids[n], input, cells, r);
      CountsScenario(cells, ids[n]);
      CountsScenario(Used(cells), ids[n]);
      UsedOfScenario(cells, ids[n]);
    }
  }

  lemma {:induction false} LevelsPartition(cells: seq<Cell>)
    ensures CountLevel(cells, Valid) + CountLevel(cells, Suspect) + CountLevel(cells, Invalid) == |cells|
  {
    if cells != [] {
      LevelsPartition(cells[..|cells| - 1]);
    }
  }

  lemma {:induction false} UsedCounts(cells: seq<Cell>)
    ensures |Used(cells)| + CountLevel(cells, Invalid) == |cells|
  {
    if cells != [] {
      var n := |cells| - 1;
      UsedCounts(cells[..n]);
      UsedAppend(cells[..n], cells[n]);
      assert cells == cells[..n] + [cells[n]];
    }
  }

  lemma {:induction false} UsedAppend(cells: seq<Cell>, c: Cell)
    ensures Used(cells + [c]) == Used(cells) + if Usable(c) then [c] else []
  {
    if cells == [] {
      assert [] + [c] == [c];
      assert Used([c][1..]) == [];
    } else {
      assert (cells + [c])[1..] == cells[1..] + [c];
      UsedAppend(cells[1..], c);
    }
  }

  /**
   Cells are conserved.  The three levels add up to the cells that ran, and the used and excluded
   figures printed for every arm of every scenario add up to the usable and the excluded ones.
   */
  lemma CellsAreConserved(input: Input, cells: seq<Cell>, generator: nat -> (nat -> nat))
    ensures var r := RolledUp(input, cells, generator);
            && r.counts.ran == |cells| == r.counts.valid + r.counts.suspect + r.counts.invalid
            && ScenarioTotals(r.scenarios) == (|cells| - r.counts.excluded, r.counts.excluded)
            && |Used(cells)| == |cells| - r.counts.excluded
  {
    hide *;
    LevelsPartition(cells);
    UsedCounts(cells);
    RollupShape(input, cells, generator);
    CountsFields(cells);
    AllScenariosAccount(input, cells, SourceFor(input.seed, generator));
  }

  lemma CountsFields(cells: seq<Cell>)
    ensures CountsOf(cells).ran == |cells|
    ensures CountsOf(cells).valid == CountLevel(cells, Valid) && CountsOf(cells).suspect == CountLevel(cells, Suspect)
    ensures CountsOf(cells).invalid == CountsOf(cells).excluded == CountLevel(cells, Invalid)
  {
  }

  lemma AllScenariosAccount(input: Input, cells: seq<Cell>, rnd: Source)
    ensures ScenarioTotals(RolledScenarios(Names.Sorted(ScenariosIn(cells)), input, cells, rnd).0)
         == (|Used(cells)|, |cells| - |Used(cells)|)
  {
    hide RolledScenarios, ScenarioTotals, Used, Tally, Names.Sorted;
    var ids := Names.Sorted(ScenariosIn(cells));
    Names.SortedLists(ScenariosIn(cells));
    UsedAreCells(cells);
    ScenarioTotalsTally(ids, input, cells, rnd);
    TallyIsAll(ids, ScenarioKeys(cells));
    TallyIsAll(ids, ScenarioKeys(Used(cells)));
  }
}
