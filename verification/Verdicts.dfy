/**
 What a campaign says of itself (result/campaign.go): the arms it lists, and the sentence that leads
 its report.
 */
module Verdicts {
  import opened Lists
  import opened Campaign
  import opened CampaignProperties
  import opened Randomness
  import Compare
  import Names

  // ---------- armOrderNames ----------

  /** The declared names that ran, as often as they are declared. */
  function DeclaredThatRan(declared: seq<string>, ran: set<string>): seq<string> {
    if declared == [] then []
    else
      var n := |declared| - 1;
      DeclaredThatRan(declared[..n], ran) + if declared[n] in ran then [declared[n]] else []
  }

  function AsSet(names: seq<string>): set<string> {
    set x | x in names
  }

  /** Every name of the set, once, in whatever order a map yields its keys. */
  predicate Enumerates(names: seq<string>, s: set<string>) {
    Distinct(names) && AsSet(names) == s
  }

  /** What the listing may come out as: only without a declaration are the undeclared arms sorted. */
  ghost predicate IsListing(out: seq<string>, declared: seq<string>, ran: set<string>) {
    if declared == [] then out == Names.Sorted(ran)
    else exists rest :: Enumerates(rest, ran - AsSet(declared)) && out == DeclaredThatRan(declared, ran) + rest
  }

  lemma {:induction false} RanAndDeclared(declared: seq<string>, ran: set<string>)
    ensures AsSet(DeclaredThatRan(declared, ran)) == AsSet(declared) * ran
  {
    if declared != [] {
      var n := |declared| - 1;
      RanAndDeclared(declared[..n], ran);
      var before, last := DeclaredThatRan(declared[..n], ran), declared[n];
      assert before + [] == before;
      SetGrows(declared[..n], last);
      assert declared == declared[..n] + [last];
      SetGrows(before, last);
    }
  }

  lemma SetGrows(names: seq<string>, x: string)
    ensures AsSet(names + [x]) == AsSet(names) + {x}
  {
  }

  lemma OneMore(rest: seq<string>, s: set<string>, x: string)
    requires Enumerates(rest, s) && x !in s
    ensures Enumerates(rest + [x], s + {x})
  {
    OneMoreDistinct(rest, x);
    SetGrows(rest, x);
    assert x in rest <==> x in AsSet(rest);
    hide Distinct;
  }

  method ListArms(declared: seq<string>, ran: set<string>) returns (out: seq<string>)
    ensures IsListing(out, declared, ran)
  {
    hide Enumerates, AsSet, Distinct;
    out := [];
    for i := 0 to |declared|
      invariant out == DeclaredThatRan(declared[..i], ran)
    {
      assert declared[..i + 1][..i] == declared[..i];
      if declared[i] in ran { out := out + [declared[i]]; }
    }
    assert declared[..|declared|] == declared;
    ghost var first := out;
    RanAndDeclared(declared, ran);
    ghost var rest: seq<string> := [];
    NothingListed(ran, declared);
    var todo := ran;
    while todo != {}
      invariant todo <= ran && out == first + rest
      invariant Enumerates(rest, ran - todo - AsSet(declared))
      decreases |todo|
    {
      var name :| name in todo;
      ListedAlready(first, rest, ran, todo, declared, name);
      if name !in out {
        OneMore(rest, ran - todo - AsSet(declared), name);
        out, rest := out + [name], rest + [name];
      }
      todo := todo - {name};
    }
    assert ran - {} - AsSet(declared) == ran - AsSet(declared);
    if |declared| == 0 {
      NoneDeclared(rest, ran);
      assert out == rest;
      out := SortNames(out);
    }
  }

  method SortNames(names: seq<string>) returns (out: seq<string>)
    ensures out == Names.Sorted(AsSet(names))
  {
    out := Names.Sorted(AsSet(names));
  }

  lemma NothingListed(ran: set<string>, declared: seq<string>)
    ensures Enumerates([], ran - ran - AsSet(declared))
  {
    assert ran - ran - AsSet(declared) == {};
  }

  lemma NoneDeclared(rest: seq<string>, ran: set<string>)
    requires Enumerates(rest, ran - AsSet([]))
    ensures AsSet(rest) == ran
  {
  }

  /** A name still to do is listed already exactly when it is declared. */
  lemma ListedAlready(
    first: seq<string>, rest: seq<string>, ran: set<string>, todo: set<string>, declared: seq<string>, name: string)
    requires name in todo && todo <= ran && AsSet(first) == AsSet(declared) * ran
    requires Enumerates(rest, ran - todo - AsSet(declared))
    ensures name in first + rest <==> name in AsSet(declared)
    ensures var s, s' := ran - todo - AsSet(declared), ran - (todo - {name}) - AsSet(declared);
            name !in s && s' == if name in AsSet(declared) then s else s + {name}
  {
    assert name in first <==> name in AsSet(first);
    assert name in rest <==> name in AsSet(rest);
  }

  // ---------- whether the listing is determined ----------

  predicate AtMostOne(s: set<string>) {
    forall x, y :: x in s && y in s ==> x == y
  }

  lemma SortedEnumerates(s: set<string>)
    ensures Enumerates(Names.Sorted(s), s)
  {
    Names.SortedLists(s);
  }

  /** An enumeration can end with any of its names. */
  lemma EndingWith(s: set<string>, x: string)
    requires x in s
    ensures Enumerates(Names.Sorted(s - {x}) + [x], s)
  {
    SortedEnumerates(s - {x});
    hide Enumerates;
    OneMore(Names.Sorted(s - {x}), s - {x}, x);
    assert s - {x} + {x} == s;
  }

  lemma OneWay(a: seq<string>, b: seq<string>, s: set<string>)
    requires Enumerates(a, s) && Enumerates(b, s) && AtMostOne(s)
    ensures a == b
  {
    FirstTwo(a);
    FirstTwo(b);
    hide AsSet, Distinct;
  }

  lemma FirstTwo(a: seq<string>)
    ensures if a == [] then AsSet(a) == {} else a[0] in AsSet(a)
    ensures |a| > 1 ==> a[1] in AsSet(a) && (Distinct(a) ==> a[0] != a[1])
  {
  }

  /**
   The report's arms are the same every time it is made from the same cells if and only if no arms are
   declared or at most one arm ran without being declared.
   */
  lemma ListingDeterminedIff(declared: seq<string>, ran: set<string>)
    ensures (forall a, b :: IsListing(a, declared, ran) && IsListing(b, declared, ran) ==> a == b)
       <==> declared == [] || AtMostOne(ran - AsSet(declared))
  {
    hide Enumerates, AsSet, DeclaredThatRan, AtMostOne;
    var s, first := ran - AsSet(declared), DeclaredThatRan(declared, ran);
    if declared != [] {
      if AtMostOne(s) {
        forall a, b | IsListing(a, declared, ran) && IsListing(b, declared, ran)
          ensures a == b
        {
          var ra :| Enumerates(ra, s) && a == first + ra;
          var rb :| Enumerates(rb, s) && b == first + rb;
          OneWay(ra, rb, s);
        }
      } else {
        var x, y := TwoOf(s);
        EndingWith(s, x);
        EndingWith(s, y);
        var a, b := first + (Names.Sorted(s - {x}) + [x]), first + (Names.Sorted(s - {y}) + [y]);
        assert IsListing(a, declared, ran) && IsListing(b, declared, ran);
        assert a[|a| - 1] == x && b[|b| - 1] == y;
      }
    }
  }

  lemma TwoOf(s: set<string>) returns (x: string, y: string)
    requires !AtMostOne(s)
    ensures x in s && y in s && x != y
  {
    x, y :| x in s && y in s && x != y;
  }

  // ---------- verdictSentence ----------

  /** The cases of the leading sentence, and the figures in it. */
  datatype Verdict =
    | NothingRan
    | EveryCellExcluded
    | NoComparison(fewArms: bool)
    | NothingEstablished
    | NoRegression
    | Regressed(touched: nat, others: int)

  function Touched(fs: seq<Finding>): set<string> {
    set i | 0 <= i < |fs| :: fs[i].scenario
  }

  function VerdictOf(r: Rollup, arms: nat): Verdict {
    if r.counts.ran == 0 then NothingRan
    else if r.counts.ran - r.counts.excluded == 0 then EveryCellExcluded
    else if r.evidence.comparisons == 0 then NoComparison(arms < 2)
    else if r.evidence.conclusive == 0 then NothingEstablished
    else if r.regressions == [] then NoRegression
    else Regressed(|Touched(r.regressions)|, |r.scenarios| - |Touched(r.regressions)|)
  }

  method ComputeVerdict(r: Rollup, arms: seq<string>) returns (v: Verdict)
    ensures v == VerdictOf(r, |arms|)
  {
    if r.counts.ran == 0 { return NothingRan; }
    var usable := r.counts.ran - r.counts.excluded;
    if usable == 0 { return EveryCellExcluded; }
    if r.evidence.comparisons == 0 { return NoComparison(|arms| < 2); }
    if r.evidence.conclusive == 0 { return NothingEstablished; }
    if |r.regressions| == 0 { return NoRegression; }
    var touched: set<string> := {};
    for i := 0 to |r.regressions|
      invariant touched == Touched(r.regressions[..i])
    {
      TouchedStep(r.regressions, i);
      touched := touched + {r.regressions[i].scenario};
    }
    assert r.regressions[..|r.regressions|] == r.regressions;
    return Regressed(|touched|, |r.scenarios| - |touched|);
  }

  lemma TouchedStep(fs: seq<Finding>, i: nat)
    requires i < |fs|
    ensures Touched(fs[..i + 1]) == Touched(fs[..i]) + {fs[i].scenario}
  {
    assert forall k :: 0 <= k < i ==> fs[..i + 1][k] == fs[..i][k];
    assert fs[..i + 1][i] == fs[i];
  }

  // ---------- what the figures are figures of ----------

  predicate Labelled(c: Comparison) {
    c.judgement == LabelFor(c.decision, LowerIsBetter(c.quantity))
  }

  predicate AllLabelled(cs: seq<Comparison>) {
    forall i :: 0 <= i < |cs| ==> Labelled(cs[i])
  }

  lemma {:induction false} ComparedAllLabelled(
    qs: seq<Quantity>, baseline: string, base: seq<Cell>, arm: string, cells: seq<Cell>, rnd: Source)
    ensures AllLabelled(ComparedAll(qs, baseline, base, arm, cells, rnd).0)
  {
    hide Compare.Compared, Measured, LabelFor;
    if qs != [] {
      ComparedAllLabelled(qs[..|qs| - 1], baseline, base, arm, cells, rnd);
    }
  }

  lemma {:induction false} ComparedArmsLabelled(base: string, arms: seq<string>, mine: seq<Cell>, rnd: Source)
    ensures AllLabelled(ComparedArms(base, arms, mine, rnd).0)
  {
    hide ComparedAll, Labelled;
    if arms != [] {
      var n := |arms| - 1;
      ComparedArmsLabelled(base, arms[..n], mine, rnd);
      ComparedAllLabelled(COMPARED, base, Used(OfArm(mine, base)), arms[n], Used(OfArm(mine, arms[n])), ComparedArms(base, arms[..n], mine, rnd).1);
    }
  }

  predicate FlatLabelled(flat: seq<(string, Comparison)>) {
    forall i :: 0 <= i < |flat| ==> Labelled(flat[i].1)
  }

  lemma ScenarioLabelled(id: string, input: Input, cells: seq<Cell>, rnd: Source)
    ensures AllLabelled(RolledScenario(id, input, cells, rnd).0.comparisons)
    ensures RolledScenario(id, input, cells, rnd).0.scenario == id
  {
    var mine := OfScenario(cells, id);
    var order := ArmOrder(input.arms, ArmsIn(mine));
    ComparedArmsLabelled(BaselineOf(input.baseline, order), order, mine, rnd);
    hide ComparedArms, AllLabelled, RolledArm;
  }

  predicate NamedIn(flat: seq<(string, Comparison)>, ids: seq<string>) {
    forall i :: 0 <= i < |flat| ==> flat[i].0 in ids
  }

  lemma {:induction false} ScenariosLabelled(ids: seq<string>, input: Input, cells: seq<Cell>, rnd: Source)
    ensures var ss := RolledScenarios(ids, input, cells, rnd).0;
            && |ss| == |ids| && (forall i :: 0 <= i < |ids| ==> ss[i].scenario == ids[i])
            && FlatLabelled(Flat(ss)) && NamedIn(Flat(ss), ids)
  {
    hide RolledScenario, FlatLabelled, NamedIn, AllLabelled, Flat;
    if ids == [] {
      NothingFlat();
      NothingLabelled(ids);
    } else {
      var n := |ids| - 1;
      ScenariosLabelled(ids[..n], input, cells, rnd);
      var (ss, r) := RolledScenarios(ids[..n], input, cells, rnd);
      ScenarioLabelled(ids[n], input, cells, r);
      var s := RolledScenario(ids[n], input, cells, r).0;
      FlatAppend(ss, s);
      MoreLabelled(Flat(ss), s, ids);
    }
  }

  lemma NothingLabelled(ids: seq<string>)
    ensures FlatLabelled([]) && NamedIn([], ids)
  {
  }

  lemma MoreLabelled(flat: seq<(string, Comparison)>, s: ScenarioRollup, ids: seq<string>)
    requires ids != [] && FlatLabelled(flat) && NamedIn(flat, ids[..|ids| - 1])
    requires AllLabelled(s.comparisons) && s.scenario == ids[|ids| - 1]
    ensures FlatLabelled(flat + Tagged(s.scenario, s.comparisons)) && NamedIn(flat + Tagged(s.scenario, s.comparisons), ids)
  {
    hide Labelled;
    var more := flat + Tagged(s.scenario, s.comparisons);
    forall i | 0 <= i < |more|
      ensures Labelled(more[i].1) && more[i].0 in ids
    {
      if i < |flat| {
        assert more[i] == flat[i] && flat[i].0 in ids[..|ids| - 1];
      } else {
        assert more[i] == (s.scenario, s.comparisons[i - |flat|]);
      }
    }
  }

  predicate SomeJudged(flat: seq<(string, Comparison)>, l: Label) {
    exists i :: 0 <= i < |flat| && flat[i].1.judgement == l
  }

  function JudgedScenarios(flat: seq<(string, Comparison)>, l: Label): set<string> {
    set i | 0 <= i < |flat| && flat[i].1.judgement == l :: flat[i].0
  }

  lemma JudgedStep(flat: seq<(string, Comparison)>, l: Label)
    requires flat != []
    ensures var n := |flat| - 1;
            && JudgedScenarios(flat, l) == JudgedScenarios(flat[..n], l) + (if flat[n].1.judgement == l then {flat[n].0} else {})
            && (SomeJudged(flat, l) <==> SomeJudged(flat[..n], l) || flat[n].1.judgement == l)
  {
    var n := |flat| - 1;
    assert forall k :: 0 <= k < n ==> flat[..n][k] == flat[k];
  }

  lemma FindingAdded(fs: seq<Finding>, f: Finding)
    ensures Touched(fs + [f]) == Touched(fs) + {f.scenario} && Touched([]) == {}
  {
    TouchedStep(fs + [f], |fs|);
    assert (fs + [f])[..|fs| + 1] == fs + [f] && (fs + [f])[..|fs|] == fs;
  }

  /** The findings of a label touch exactly the scenarios that have a comparison judged so. */
  lemma {:induction false} FindingsTouch(flat: seq<(string, Comparison)>, l: Label)
    ensures Touched(FindingsOf(flat, l)) == JudgedScenarios(flat, l)
    ensures FindingsOf(flat, l) != [] <==> SomeJudged(flat, l)
  {
    hide Touched, JudgedScenarios, SomeJudged;
    if flat == [] {
      NothingJudged(l);
    } else {
      var n := |flat| - 1;
      FindingsTouch(flat[..n], l);
      JudgedStep(flat, l);
      var (id, c) := flat[n];
      FindingAdded(FindingsOf(flat[..n], l), Finding(id, c.arm, c.quantity, c.deltaPct));
      assert FindingsOf(flat[..n], l) + [] == FindingsOf(flat[..n], l);
    }
  }

  lemma NothingJudged(l: Label)
    ensures JudgedScenarios([], l) == {} && !SomeJudged([], l) && Touched([]) == {}
  {
  }

  predicate Decided(c: Comparison) { c.decision != Compare.Insufficient }

  predicate SomeDecided(flat: seq<(string, Comparison)>) {
    exists i :: 0 <= i < |flat| && Decided(flat[i].1)
  }

  lemma {:induction false} ConclusiveIff(flat: seq<(string, Comparison)>)
    ensures CountInsufficient(flat) <= |flat| && (CountInsufficient(flat) < |flat| <==> SomeDecided(flat))
  {
    if flat != [] {
      var n := |flat| - 1;
      ConclusiveIff(flat[..n]);
      assert forall k :: 0 <= k < n ==> flat[..n][k] == flat[k];
    }
  }

  /** A judgement other than "insufficient" was decided, and one that is neither good nor bad is noise. */
  lemma JudgedMeans(flat: seq<(string, Comparison)>)
    requires FlatLabelled(flat)
    ensures SomeJudged(flat, Regression) ==> SomeDecided(flat)
    ensures forall i :: 0 <= i < |flat| ==>
              ((Decided(flat[i].1) && flat[i].1.decision != Compare.Noise)
                 <==> flat[i].1.judgement == Regression || flat[i].1.judgement == Improvement)
  {
    forall i | 0 <= i < |flat|
      ensures (Decided(flat[i].1) && flat[i].1.decision != Compare.Noise)
         <==> flat[i].1.judgement == Regression || flat[i].1.judgement == Improvement
    {
      assert Labelled(flat[i].1);
    }
    hide Labelled;
    if SomeJudged(flat, Regression) {
      var i :| 0 <= i < |flat| && flat[i].1.judgement == Regression;
      assert Decided(flat[i].1);
    }
  }

  function ScenarioNames(ss: seq<ScenarioRollup>): set<string> {
    set i | 0 <= i < |ss| :: ss[i].scenario
  }

  lemma {:induction false} AsManyNames(ss: seq<ScenarioRollup>)
    requires forall i, j :: 0 <= i < j < |ss| ==> ss[i].scenario != ss[j].scenario
    ensures |ScenarioNames(ss)| == |ss|
  {
    if ss != [] {
      var n := |ss| - 1;
      AsManyNames(ss[..n]);
      assert forall k :: 0 <= k < n ==> ss[..n][k] == ss[k];
      assert ss[n].scenario !in ScenarioNames(ss[..n]);
      assert ScenarioNames(ss) == ScenarioNames(ss[..n]) + {ss[n].scenario};
    }
  }

  /** The facts a roll-up's figures rest on. */
  lemma RollupFacts(input: Input, cells: seq<Cell>, generator: nat -> (nat -> nat))
    ensures var r := RolledUp(input, cells, generator);
            var flat := Flat(r.scenarios);
            && r.evidence == EvidenceOf(flat) && r.regressions == FindingsOf(flat, Regression)
            && r.improvements == FindingsOf(flat, Improvement)
            && FlatLabelled(flat) && |ScenarioNames(r.scenarios)| == |r.scenarios|
            && JudgedScenarios(flat, Regression) <= ScenarioNames(r.scenarios)
            && (cells == [] ==> flat == [])
  {
    hide *;
    RollupShape(input, cells, generator);
    var ids := Names.Sorted(ScenariosIn(cells));
    Names.SortedLists(ScenariosIn(cells));
    var rnd := SourceFor(input.seed, generator);
    ScenariosLabelled(ids, input, cells, rnd);
    var ss := RolledScenarios(ids, input, cells, rnd).0;
    DistinctNames(ids, ss);
    AsManyNames(ss);
    JudgedAreNamed(Flat(ss), ids, ss);
    NoCellsNoComparisons(input, cells, generator);
  }

  lemma DistinctNames(ids: seq<string>, ss: seq<ScenarioRollup>)
    requires Distinct(ids) && |ss| == |ids| && forall i :: 0 <= i < |ids| ==> ss[i].scenario == ids[i]
    ensures forall i, j :: 0 <= i < j < |ss| ==> ss[i].scenario != ss[j].scenario
  {
  }

  lemma JudgedAreNamed(flat: seq<(string, Comparison)>, ids: seq<string>, ss: seq<ScenarioRollup>)
    requires NamedIn(flat, ids) && |ss| == |ids| && forall i :: 0 <= i < |ids| ==> ss[i].scenario == ids[i]
    ensures JudgedScenarios(flat, Regression) <= ScenarioNames(ss)
  {
    forall x | x in JudgedScenarios(flat, Regression)
      ensures x in ScenarioNames(ss)
    {
      var k :| 0 <= k < |flat| && flat[k].1.judgement == Regression && flat[k].0 == x;
      var i :| 0 <= i < |ids| && ids[i] == x;
      assert ss[i].scenario == x;
    }
  }

  lemma NoCellsNoComparisons(input: Input, cells: seq<Cell>, generator: nat -> (nat -> nat))
    ensures Used(cells) == [] ==> Flat(RolledUp(input, cells, generator).scenarios) == []
    ensures cells == [] ==> Used(cells) == []
  {
    RollupConcludes(input, cells, generator);
    hide RolledUp, SettledIn;
    if Used(cells) == [] {
      assert ScenariosIn([]) == {};
    }
  }

  /**
   The leading sentence says what is so.  Each of its cases is given exactly when the cells and the
   comparisons warrant it: that nothing was established is never taken for no regression, any regression
   is always announced, and the scenarios counted as regressed and as the others are exactly those.
   */
  lemma VerdictIsTrue(input: Input, cells: seq<Cell>, generator: nat -> (nat -> nat), arms: nat)
    ensures var r := RolledUp(input, cells, generator);
            var flat, v := Flat(r.scenarios), VerdictOf(r, arms);
            && (v.NothingRan? <==> cells == [])
            && (v.EveryCellExcluded? <==> cells != [] && Used(cells) == [])
            && (v.NoComparison? <==> Used(cells) != [] && flat == [])
            && (v.NoComparison? ==> (v.fewArms <==> arms < 2))
            && (v.NothingEstablished? <==> flat != [] && !SomeDecided(flat))
            && (v.NoRegression? <==> SomeDecided(flat) && !SomeJudged(flat, Regression))
            && (v.Regressed? <==> SomeJudged(flat, Regression))
            && (v.Regressed? ==>
                  && v.touched == |JudgedScenarios(flat, Regression)| > 0
                  && v.others == |ScenarioNames(r.scenarios) - JudgedScenarios(flat, Regression)|)
  {
    hide *;
    RollupFacts(input, cells, generator);
    CellsAreConserved(input, cells, generator);
    NoCellsNoComparisons(input, cells, generator);
    var r := RolledUp(input, cells, generator);
    FindingsTouch(Flat(r.scenarios), Regression);
    ConclusiveIff(Flat(r.scenarios));
    JudgedMeans(Flat(r.scenarios));
    Cases(r, Flat(r.scenarios), arms);
  }

  lemma Cases(r: Rollup, flat: seq<(string, Comparison)>, arms: nat)
    requires r.evidence == EvidenceOf(flat) && r.regressions == FindingsOf(flat, Regression)
    requires Touched(FindingsOf(flat, Regression)) == JudgedScenarios(flat, Regression) <= ScenarioNames(r.scenarios)
    requires FindingsOf(flat, Regression) != [] <==> SomeJudged(flat, Regression)
    requires CountInsufficient(flat) <= |flat| && (CountInsufficient(flat) < |flat| <==> SomeDecided(flat))
    requires SomeJudged(flat, Regression) ==> SomeDecided(flat)
    requires |ScenarioNames(r.scenarios)| == |r.scenarios|
    requires r.counts.ran == 0 || r.counts.ran == r.counts.excluded ==> flat == []
    ensures var v := VerdictOf(r, arms);
            && (v.NothingRan? <==> r.counts.ran == 0)
            && (v.EveryCellExcluded? <==> r.counts.ran != 0 && r.counts.ran == r.counts.excluded)
            && (v.NoComparison? <==> r.counts.ran != 0 && r.counts.ran != r.counts.excluded && flat == [])
            && (v.NoComparison? ==> (v.fewArms <==> arms < 2))
            && (v.NothingEstablished? <==> flat != [] && !SomeDecided(flat))
            && (v.NoRegression? <==> SomeDecided(flat) && !SomeJudged(flat, Regression))
            && (v.Regressed? <==> SomeJudged(flat, Regression))
            && (v.Regressed? ==>
                  && v.touched == |JudgedScenarios(flat, Regression)| > 0
                  && v.others == |ScenarioNames(r.scenarios) - JudgedScenarios(flat, Regression)|)
  {
    hide FindingsOf, CountInsufficient, ScenarioNames;
    var touched := JudgedScenarios(flat, Regression);
    if SomeJudged(flat, Regression) {
      var i :| 0 <= i < |flat| && flat[i].1.judgement == Regression;
      assert flat[i].0 in touched;
    }
    hide JudgedScenarios;
    assert |ScenarioNames(r.scenarios) - touched| == |ScenarioNames(r.scenarios)| - |touched|;
  }
}
