/**
 What the leading sentence of a report claims beyond its figures (result/campaign.go): that deltas, or
 the scenarios without a regression, are inside their noise bands.
 */
module VerdictClaims {
  import opened Campaign
  import opened CampaignProperties
  import opened Verdicts
  import Compare

  // ---------- "every delta that could be decided is inside its noise band" ----------

  predicate AllInside(flat: seq<(string, Comparison)>) {
    forall i :: 0 <= i < |flat| ==> Decided(flat[i].1) ==> flat[i].1.decision == Compare.Noise
  }

  lemma InsideIff(flat: seq<(string, Comparison)>)
    requires FlatLabelled(flat)
    ensures AllInside(flat) <==> !SomeJudged(flat, Regression) && !SomeJudged(flat, Improvement)
  {
    JudgedMeans(flat);
    hide FlatLabelled;
  }

  /** Said of a campaign without a regression, it holds if and only if there is no improvement either. */
  lemma NoRegressionClaimIff(input: Input, cells: seq<Cell>, generator: nat -> (nat -> nat), arms: nat)
    requires VerdictOf(RolledUp(input, cells, generator), arms).NoRegression?
    ensures var r := RolledUp(input, cells, generator); AllInside(Flat(r.scenarios)) <==> r.improvements == []
  {
    hide *;
    RollupFacts(input, cells, generator);
    VerdictIsTrue(input, cells, generator, arms);
    var flat := Flat(RolledUp(input, cells, generator).scenarios);
    FindingsTouch(flat, Improvement);
    InsideIff(flat);
  }

  // ---------- "the others are inside their noise bands" ----------

  predicate AllNoise(cs: seq<Comparison>) {
    forall i :: 0 <= i < |cs| ==> cs[i].decision == Compare.Noise
  }

  predicate AllDecided(cs: seq<Comparison>) {
    forall i :: 0 <= i < |cs| ==> Decided(cs[i])
  }

  predicate OthersInside(r: Rollup) {
    forall i :: 0 <= i < |r.scenarios| && r.scenarios[i].scenario !in Touched(r.regressions) ==>
      r.scenarios[i].comparisons != [] && AllNoise(r.scenarios[i].comparisons)
  }

  /** Every scenario without a regression was compared, to the last figure decided, and none improved. */
  predicate OthersSettled(r: Rollup) {
    && (forall i :: 0 <= i < |r.scenarios| && r.scenarios[i].scenario !in Touched(r.regressions) ==>
          r.scenarios[i].comparisons != [] && AllDecided(r.scenarios[i].comparisons))
    && Touched(r.improvements) <= Touched(r.regressions)
  }

  predicate InFlat(flat: seq<(string, Comparison)>, x: (string, Comparison)) {
    exists k :: 0 <= k < |flat| && flat[k] == x
  }

  predicate InScenarios(ss: seq<ScenarioRollup>, x: (string, Comparison)) {
    exists i :: 0 <= i < |ss| && ss[i].scenario == x.0 && x.1 in ss[i].comparisons
  }

  lemma {:induction false} FlatHolds(ss: seq<ScenarioRollup>, x: (string, Comparison))
    ensures InFlat(Flat(ss), x) <==> InScenarios(ss, x)
  {
    hide Flat, InFlat, InScenarios;
    if ss == [] {
      NothingHeld(x);
    } else {
      var n := |ss| - 1;
      FlatHolds(ss[..n], x);
      FlatAppend(ss[..n], ss[n]);
      assert ss == ss[..n] + [ss[n]];
      OneMoreHeld(Flat(ss[..n]), ss[n], x);
      OneMoreScenario(ss, x);
    }
  }

  lemma NothingHeld(x: (string, Comparison))
    ensures !InFlat(Flat([]), x) && !InScenarios([], x)
  {
  }

  lemma OneMoreHeld(flat: seq<(string, Comparison)>, s: ScenarioRollup, x: (string, Comparison))
    ensures InFlat(flat + Tagged(s.scenario, s.comparisons), x) <==> InFlat(flat, x) || (s.scenario == x.0 && x.1 in s.comparisons)
  {
    var tagged := Tagged(s.scenario, s.comparisons);
    var more := flat + tagged;
    if InFlat(flat, x) {
      var k :| 0 <= k < |flat| && flat[k] == x;
      assert more[k] == x;
    }
    if s.scenario == x.0 && x.1 in s.comparisons {
      var j :| 0 <= j < |s.comparisons| && s.comparisons[j] == x.1;
      assert tagged[j] == x && more[|flat| + j] == x;
    }
    if InFlat(more, x) {
      var k :| 0 <= k < |more| && more[k] == x;
      assert k < |flat| ==> flat[k] == x;
      assert k >= |flat| ==> tagged[k - |flat|] == x && s.comparisons[k - |flat|] == x.1;
    }
  }

  lemma OneMoreScenario(ss: seq<ScenarioRollup>, x: (string, Comparison))
    requires ss != []
    ensures var s := ss[|ss| - 1];
            InScenarios(ss, x) <==> InScenarios(ss[..|ss| - 1], x) || (s.scenario == x.0 && x.1 in s.comparisons)
  {
    assert forall i :: 0 <= i < |ss| - 1 ==> ss[..|ss| - 1][i] == ss[i];
  }

  /** A scenario's comparison is judged so in the flattened list too, under the scenario's name. */
  lemma JudgedInFlat(ss: seq<ScenarioRollup>, i: nat, j: nat)
    requires FlatLabelled(Flat(ss)) && i < |ss| && j < |ss[i].comparisons|
    ensures var c := ss[i].comparisons[j];
            && Labelled(c)
            && forall l: Label :: c.judgement == l ==> ss[i].scenario in JudgedScenarios(Flat(ss), l)
  {
    hide Labelled, Flat;
    var x := (ss[i].scenario, ss[i].comparisons[j]);
    FlatHolds(ss, x);
    assert InScenarios(ss, x);
    var k :| 0 <= k < |Flat(ss)| && Flat(ss)[k] == x;
    assert Labelled(Flat(ss)[k].1);
  }

  /** And the other way round. */
  lemma JudgedSomewhere(ss: seq<ScenarioRollup>, l: Label, id: string) returns (i: nat, j: nat)
    requires id in JudgedScenarios(Flat(ss), l)
    ensures i < |ss| && ss[i].scenario == id && j < |ss[i].comparisons| && ss[i].comparisons[j].judgement == l
  {
    hide Flat;
    var k :| 0 <= k < |Flat(ss)| && Flat(ss)[k].1.judgement == l && Flat(ss)[k].0 == id;
    FlatHolds(ss, Flat(ss)[k]);
    assert InFlat(Flat(ss), Flat(ss)[k]);
    i :| 0 <= i < |ss| && ss[i].scenario == id && Flat(ss)[k].1 in ss[i].comparisons;
    j :| 0 <= j < |ss[i].comparisons| && ss[i].comparisons[j] == Flat(ss)[k].1;
  }

  lemma NoiseMeans(c: Comparison)
    requires Labelled(c)
    ensures c.decision == Compare.Noise <==> Decided(c) && c.judgement != Regression && c.judgement != Improvement
  {
  }

  /**
   Said of the scenarios without a regression, it holds if and only if each of them was compared, with
   every comparison decided, and none holds an improvement: the sentence counts a scenario about which
   nothing could be concluded among those it calls unchanged.
   */
  lemma OthersClaimIff(input: Input, cells: seq<Cell>, generator: nat -> (nat -> nat))
    ensures var r := RolledUp(input, cells, generator); OthersInside(r) <==> OthersSettled(r)
  {
    hide *;
    RollupFacts(input, cells, generator);
    var r := RolledUp(input, cells, generator);
    FindingsTouch(Flat(r.scenarios), Regression);
    FindingsTouch(Flat(r.scenarios), Improvement);
    OthersIff(r);
  }

  lemma OthersIff(r: Rollup)
    requires FlatLabelled(Flat(r.scenarios))
    requires Touched(r.regressions) == JudgedScenarios(Flat(r.scenarios), Regression)
    requires Touched(r.improvements) == JudgedScenarios(Flat(r.scenarios), Improvement)
    ensures OthersInside(r) <==> OthersSettled(r)
  {
    hide Flat, FlatLabelled, JudgedScenarios, Labelled, Touched, LabelFor;
    var ss, touched := r.scenarios, Touched(r.regressions);
    if OthersInside(r) {
      forall id | id in Touched(r.improvements)
        ensures id in touched
      {
        var i, j := JudgedSomewhere(ss, Improvement, id);
        JudgedInFlat(ss, i, j);
        NoiseMeans(ss[i].comparisons[j]);
      }
    }
    if OthersSettled(r) {
      forall i | 0 <= i < |ss| && ss[i].scenario !in touched
        ensures AllNoise(ss[i].comparisons)
      {
        forall j | 0 <= j < |ss[i].comparisons|
          ensures ss[i].comparisons[j].decision == Compare.Noise
        {
          JudgedInFlat(ss, i, j);
          NoiseMeans(ss[i].comparisons[j]);
        }
      }
    }
  }
}
