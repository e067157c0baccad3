/** What a roll-up holds: every scenario, arm and contrast there is, once, and in what order. */
module RollupFigures {
  import opened Campaign
  import opened CampaignFigures
  import opened CampaignProperties
  import opened Randomness
  import Describe
  import Names

  /** A cell of the scenario and arm ran. */
  predicate Took(cells: seq<Cell>, id: string, arm: string) {
    exists i :: 0 <= i < |cells| && cells[i].scenario == id && cells[i].arm == arm
  }

  predicate Ran(cells: seq<Cell>, id: string) {
    exists i :: 0 <= i < |cells| && cells[i].scenario == id
  }

  // ---------- contrasts ----------

  /** Which arm and which quantity each comparison is of. */
  function Contrasts(cs: seq<Comparison>): (xs: seq<(string, Quantity)>)
    ensures |xs| == |cs|
  {
    seq(|cs|, i requires 0 <= i < |cs| => (cs[i].arm, cs[i].quantity))
  }

  function Of(arm: string, qs: seq<Quantity>): (xs: seq<(string, Quantity)>)
    ensures |xs| == |qs|
  {
    seq(|qs|, i requires 0 <= i < |qs| => (arm, qs[i]))
  }

  /** For every arm but the baseline, in order, those of the six quantities that both measured. */
  function Due(base: string, arms: seq<string>, cells: seq<Cell>, id: string): seq<(string, Quantity)> {
    if arms == [] then []
    else
      var n := |arms| - 1;
      Due(base, arms[..n], cells, id)
      + if arms[n] == base then [] else Of(arms[n], MeasuredByBoth(Six(), Chosen(cells, id, base), Chosen(cells, id, arms[n])))
  }

  lemma OneArm(base: string, arm: string, cells: seq<Cell>, id: string, rnd: Source)
    ensures var mine := OfScenario(cells, id);
            Contrasts(ComparedAll(COMPARED, base, Used(OfArm(mine, base)), arm, Used(OfArm(mine, arm)), rnd).0)
            == Of(arm, MeasuredByBoth(Six(), Chosen(cells, id, base), Chosen(cells, id, arm)))
  {
    SelectionIs(cells, id, base);
    SelectionIs(cells, id, arm);
    var b, a := Chosen(cells, id, base), Chosen(cells, id, arm);
    AllCompared(COMPARED, base, b, arm, a, rnd);
    hide ComparedAll, MeasuredByBoth, Chosen, Used, OfArm, OfScenario, Explained;
  }

  lemma {:induction false} ArmsContrasted(base: string, arms: seq<string>, cells: seq<Cell>, id: string, rnd: Source)
    ensures Contrasts(ComparedArms(base, arms, OfScenario(cells, id), rnd).0) == Due(base, arms, cells, id)
  {
    hide ComparedAll, MeasuredByBoth, Chosen, Used, OfArm, OfScenario;
    if arms != [] {
      var n := |arms| - 1;
      ArmsContrasted(base, arms[..n], cells, id, rnd);
      var (cs, r) := ComparedArms(base, arms[..n], OfScenario(cells, id), rnd);
      if arms[n] != base {
        OneArm(base, arms[n], cells, id, r);
      }
    }
  }

  // ---------- one scenario ----------

  function ArmNames(arms: seq<ArmRollup>): (names: seq<string>)
    ensures |names| == |arms|
  {
    seq(|arms|, i requires 0 <= i < |arms| => arms[i].arm)
  }

  /** Names in the order they are declared, then those that are not, ascending. */
  predicate InOrder(names: seq<string>, declared: seq<string>) {
    forall i, j :: 0 <= i < j < |names| ==>
      && (names[j] in declared ==> names[i] in declared && FirstPlace(declared, names[i]) < FirstPlace(declared, names[j]))
      && (names[i] !in declared ==> names[j] !in declared && Names.Leq(names[i], names[j]) && names[i] != names[j])
  }

  /** Every arm that ran, in order; each rolled up from its own cells; and every contrast with the baseline there is to make. */
  predicate IsScenario(s: ScenarioRollup, id: string, input: Input, cells: seq<Cell>) {
    var names := ArmNames(s.arms);
    && s.scenario == id
    && (forall a :: a in names ==> Took(cells, id, a)) && (forall i :: 0 <= i < |cells| && cells[i].scenario == id ==> cells[i].arm in names)
    && InOrder(names, input.arms)
    && (forall i :: 0 <= i < |names| ==> s.arms[i] == RolledArm(names[i], OfArm(OfScenario(cells, id), names[i])))
    && var base := if input.baseline != "" then input.baseline else if names == [] then "" else names[0];
       Contrasts(s.comparisons) == Due(base, names, cells, id)
  }

  lemma {:induction false} ScenarioMembers(cells: seq<Cell>, id: string, c: Cell)
    ensures c in OfScenario(cells, id) <==> c in cells && c.scenario == id
  {
    if cells != [] {
      ScenarioMembers(cells[1..], id, c);
    }
  }

  lemma ArmsThatRan(cells: seq<Cell>, id: string)
    ensures forall a :: a in ArmsIn(OfScenario(cells, id)) ==> Took(cells, id, a)
    ensures forall i :: 0 <= i < |cells| && cells[i].scenario == id ==> cells[i].arm in ArmsIn(OfScenario(cells, id))
  {
    forall c: Cell
      ensures c in OfScenario(cells, id) <==> c in cells && c.scenario == id
    {
      ScenarioMembers(cells, id, c);
    }
    hide OfScenario;
  }

  lemma OrderIsOrder(declared: seq<string>, seen: set<string>)
    ensures InOrder(ArmOrder(declared, seen), declared)
  {
    var names := ArmOrder(declared, seen);
    hide ArmOrder, FirstPlace, Names.Leq;
    forall i, j | 0 <= i < j < |names|
      ensures (names[j] in declared ==> names[i] in declared && FirstPlace(declared, names[i]) < FirstPlace(declared, names[j]))
      ensures (names[i] !in declared ==> names[j] !in declared && Names.Leq(names[i], names[j]) && names[i] != names[j])
    {
      ArmsAreInOrder(declared, seen, i, j);
    }
  }

  lemma ScenarioIs(id: string, input: Input, cells: seq<Cell>, rnd: Source)
    ensures IsScenario(RolledScenario(id, input, cells, rnd).0, id, input, cells)
  {
    var mine := OfScenario(cells, id);
    var order := ArmOrder(input.arms, ArmsIn(mine));
    var s := RolledScenario(id, input, cells, rnd).0;
    ArmsThatRan(cells, id);
    ArmOrderVisitsOnce(input.arms, ArmsIn(mine));
    OrderIsOrder(input.arms, ArmsIn(mine));
    ArmsContrasted(BaselineOf(input.baseline, order), order, cells, id, rnd);
    hide ArmOrder, ArmsIn, OfScenario, OfArm, Due, Contrasts, ComparedArms, InOrder, Took, Describe.Described, Describe.OrderFit, Used;
    assert ArmNames(s.arms) == order;
  }

  function PlacesOf(cells: seq<Cell>, id: string, arm: string): set<int> {
    set i | 0 <= i < |cells| && cells[i].scenario == id && cells[i].arm == arm
  }

  lemma NoCells(id: string, arm: string)
    ensures |OfArm(OfScenario([], id), arm)| == 0 && PlacesOf([], id, arm) == {}
  {
  }

  lemma {:induction false} CountedPlaces(cells: seq<Cell>, id: string, arm: string)
    ensures |OfArm(OfScenario(cells, id), arm)| == |PlacesOf(cells, id, arm)|
  {
    hide OfScenario, OfArm, PlacesOf;
    if cells == [] {
      NoCells(id, arm);
    } else {
      var n := |cells| - 1;
      var c := cells[n];
      CountedPlaces(cells[..n], id, arm);
      assert cells == cells[..n] + [c];
      ScenarioAppend(cells[..n], c, id);
      var mine := OfScenario(cells[..n], id);
      assert mine + [] == mine;
      OfArmAppend(mine, c, arm);
      OnePlaceMore(cells, id, arm);
    }
  }

  lemma OnePlaceMore(cells: seq<Cell>, id: string, arm: string)
    requires cells != []
    ensures var n := |cells| - 1;
            |PlacesOf(cells, id, arm)|
            == |PlacesOf(cells[..n], id, arm)| + if cells[n].scenario == id && cells[n].arm == arm then 1 else 0
  {
    var n := |cells| - 1;
    var front, all := PlacesOf(cells[..n], id, arm), PlacesOf(cells, id, arm);
    assert n !in front;
    assert all == front + if cells[n].scenario == id && cells[n].arm == arm then {n} else {};
  }

  /** The cells counted for an arm are those of its scenario and name, excluded or not. */
  lemma CellsOfArm(cells: seq<Cell>, id: string, arm: string)
    ensures RolledArm(arm, OfArm(OfScenario(cells, id), arm)).cells
         == |set i | 0 <= i < |cells| && cells[i].scenario == id && cells[i].arm == arm|
  {
    CountedPlaces(cells, id, arm);
    hide OfScenario, OfArm, Used, Describe.Described, Describe.OrderFit;
    assert PlacesOf(cells, id, arm) == set i | 0 <= i < |cells| && cells[i].scenario == id && cells[i].arm == arm;
  }

  // ---------- the whole ----------

  lemma {:induction false} ScenariosInTurn(ids: seq<string>, input: Input, cells: seq<Cell>, rnd: Source)
    ensures var ss := RolledScenarios(ids, input, cells, rnd).0;
            |ss| == |ids| && forall i :: 0 <= i < |ids| ==> IsScenario(ss[i], ids[i], input, cells)
  {
    hide RolledScenario, IsScenario;
    if ids != [] {
      var n := |ids| - 1;
      ScenariosInTurn(ids[..n], input, cells, rnd);
      ScenarioIs(ids[n], input, cells, RolledScenarios(ids[..n], input, cells, rnd).1);
    }
  }

  predicate IsListing(ids: seq<string>, cells: seq<Cell>) {
    && (forall i :: 0 <= i < |ids| ==> Ran(cells, ids[i]))
    && (forall i :: 0 <= i < |cells| ==> cells[i].scenario in ids)
    && (forall i, j :: 0 <= i < j < |ids| ==> Names.Leq(ids[i], ids[j]) && ids[i] != ids[j])
  }

  lemma ScenariosListed(cells: seq<Cell>)
    ensures IsListing(Names.Sorted(ScenariosIn(cells)), cells)
  {
    var ids := Names.Sorted(ScenariosIn(cells));
    Names.SortedLists(ScenariosIn(cells));
    hide Names.Sorted, Names.Leq;
    forall i | 0 <= i < |ids|
      ensures Ran(cells, ids[i])
    {
      assert ids[i] in ids;
    }
  }

  function ScenarioIDs(ss: seq<ScenarioRollup>): (ids: seq<string>)
    ensures |ids| == |ss|
  {
    seq(|ss|, i requires 0 <= i < |ss| => ss[i].scenario)
  }

  /**
   A roll-up has every scenario that ran, once, ascending by name; each with every arm that ran in it,
   once, in the declared order; and each with every contrast there is to make with the baseline, in order.
   */
  lemma RollupIs(input: Input, cells: seq<Cell>, generator: nat -> (nat -> nat))
    ensures var ss := RolledUp(input, cells, generator).scenarios;
            && IsListing(ScenarioIDs(ss), cells)
            && forall i :: 0 <= i < |ss| ==> IsScenario(ss[i], ss[i].scenario, input, cells)
  {
    var ids := Names.Sorted(ScenariosIn(cells));
    var ss := RolledScenarios(ids, input, cells, SourceFor(input.seed, generator)).0;
    RollupShape(input, cells, generator);
    ScenariosInTurn(ids, input, cells, SourceFor(input.seed, generator));
    ScenariosListed(cells);
    hide RolledUp, RolledScenarios, Names.Sorted, IsListing, SourceFor, EvidenceOf, FindingsOf, Flat, CountsOf;
    forall i | 0 <= i < |ss|
      ensures ss[i].scenario == ids[i]
    {
      ScenarioNamed(ss[i], ids[i], input, cells);
    }
    hide IsScenario;
    assert ScenarioIDs(ss) == ids;
  }

  lemma ScenarioNamed(s: ScenarioRollup, id: string, input: Input, cells: seq<Cell>)
    requires IsScenario(s, id, input, cells)
    ensures s.scenario == id
  {
  }

  /** How many comparisons the first n scenarios have. */
  function Offset(ss: seq<ScenarioRollup>, n: nat): nat
    requires n <= |ss|
  {
    if n == 0 then 0 else Offset(ss, n - 1) + |ss[n - 1].comparisons|
  }

  lemma {:induction false} OffsetOfFront(ss: seq<ScenarioRollup>, m: nat, n: nat)
    requires n <= m <= |ss|
    ensures Offset(ss[..m], n) == Offset(ss, n)
  {
    if n > 0 {
      OffsetOfFront(ss, m, n - 1);
    }
  }

  lemma {:induction false} FlatLength(ss: seq<ScenarioRollup>)
    ensures |Flat(ss)| == Offset(ss, |ss|)
  {
    if ss != [] {
      FlatLength(ss[..|ss| - 1]);
      OffsetOfFront(ss, |ss| - 1, |ss| - 1);
    }
  }

  /** The comparisons counted and reported are those of the scenarios, one scenario after the other. */
  lemma {:induction false} FlatIs(ss: seq<ScenarioRollup>, i: nat, k: nat)
    requires i < |ss| && k < |ss[i].comparisons|
    ensures |Flat(ss)| == Offset(ss, |ss|) && Offset(ss, i) + k < |Flat(ss)|
    ensures Flat(ss)[Offset(ss, i) + k] == (ss[i].scenario, ss[i].comparisons[k])
  {
    var n := |ss| - 1;
    FlatLength(ss);
    FlatLength(ss[..n]);
    OffsetOfFront(ss, n, n);
    OffsetOfFront(ss, n, i);
    if i < n {
      FlatIs(ss[..n], i, k);
    }
  }
}
