/**
 The ordered execution list of a campaign (plan/plan.go): arms rotate through the slots of each
 repetition, and an interrupted run resumes with what is left.
 */
module Plan {
  import opened Integers
  import opened Lists
  import opened Options

  datatype Order = Interleaved | Blocked

  /** Every other requirement of Campaign.Validate (names not blank, arms naming a binary...) is one flag. */
  datatype Campaign = Campaign(
    name: string, scenarios: seq<string>, arms: seq<string>, reps: int, order: Order, seed: int, otherwiseValid: bool)

  datatype CellID = CellID(campaign: string, scenario: string, arm: string, rep: int)
  datatype Cell = Cell(id: CellID, ordinal: nat, position: nat)

  predicate Valid(c: Campaign) {
    c.otherwiseValid && c.scenarios != [] && |c.arms| >= 2 && c.reps >= 1 && Distinct(c.arms)
  }

  // ---------- residues ----------

  /** The mathematical residue, never negative. */
  function Residue(x: int, n: nat): (r: nat)
    requires n > 0
    ensures r < n
  {
    x % n
  }

  /** Go's %, whose sign follows the dividend. */
  function Remainder(a: int, n: nat): int
    requires n > 0
  {
    if a >= 0 then a % n else -((-a) % n)
  }

  lemma Multiples(n: nat, q: int, q': int)
    requires n > 0
    ensures Times(n, q + q') == Times(n, q) + Times(n, q') && Times(n, -q) == -Times(n, q) && Times(n, 1) == n
    ensures q > q' ==> Times(n, q) >= Times(n, q') + n
  {
    Distributes(n, q, q');
    Distributes(n, q, -q);
    Distributes(n, q', q - q');
    hide Times;
    if q > q' {
      AtLeastOnce(n, q - q');
    }
  }

  lemma Quotient(x: int, n: nat) returns (q: int)
    requires n > 0
    ensures x == Times(n, q) + Residue(x, n)
  {
    q := x / n;
  }

  lemma ResidueIs(x: int, n: nat, q: int, r: nat)
    requires r < n && x == Times(n, q) + r
    ensures Residue(x, n) == r
  {
    hide Residue, Times;
    var q' := Quotient(x, n);
    Multiples(n, q, q');
    Multiples(n, q', q);
  }

  lemma ResidueOfSum(x: int, y: int, n: nat)
    requires n > 0
    ensures Residue(x + Residue(y, n), n) == Residue(x + y, n)
  {
    hide Residue, Times;
    var z := x + Residue(y, n);
    var q := Quotient(y, n);
    var q' := Quotient(z, n);
    Multiples(n, q, q');
    ResidueIs(x + y, n, q + q', Residue(z, n));
  }

  /** Adding n to a negative remainder gives the mathematical one. */
  lemma NormalisedRemainder(a: int, n: nat)
    requires n > 0
    ensures var r := Remainder(a, n); (if r < 0 then r + n else r) == Residue(a, n)
  {
    if a < 0 {
      RemainderOfNegative(a, n);
      hide Residue, Times;
      var r := Residue(-a, n);
      var q := Quotient(-a, n);
      Multiples(n, q, 1);
      Multiples(n, -q, -1);
      Multiples(n, 1, 0);
      if r == 0 {
        ResidueIs(a, n, -q, 0);
      } else {
        ResidueIs(a, n, -q + -1, n - r);
      }
    }
  }

  lemma RemainderOfNegative(a: int, n: nat)
    requires n > 0 && a < 0
    ensures Remainder(a, n) == -(Residue(-a, n) as int)
  {
  }

  function Step(x: int, k: nat, n: nat): (r: nat)
    requires n > 0
    ensures r < n
  {
    Residue(x + k, n)
  }

  /** Exactly one step of every n consecutive ones brings a residue to any given place. */
  lemma OneStepOfN(x: int, n: nat, a: nat) returns (k: nat)
    requires a < n
    ensures k < n && Step(x, k, n) == a
    ensures forall j: nat :: j < n && Step(x, j, n) == a ==> j == k
  {
    hide Residue, Times;
    k := Residue(a - x, n);
    var q := Quotient(a - x, n);
    Multiples(n, q, 0);
    ResidueIs(x + k, n, -q, a);
    forall j: nat | j < n && Step(x, j, n) == a
      ensures j == k
    {
      var q' := Quotient(x + j, n);
      Multiples(n, q', 0);
      ResidueIs(a - x, n, -q', j);
    }
  }

  // ---------- one repetition's rotation ----------

  /** Which of n arms takes slot pos of a repetition: the slot shifted, modulo n. */
  function ArmAt(n: nat, rep: int, order: Order, seed: int, pos: nat): (a: nat)
    requires pos < n
    ensures a < n
  {
    if order == Blocked then pos else Step(rep - 1 + seed, pos, n)
  }

  method ArmOrder(n: nat, rep: int, order: Order, seed: int) returns (out: array<nat>)
    requires n > 0
    ensures fresh(out) && out.Length == n
    ensures forall i :: 0 <= i < n ==> out[i] == ArmAt(n, rep, order, seed, i)
  {
    hide Residue, Remainder;
    out := new nat[n];
    if order == Blocked {
      for i := 0 to n
        invariant forall j :: 0 <= j < i ==> out[j] == j
      {
        out[i] := i;
      }
      return;
    }
    var shift := Remainder(rep - 1 + seed, n);
    if shift < 0 { shift := shift + n; }
    NormalisedRemainder(rep - 1 + seed, n);
    for i := 0 to n
      invariant forall j :: 0 <= j < i ==> out[j] == ArmAt(n, rep, order, seed, j)
    {
      ResidueOfSum(i, rep - 1 + seed, n);
      out[i] := Residue(i + shift, n);
    }
  }

  // ---------- balance ----------

  /** Within a repetition every arm takes exactly one slot. */
  lemma EachArmOnce(n: nat, rep: int, order: Order, seed: int, a: nat) returns (pos: nat)
    requires a < n
    ensures pos < n && ArmAt(n, rep, order, seed, pos) == a
    ensures forall p: nat :: p < n && ArmAt(n, rep, order, seed, p) == a ==> p == pos
  {
    hide Residue;
    if order == Blocked {
      pos := a;
    } else {
      pos := OneStepOfN(rep - 1 + seed, n, a);
    }
  }

  /** The arm in a slot, k repetitions after the first. */
  function Rotated(n: nat, first: int, k: nat, seed: int, pos: nat): (a: nat)
    requires pos < n
    ensures a < n
  {
    ArmAt(n, first + k, Interleaved, seed, pos)
  }

  /** Latin square: over any n consecutive repetitions an arm takes each slot exactly once, whatever the seed's sign. */
  lemma LatinSquare(n: nat, first: int, seed: int, pos: nat, a: nat) returns (k: nat)
    requires pos < n && a < n
    ensures k < n && Rotated(n, first, k, seed, pos) == a
    ensures forall j: nat :: j < n && Rotated(n, first, j, seed, pos) == a ==> j == k
  {
    hide Residue;
    k := OneStepOfN(first - 1 + seed + pos, n, a);
    forall j: nat | j < n && Rotated(n, first, j, seed, pos) == a
      ensures j == k
    {
      assert first + j - 1 + seed + pos == first - 1 + seed + pos + j;
      assert Step(first - 1 + seed + pos, j, n) == a;
    }
    assert first + k - 1 + seed + pos == first - 1 + seed + pos + k;
  }

  /** How often arm a took slot pos in r repetitions from `first` on. */
  function SlotCount(n: nat, first: int, r: nat, seed: int, pos: nat, a: nat): nat
    requires pos < n && a < n
  {
    if r == 0 then 0
    else SlotCount(n, first, r - 1, seed, pos, a) + if Rotated(n, first, r - 1, seed, pos) == a then 1 else 0
  }

  lemma LaterStart(n: nat, first: int, r: nat, k: nat, seed: int, pos: nat)
    requires pos < n
    ensures Rotated(n, first, r + k, seed, pos) == Rotated(n, first + r, k, seed, pos)
  {
    hide ArmAt;
  }

  lemma {:induction false} SlotCountSplit(n: nat, first: int, r: nat, more: nat, seed: int, pos: nat, a: nat)
    requires pos < n && a < n
    ensures SlotCount(n, first, r + more, seed, pos, a)
         == SlotCount(n, first, r, seed, pos, a) + SlotCount(n, first + r, more, seed, pos, a)
  {
    hide Rotated;
    if more > 0 {
      SlotCountSplit(n, first, r, more - 1, seed, pos, a);
      LaterStart(n, first, r, more - 1, seed, pos);
    }
  }

  lemma {:induction false} FewRepetitions(n: nat, first: int, r: nat, seed: int, pos: nat, a: nat, k: nat)
    requires pos < n && a < n && r <= n && k < n
    requires Rotated(n, first, k, seed, pos) == a
    requires forall j: nat :: j < n && Rotated(n, first, j, seed, pos) == a ==> j == k
    ensures SlotCount(n, first, r, seed, pos, a) == if k < r then 1 else 0
  {
    hide Rotated;
    if r > 0 {
      FewRepetitions(n, first, r - 1, seed, pos, a, k);
    }
  }

  /** Balance: over any number of consecutive repetitions no arm has taken a slot twice more than another arm took any slot. */
  lemma {:induction false} SlotsBalance(n: nat, first: int, r: nat, seed: int, pos: nat, a: nat, pos': nat, a': nat)
    requires pos < n && a < n && pos' < n && a' < n
    ensures -1 <= SlotCount(n, first, r, seed, pos, a) - SlotCount(n, first, r, seed, pos', a') <= 1
    decreases r
  {
    hide Rotated, SlotCount;
    var k := LatinSquare(n, first, seed, pos, a);
    var k' := LatinSquare(n, first, seed, pos', a');
    if r < n {
      FewRepetitions(n, first, r, seed, pos, a, k);
      FewRepetitions(n, first, r, seed, pos', a', k');
    } else {
      FewRepetitions(n, first, n, seed, pos, a, k);
      FewRepetitions(n, first, n, seed, pos', a', k');
      SlotCountSplit(n, first, n, r - n, seed, pos, a);
      SlotCountSplit(n, first, n, r - n, seed, pos', a');
      SlotsBalance(n, first + n, r - n, seed, pos, a, pos', a');
    }
  }

  // ---------- expansion ----------

  function CellOf(c: Campaign, sc: string, rep: int, pos: nat, ordinal: nat): Cell
    requires pos < |c.arms|
  {
    Cell(CellID(c.name, sc, c.arms[ArmAt(|c.arms|, rep, c.order, c.seed, pos)], rep), ordinal, pos)
  }

  /** One repetition, the first k slots. */
  function RepCells(c: Campaign, sc: string, rep: int, k: nat, base: nat): (cells: seq<Cell>)
    requires k <= |c.arms|
    ensures |cells| == k
  {
    if k == 0 then [] else RepCells(c, sc, rep, k - 1, base) + [CellOf(c, sc, rep, k - 1, base + k - 1)]
  }

  function ScenarioCells(c: Campaign, sc: string, reps: nat, base: nat): seq<Cell> {
    if reps == 0 then []
    else
      var before := ScenarioCells(c, sc, reps - 1, base);
      before + RepCells(c, sc, reps, |c.arms|, base + |before|)
  }

  function CampaignCells(c: Campaign, k: nat): seq<Cell>
    requires k <= |c.scenarios| && c.reps >= 0
  {
    if k == 0 then []
    else
      var before := CampaignCells(c, k - 1);
      before + ScenarioCells(c, c.scenarios[k - 1], c.reps, |before|)
  }

  function AllCells(c: Campaign): seq<Cell>
    requires c.reps >= 0
  {
    CampaignCells(c, |c.scenarios|)
  }

  /** loads maps each loaded scenario to whether its load, resolved against the campaign's, is coherent. */
  method Expand(c: Campaign, loads: map<string, bool>) returns (r: Option<seq<Cell>>)
    ensures r == if Valid(c) && AllLoaded(c.scenarios, loads) then Some(AllCells(c)) else None
  {
    if !Valid(c) { return None; }
    hide Valid, Distinct, ScenarioCells;
    var cells := [];
    for s := 0 to |c.scenarios|
      invariant forall i :: 0 <= i < s ==> c.scenarios[i] in loads && loads[c.scenarios[i]]
      invariant cells == CampaignCells(c, s)
    {
      var id := c.scenarios[s];
      if id !in loads { return None; }
      if !loads[id] { return None; }
      var more := ExpandScenario(c, id, |cells|);
      cells := cells + more;
    }
    r := Some(cells);
  }

  predicate AllLoaded(scenarios: seq<string>, loads: map<string, bool>) {
    forall i :: 0 <= i < |scenarios| ==> scenarios[i] in loads && loads[scenarios[i]]
  }

  /** The two inner loops: repetitions, and the rotation's slots within each. */
  method ExpandScenario(c: Campaign, id: string, start: nat) returns (cells: seq<Cell>)
    requires c.reps >= 0 && |c.arms| > 0
    ensures cells == ScenarioCells(c, id, c.reps, start)
  {
    hide ArmAt;
    cells := [];
    var ordinal := start;
    for rep := 1 to c.reps + 1
      invariant cells == ScenarioCells(c, id, rep - 1, start) && ordinal == start + |cells|
    {
      var order := ArmOrder(|c.arms|, rep, c.order, c.seed);
      ghost var before := cells;
      for pos := 0 to |c.arms|
        invariant cells == before + RepCells(c, id, rep, pos, start + |before|) && ordinal == start + |cells|
      {
        cells := cells + [Cell(CellID(c.name, id, c.arms[order[pos]], rep), ordinal, pos)];
        ordinal := ordinal + 1;
      }
    }
  }

  ghost predicate Numbered(cells: seq<Cell>, base: nat) {
    forall i :: 0 <= i < |cells| ==> cells[i].ordinal == base + i
  }

  lemma NumberedTogether(a: seq<Cell>, b: seq<Cell>, base: nat)
    requires Numbered(a, base) && Numbered(b, base + |a|)
    ensures Numbered(a + b, base)
  {
  }

  ghost predicate IdsDistinct(cells: seq<Cell>) {
    forall i, j :: 0 <= i < j < |cells| ==> cells[i].id != cells[j].id
  }

  ghost predicate NoSharedId(a: seq<Cell>, b: seq<Cell>) {
    forall i, j :: 0 <= i < |a| && 0 <= j < |b| ==> a[i].id != b[j].id
  }

  lemma DistinctTogether(a: seq<Cell>, b: seq<Cell>)
    ensures IdsDistinct(a + b) <==> IdsDistinct(a) && IdsDistinct(b) && NoSharedId(a, b)
  {
    var ab := a + b;
    assert forall i :: 0 <= i < |a| ==> ab[i] == a[i];
    assert forall j :: 0 <= j < |b| ==> ab[|a| + j] == b[j];
    if IdsDistinct(ab) {
      forall i, j | 0 <= i < j < |b|
        ensures b[i].id != b[j].id
      {
        assert ab[|a| + i].id != ab[|a| + j].id;
      }
      forall i, j | 0 <= i < |a| && 0 <= j < |b|
        ensures a[i].id != b[j].id
      {
        assert ab[i].id != ab[|a| + j].id;
      }
    }
  }

  ghost predicate Holds(cells: seq<Cell>, id: CellID) {
    exists i :: 0 <= i < |cells| && cells[i].id == id
  }

  lemma HoldsTogether(a: seq<Cell>, b: seq<Cell>, id: CellID)
    ensures Holds(a + b, id) <==> Holds(a, id) || Holds(b, id)
  {
    var ab := a + b;
    assert forall i :: 0 <= i < |a| ==> ab[i] == a[i];
    assert forall j :: 0 <= j < |b| ==> ab[|a| + j] == b[j];
  }

  lemma {:induction false} RepCellsAt(c: Campaign, sc: string, rep: int, k: nat, base: nat, i: nat)
    requires k <= |c.arms| && i < k
    ensures RepCells(c, sc, rep, k, base)[i] == CellOf(c, sc, rep, i, base + i)
  {
    if i < k - 1 {
      RepCellsAt(c, sc, rep, k - 1, base, i);
    }
  }

  /** A repetition runs every arm exactly once. */
  lemma RepetitionRunsEachArm(c: Campaign, sc: string, rep: int, base: nat)
    requires Distinct(c.arms)
    ensures var cells := RepCells(c, sc, rep, |c.arms|, base);
            && Numbered(cells, base) && IdsDistinct(cells)
            && forall id: CellID :: Holds(cells, id) <==> id.campaign == c.name && id.scenario == sc && id.rep == rep && id.arm in c.arms
  {
    var n := |c.arms|;
    var cells := RepCells(c, sc, rep, n, base);
    forall i | 0 <= i < n
      ensures cells[i] == CellOf(c, sc, rep, i, base + i)
    {
      RepCellsAt(c, sc, rep, n, base, i);
    }
    forall i, j | 0 <= i < j < n
      ensures cells[i].id != cells[j].id
    {
      var pos := EachArmOnce(n, rep, c.order, c.seed, ArmAt(n, rep, c.order, c.seed, i));
    }
    forall id: CellID | id.campaign == c.name && id.scenario == sc && id.rep == rep && id.arm in c.arms
      ensures Holds(cells, id)
    {
      var a :| 0 <= a < n && c.arms[a] == id.arm;
      var pos := EachArmOnce(n, rep, c.order, c.seed, a);
      assert cells[pos].id == id;
    }
    hide ArmAt;
  }

  lemma {:induction false} ScenarioRunsEachOnce(c: Campaign, sc: string, reps: nat, base: nat)
    requires Distinct(c.arms)
    ensures var cells := ScenarioCells(c, sc, reps, base);
            && Numbered(cells, base) && IdsDistinct(cells)
            && forall id: CellID :: Holds(cells, id) <==> id.campaign == c.name && id.scenario == sc && 1 <= id.rep <= reps && id.arm in c.arms
  {
    hide RepCells, Numbered, IdsDistinct, Holds, Distinct;
    if reps == 0 {
      NoCells(base);
    } else {
      var before := ScenarioCells(c, sc, reps - 1, base);
      var rep := RepCells(c, sc, reps, |c.arms|, base + |before|);
      ScenarioRunsEachOnce(c, sc, reps - 1, base);
      RepetitionRunsEachArm(c, sc, reps, base + |before|);
      NumberedTogether(before, rep, base);
      NoSharedIds(before, rep);
      DistinctTogether(before, rep);
      forall id
        ensures Holds(before + rep, id) <==> Holds(before, id) || Holds(rep, id)
      {
        HoldsTogether(before, rep, id);
      }
    }
  }

  lemma NoCells(base: nat)
    ensures Numbered([], base) && IdsDistinct([]) && forall id: CellID :: !Holds([], id)
  {
  }

  lemma NoSharedIds(a: seq<Cell>, b: seq<Cell>)
    requires forall id: CellID :: !(Holds(a, id) && Holds(b, id))
    ensures NoSharedId(a, b)
  {
    forall i, j | 0 <= i < |a| && 0 <= j < |b|
      ensures a[i].id != b[j].id
    {
      assert Holds(a, a[i].id) && Holds(b, b[j].id);
    }
  }

  /** Cells are numbered by their index, and hold exactly the product of the named scenarios, arms and repetitions. */
  lemma {:induction false} CellsAreTheProduct(c: Campaign, k: nat)
    requires Distinct(c.arms) && k <= |c.scenarios| && c.reps >= 0
    ensures var cells := CampaignCells(c, k);
            && Numbered(cells, 0)
            && forall id: CellID :: Holds(cells, id) <==> id.campaign == c.name && id.scenario in c.scenarios[..k] && 1 <= id.rep <= c.reps && id.arm in c.arms
  {
    hide ScenarioCells, Numbered, Holds, Distinct;
    if k == 0 {
      NoCells(0);
    } else {
      var before := CampaignCells(c, k - 1);
      var next := ScenarioCells(c, c.scenarios[k - 1], c.reps, |before|);
      CellsAreTheProduct(c, k - 1);
      ScenarioRunsEachOnce(c, c.scenarios[k - 1], c.reps, |before|);
      NumberedTogether(before, next, 0);
      assert c.scenarios[..k] == c.scenarios[..k - 1] + [c.scenarios[k - 1]];
      forall id
        ensures Holds(before + next, id) <==> Holds(before, id) || Holds(next, id)
      {
        HoldsTogether(before, next, id);
      }
    }
  }

  /**
   Every (scenario, arm, repetition) is planned once if and only if the campaign names no scenario
   twice, which Campaign.Validate does not ask.
   */
  lemma PlannedOnceIff(c: Campaign)
    requires Valid(c)
    ensures IdsDistinct(AllCells(c)) <==> Distinct(c.scenarios)
  {
    PrefixPlannedOnceIff(c, |c.scenarios|);
    assert c.scenarios[..|c.scenarios|] == c.scenarios;
    hide IdsDistinct, Distinct;
  }

  lemma {:induction false} PrefixPlannedOnceIff(c: Campaign, k: nat)
    requires Valid(c) && k <= |c.scenarios|
    ensures IdsDistinct(CampaignCells(c, k)) <==> Distinct(c.scenarios[..k])
  {
    hide ScenarioCells, IdsDistinct, Holds, NoSharedId, Distinct;
    if k == 0 {
      NoCells(0);
      OneMoreDistinct<string>([], "");
    } else {
      var sc := c.scenarios[k - 1];
      var before := CampaignCells(c, k - 1);
      var next := ScenarioCells(c, sc, c.reps, |before|);
      PrefixPlannedOnceIff(c, k - 1);
      CellsAreTheProduct(c, k - 1);
      ScenarioRunsEachOnce(c, sc, c.reps, |before|);
      DistinctTogether(before, next);
      assert c.scenarios[..k] == c.scenarios[..k - 1] + [sc];
      OneMoreDistinct(c.scenarios[..k - 1], sc);
      if sc in c.scenarios[..k - 1] {
        var id := CellID(c.name, sc, c.arms[0], 1);
        assert Holds(before, id) && Holds(next, id);
        SharedId(before, next, id);
      } else {
        NoSharedIds(before, next);
      }
    }
  }

  lemma SharedId(a: seq<Cell>, b: seq<Cell>, id: CellID)
    requires Holds(a, id) && Holds(b, id)
    ensures !NoSharedId(a, b)
  {
    var i :| 0 <= i < |a| && a[i].id == id;
    var j :| 0 <= j < |b| && b[j].id == id;
    assert a[i].id == b[j].id;
  }

  /** Scenarios run one after another, never interleaved. */
  lemma {:induction false} ScenariosAreContiguous(c: Campaign, k: nat, i: nat, j: nat, l: nat)
    requires Valid(c) && Distinct(c.scenarios) && k <= |c.scenarios| && i < j < l < |CampaignCells(c, k)|
    requires CampaignCells(c, k)[i].id.scenario == CampaignCells(c, k)[l].id.scenario
    ensures CampaignCells(c, k)[j].id.scenario == CampaignCells(c, k)[i].id.scenario
  {
    hide ScenarioCells;
    var before := CampaignCells(c, k - 1);
    var next := ScenarioCells(c, c.scenarios[k - 1], c.reps, |before|);
    if l < |before| {
      ScenariosAreContiguous(c, k - 1, i, j, l);
    } else {
      ScenarioRunsEachOnce(c, c.scenarios[k - 1], c.reps, |before|);
      CellsAreTheProduct(c, k - 1);
      assert Holds(next, next[l - |before|].id);
      if j >= |before| {
        assert Holds(next, next[j - |before|].id);
      }
      assert i < |before| ==> Holds(before, before[i].id);
      assert c.scenarios[k - 1] !in c.scenarios[..k - 1];
    }
  }

  // ---------- resuming ----------

  function Left(cells: seq<Cell>, done: set<CellID>): seq<Cell> {
    if cells == [] then []
    else
      var before := Left(cells[..|cells| - 1], done);
      if cells[|cells| - 1].id in done then before else before + [cells[|cells| - 1]]
  }

  method Remaining(cells: seq<Cell>, done: set<CellID>) returns (out: seq<Cell>)
    ensures out == Left(cells, done)
  {
    out := [];
    for i := 0 to |cells|
      invariant out == Left(cells[..i], done)
    {
      assert cells[..i + 1][..i] == cells[..i];
      if cells[i].id !in done { out := out + [cells[i]]; }
    }
    assert cells[..|cells|] == cells;
  }

  /** What is left is exactly the cells not done, each as often as it was planned. */
  lemma {:induction false} LeftIsTheComplement(cells: seq<Cell>, done: set<CellID>, x: Cell)
    ensures multiset(Left(cells, done))[x] == if x.id in done then 0 else multiset(cells)[x]
  {
    if cells != [] {
      var last, front := cells[|cells| - 1], cells[..|cells| - 1];
      assert cells == front + [last];
      LeftIsTheComplement(front, done, x);
    }
  }

  predicate Rising(cells: seq<Cell>) {
    forall i, j :: 0 <= i < j < |cells| ==> cells[i].ordinal < cells[j].ordinal
  }

  /** The plan's order is kept: ordinals still rise. */
  lemma {:induction false} LeftKeepsOrder(cells: seq<Cell>, done: set<CellID>)
    requires Rising(cells)
    ensures Rising(Left(cells, done)) && forall x :: x in Left(cells, done) ==> x in cells
  {
    if cells != [] {
      var front, last := cells[..|cells| - 1], cells[|cells| - 1];
      LeftKeepsOrder(front, done);
      var before := Left(front, done);
      forall i | 0 <= i < |before|
        ensures before[i].ordinal < last.ordinal
      {
        assert before[i] in front;
        var k :| 0 <= k < |front| && front[k] == before[i];
        assert cells[k].ordinal < cells[|cells| - 1].ordinal;
      }
    }
  }

  /** Interrupting twice loses nothing: resuming a resumed plan is resuming with both sets done. */
  lemma {:induction false} ResumeComposes(cells: seq<Cell>, done: set<CellID>, more: set<CellID>)
    ensures Left(Left(cells, done), more) == Left(cells, done + more)
  {
    if cells != [] {
      var last, front := cells[|cells| - 1], cells[..|cells| - 1];
      ResumeComposes(front, done, more);
      if last.id !in done {
        var left := Left(front, done) + [last];
        assert left[..|left| - 1] == Left(front, done);
      }
    }
  }
}
