/** A capacity ramp in numbers: its defaults, its length, how evenly it climbs (spec/spec.go, stats/knee.go). */
module RampFigures {
  import opened Ramp
  import opened TimeSeries

  /** A field as given, or what stands for one that is 0 or less. */
  function Or(given: int, otherwise: int): int { if given <= 0 then otherwise else given }

  /** Half-open around the quotient: q is x / d, cut off towards zero. */
  predicate IsCutOff(q: int, x: int, d: int) {
    if x >= 0 then q * d <= x < q * d + d else q * d >= x > q * d - d
  }

  lemma CutOff(x: int, d: int)
    requires d > 0
    ensures IsCutOff(TruncDiv(x, d), x, d)
  {
    Euclid(x, d);
    Euclid(-x, d);
    if x < 0 {
      NegativeTimes((-x) / d, d);
    }
  }

  lemma NegativeTimes(q: int, d: int)
    ensures (-q) * d == -(q * d)
  {
  }

  lemma Euclid(x: int, d: int)
    requires d > 0
    ensures (x / d) * d <= x < (x / d) * d + d
  {
  }

  /**
   The schedule in full, from the fields as they are written.  One that is 0 or less stands for its
   default: 10 steps, dwells of 15 s, transitions of 1 s, a warm-up as long as a dwell, a start at a
   twentieth of the peak.  It warms up at the start, and takes a transition and a dwell a step.
   */
  lemma ScheduleIs(cap: Capacity)
    ensures var all := Schedule(cap);
            var steps, dwell, transition := Or(cap.steps, 10), Or(cap.dwell, 15_000_000_000), Or(cap.transition, 1_000_000_000);
            var warmup := Or(cap.warmup, dwell);
            && |all| == 2 + 2 * steps
            && all[0].duration == transition && all[1].duration == warmup && all[0].target == all[1].target
            && (if cap.start > 0 then all[0].target == cap.start else IsCutOff(all[0].target, cap.peak, 20))
            && (forall i :: 0 <= i < steps ==>
                  && all[2 + 2 * i].duration == transition && all[3 + 2 * i].duration == dwell
                  && all[2 + 2 * i].target == all[3 + 2 * i].target == Target(all[0].target, cap.peak, steps, i))
            && Begin(all, |all|) == transition + warmup + steps * (dwell + transition)
  {
    var all, c := Schedule(cap), Defaulted(cap);
    CutOff(cap.peak, 20);
    ScheduleTakesItsDuration(cap);
    forall i | 0 <= i < c.steps
      ensures all[2 + 2 * i].duration == c.transition && all[3 + 2 * i].duration == c.dwell
      ensures all[2 + 2 * i].target == all[3 + 2 * i].target == Target(all[0].target, cap.peak, c.steps, i)
    {
      ScheduleAt(cap, i);
    }
    hide Staircase, Target, Targets, TruncDiv, Begin;
  }

  /** The targets climb evenly: each is within one of the straight line from the start to the peak; one alone is the peak. */
  lemma TargetsAreEven(start: int, peak: int, steps: int, i: nat)
    requires i < steps
    ensures steps == 1 ==> Target(start, peak, steps, i) == peak
    ensures steps > 1 ==> IsCutOff(Target(start, peak, steps, i) - start, (peak - start) * i, steps - 1)
  {
    if steps > 1 {
      CutOff((peak - start) * i, steps - 1);
    }
    hide TruncDiv, IsCutOff;
  }
}

/** Where the rotation starts and which way it turns, and the slot each cell sits in (plan/plan.go). */
module PlanFigures {
  import opened Plan

  /** x modulo n, for an x of either sign. */
  lemma Wraps(x: int, n: nat)
    requires n > 0
    ensures (x + 1) % n == if x % n == n - 1 then 0 else x % n + 1
  {
    var q := Quotient(x, n);
    if x % n == n - 1 {
      Multiples(n, q, q + 1);
      ResidueIs(x + 1, n, q + 1, 0);
    } else {
      ResidueIs(x + 1, n, q, x % n + 1);
    }
  }

  /**
   Interleaved, the first repetition without a seed runs the arms as declared, and going on by a slot,
   a repetition or a unit of the seed goes on to the next arm, the first after the last.  Blocked, every
   repetition runs them as declared.
   */
  lemma RotationIs(n: nat, rep: int, seed: int, pos: nat)
    requires pos < n
    ensures ArmAt(n, rep, Blocked, seed, pos) == pos
    ensures ArmAt(n, 1, Interleaved, 0, pos) == pos
    ensures var a := ArmAt(n, rep, Interleaved, seed, pos);
            var next := if a == n - 1 then 0 else a + 1;
            && ArmAt(n, rep + 1, Interleaved, seed, pos) == next
            && ArmAt(n, rep, Interleaved, seed + 1, pos) == next
            && (pos + 1 < n ==> ArmAt(n, rep, Interleaved, seed, pos + 1) == next)
  {
    Wraps(rep - 1 + seed + pos, n);
    assert 0 + pos == pos;
  }

  /** In the slot a cell sits in, its repetition runs the cell's arm. */
  ghost predicate InItsSlot(c: Campaign, x: Cell) {
    x.position < |c.arms| && x.id.arm == c.arms[ArmAt(|c.arms|, x.id.rep, c.order, c.seed, x.position)] && x.id.campaign == c.name
  }

  ghost predicate SlotsInTurn(c: Campaign, cells: seq<Cell>) {
    c.arms != [] && forall i :: 0 <= i < |cells| ==> InItsSlot(c, cells[i]) && cells[i].position == i % |c.arms|
  }

  lemma {:induction false} RepetitionInTurn(c: Campaign, sc: string, rep: int, k: nat, base: nat)
    requires k <= |c.arms| && c.arms != []
    ensures SlotsInTurn(c, RepCells(c, sc, rep, k, base))
  {
    hide ArmAt;
    if k > 0 {
      RepetitionInTurn(c, sc, rep, k - 1, base);
    }
  }

  lemma TurnsTogether(c: Campaign, a: seq<Cell>, b: seq<Cell>, q: int)
    requires SlotsInTurn(c, a) && SlotsInTurn(c, b) && |a| == q * |c.arms|
    ensures SlotsInTurn(c, a + b)
  {
    hide InItsSlot;
    var n := |c.arms|;
    forall i | 0 <= i < |a + b|
      ensures InItsSlot(c, (a + b)[i]) && (a + b)[i].position == i % n
    {
      if i >= |a| {
        SameResidue(i - |a|, q, n);
      }
    }
  }

  lemma SameResidue(x: nat, q: int, n: nat)
    requires n > 0
    ensures (x + q * n) % n == x % n
  {
    var k := Quotient(x, n);
    Multiples(n, k, q);
    ResidueIs(x + q * n, n, k + q, x % n);
  }

  lemma NextMultiple(q: int, n: int)
    ensures q * n + n == (q + 1) * n && 0 * n == 0
  {
  }

  lemma {:induction false} ScenarioInTurn(c: Campaign, sc: string, reps: nat, base: nat)
    requires c.arms != []
    ensures SlotsInTurn(c, ScenarioCells(c, sc, reps, base)) && |ScenarioCells(c, sc, reps, base)| == reps * |c.arms|
  {
    hide RepCells, SlotsInTurn;
    if reps == 0 {
      NoTurns(c);
    } else {
      ScenarioInTurn(c, sc, reps - 1, base);
      var before := ScenarioCells(c, sc, reps - 1, base);
      RepetitionInTurn(c, sc, reps, |c.arms|, base + |before|);
      TurnsTogether(c, before, RepCells(c, sc, reps, |c.arms|, base + |before|), reps - 1);
      NextMultiple(reps - 1, |c.arms|);
    }
  }

  lemma NoTurns(c: Campaign)
    ensures c.arms != [] ==> SlotsInTurn(c, [])
  {
  }

  /** Every cell of a plan sits in the slot its place in the plan gives it, and runs the arm of that slot. */
  lemma {:induction false} CellsInTurn(c: Campaign, k: nat)
    requires c.arms != [] && c.reps >= 0 && k <= |c.scenarios|
    ensures SlotsInTurn(c, CampaignCells(c, k)) && |CampaignCells(c, k)| == (k * c.reps) * |c.arms|
  {
    hide ScenarioCells, SlotsInTurn;
    if k == 0 {
      NoTurns(c);
    } else {
      CellsInTurn(c, k - 1);
      var before := CampaignCells(c, k - 1);
      ScenarioInTurn(c, c.scenarios[k - 1], c.reps, |before|);
      TurnsTogether(c, before, ScenarioCells(c, c.scenarios[k - 1], c.reps, |before|), (k - 1) * c.reps);
      OneMoreScenario(k - 1, c.reps, |c.arms|);
    }
  }

  lemma OneMoreScenario(k: int, reps: int, n: int)
    ensures (k * reps) * n + reps * n == ((k + 1) * reps) * n
  {
    assert (k + 1) * reps == k * reps + reps;
    Spread(k * reps, reps, n);
  }

  lemma Spread(x: int, y: int, n: int)
    ensures (x + y) * n == x * n + y * n
  {
  }

  /** A campaign is refused if and only if something it needs is missing, an arm is named twice, or a scenario has no load. */
  lemma RefusedIff(c: Campaign, loads: map<string, bool>)
    ensures !(Valid(c) && AllLoaded(c.scenarios, loads)) <==>
              || !c.otherwiseValid || c.scenarios == [] || |c.arms| < 2 || c.reps < 1
              || (exists i, j :: 0 <= i < j < |c.arms| && c.arms[i] == c.arms[j])
              || (exists i :: 0 <= i < |c.scenarios| && (c.scenarios[i] !in loads || !loads[c.scenarios[i]]))
  {
  }
}
