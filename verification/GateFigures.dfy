/** When the generator-saturation gate fires, of the two series alone (gate/gates.go). */
module GateFigures {
  import opened Pairing
  import opened TimeSeries
  import LS = LeastSquares

  /** k is the first of the CPU points nearest to an instant. */
  predicate IsNearest(c: Series, t: int, k: nat) {
    && k < |c|
    && (forall j :: 0 <= j < |c| ==> Apart(c[k].at, t) <= Apart(c[j].at, t))
    && (forall j :: 0 <= j < k ==> Apart(c[k].at, t) < Apart(c[j].at, t))
  }

  function Apart(x: int, y: int): int { if x < y then y - x else x - y }

  /** The throughput points that have a CPU point within 1.5 s of them, each with the nearest one's value. */
  function NearPairs(c: Series, rps: Series, ks: seq<nat>): seq<(real, real)>
    requires |ks| == |rps| && forall i :: 0 <= i < |ks| ==> ks[i] < |c|
  {
    if rps == [] then []
    else
      var n := |rps| - 1;
      NearPairs(c, rps[..n], ks[..n])
      + if Apart(c[ks[n]].at, rps[n].at) <= 1_500_000_000 then [(rps[n].v, c[ks[n]].v)] else []
  }

  lemma {:induction false} KeptIs(c: Series, rps: Series, ks: seq<nat>)
    requires |ks| == |rps| && forall i :: 0 <= i < |ks| ==> ks[i] < |c|
    ensures Kept(c, rps, ks) == NearPairs(c, rps, ks)
  {
    hide Kept;
    if rps == [] {
      NothingKept(c, rps, ks);
      assert rps[..0] == rps && ks[..0] == ks;
    } else {
      var n := |rps| - 1;
      KeptIs(c, rps[..n], ks[..n]);
      KeptTogether(c, rps, ks, n);
      assert rps[..n + 1] == rps && ks[..n + 1] == ks;
    }
  }

  lemma NearestIs(c: Series, t: int)
    requires c != []
    ensures IsNearest(c, t, Nearest(c, t))
  {
    var n := Nearest(c, t);
    forall j: nat | j < |c|
      ensures Gap(c, j, t) == Apart(c[j].at, t)
    {
      GapIs(c, j, t);
    }
    hide Gap, Apart;
  }

  lemma OneNearest(c: Series, t: int, k: nat, l: nat)
    requires IsNearest(c, t, k) && IsNearest(c, t, l)
    ensures k == l
  {
    hide Apart;
    var here, there := Apart(c[k].at, t), Apart(c[l].at, t);
    assert k < l ==> there < here;
    assert l < k ==> here < there;
  }

  lemma GapIs(c: Series, i: nat, t: int)
    requires i < |c|
    ensures Gap(c, i, t) == Apart(c[i].at, t)
  {
  }

  /** Every throughput point's first nearest CPU point. */
  predicate AreNearest(c: Series, rps: Series, ks: seq<nat>) {
    |ks| == |rps| && forall i :: 0 <= i < |rps| ==> IsNearest(c, rps[i].at, ks[i])
  }

  lemma NearestsAre(c: Series, rps: Series, ks: seq<nat>)
    requires c != [] && AreNearest(c, rps, ks)
    ensures Nearests(c, rps) == ks
  {
    hide Nearest, IsNearest;
    forall i | 0 <= i < |rps|
      ensures Nearest(c, rps[i].at) == ks[i]
    {
      NearestIs(c, rps[i].at);
      OneNearest(c, rps[i].at, Nearest(c, rps[i].at), ks[i]);
    }
  }

  /** root is the root of the product of the spreads, where neither is 0. */
  predicate IsRoot(root: real, m: LS.Moments) {
    m.sxx != 0.0 && m.syy != 0.0 ==> root > 0.0 && root * root == m.sxx * m.syy
  }

  /** Pearson's r, the covariance over that root, is there and is -0.7 or less. */
  predicate Opposed(root: real, m: LS.Moments) {
    m.sxx != 0.0 && m.syy != 0.0 && root > 0.0 && m.sxy / root <= -0.7
  }

  function MomentsOfPairs(ps: seq<(real, real)>): LS.Moments
    requires ps != []
  {
    LS.MomentsOf(Firsts(ps), Pairing.Seconds(ps))
  }

  lemma OpposedIs(ps: seq<(real, real)>, root: real)
    requires ps != [] && IsRoot(root, MomentsOfPairs(ps))
    ensures Opposed(root, MomentsOfPairs(ps)) <==> StronglyNegative(MomentsOfPairs(ps))
  {
    var m := MomentsOfPairs(ps);
    hide LS.MomentsOf;
    if m.sxx != 0.0 && m.syy != 0.0 {
      CorrelationInUnit(Firsts(ps), Pairing.Seconds(ps), root);
    }
  }

  /**
   The gate fires, over series in time order whose CPU stamps repeat nowhere before the last, if and only
   if there are five points of either and five pairs of a throughput point and its nearest CPU point
   within 1.5 s, and the pairs correlate at -0.7 or below.
   */
  lemma GateFiresIff(c: Series, rps: Series, ks: seq<nat>, root: real)
    requires Sorted(c) && NoInnerPlateau(c) && Sorted(rps) && AreNearest(c, rps, ks)
    requires NearPairs(c, rps, ks) != [] ==> IsRoot(root, MomentsOfPairs(NearPairs(c, rps, ks)))
    ensures Flagged(c, rps) <==>
              && |rps| >= 5 && |c| >= 5 && |NearPairs(c, rps, ks)| >= 5
              && Opposed(root, MomentsOfPairs(NearPairs(c, rps, ks)))
  {
    if |rps| >= 5 && |c| >= 5 {
      NearestsAre(c, rps, ks);
      ScanFindsNearest(c, rps, 0);
      KeptIs(c, rps, ks);
      hide NearPairs, Kept, AreNearest, Nearests, Choices, Opposed, StronglyNegative, LS.MomentsOf, IsRoot;
      if NearPairs(c, rps, ks) != [] {
        OpposedIs(NearPairs(c, rps, ks), root);
      }
    }
  }
}
