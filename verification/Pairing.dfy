/**
 The generator-saturation gate (gate/gates.go): throughput points are paired with CPU points by one
 forward scan, and a strongly negative correlation over the pairs invalidates the cell.
 */
module Pairing {
  import opened Options
  import opened TimeSeries
  import LS = LeastSquares

  /** 1.5 s, in nanoseconds. */
  const REACH := 1_500_000_000

  function Gap(c: Series, i: nat, t: int): nat
    requires i < |c|
  {
    if c[i].at >= t then c[i].at - t else t - c[i].at
  }

  // ---------- the scan ----------

  /** Where the inner loop stops, started at i. */
  function Advance(c: Series, i: nat, t: int): (k: nat)
    requires i < |c|
    ensures i <= k < |c|
    decreases |c| - i
  {
    if i + 1 < |c| && Gap(c, i + 1, t) < Gap(c, i, t) then Advance(c, i + 1, t) else i
  }

  /** The CPU point each throughput point is held against, the scan resuming where it stopped. */
  function Choices(c: Series, rps: Series, ci: nat): (ks: seq<nat>)
    requires ci < |c|
    ensures |ks| == |rps| && forall i :: 0 <= i < |ks| ==> ks[i] < |c|
    decreases |rps|
  {
    if rps == [] then [] else var k := Advance(c, ci, rps[0].at); [k] + Choices(c, rps[1..], k)
  }

  /** The pairs whose two points are within reach of each other. */
  function Kept(c: Series, rps: Series, ks: seq<nat>): seq<(real, real)>
    requires |ks| == |rps| && forall i :: 0 <= i < |ks| ==> ks[i] < |c|
  {
    if rps == [] then []
    else
      var rest := Kept(c, rps[1..], ks[1..]);
      if Gap(c, ks[0], rps[0].at) > REACH then rest else [(rps[0].v, c[ks[0]].v)] + rest
  }

  // ---------- the reference ----------

  /** The leftmost of the nearest among the first k points. */
  function NearestOf(c: Series, t: int, k: nat): (n: nat)
    requires 0 < k <= |c|
    ensures n < k
    ensures forall j :: 0 <= j < k ==> Gap(c, n, t) <= Gap(c, j, t)
    ensures forall j :: 0 <= j < n ==> Gap(c, n, t) < Gap(c, j, t)
  {
    if k == 1 then 0
    else
      var n := NearestOf(c, t, k - 1);
      if Gap(c, k - 1, t) < Gap(c, n, t) then k - 1 else n
  }

  function Nearest(c: Series, t: int): nat
    requires c != []
  {
    NearestOf(c, t, |c|)
  }

  function Nearests(c: Series, rps: Series): (ks: seq<nat>)
    requires c != []
    ensures |ks| == |rps| && forall i :: 0 <= i < |ks| ==> ks[i] < |c|
  {
    seq(|rps|, i requires 0 <= i < |rps| => Nearest(c, rps[i].at))
  }

  /** Equal neighbouring timestamps only at the very end. */
  predicate NoInnerPlateau(c: Series) {
    forall i :: 0 <= i < |c| - 1 && c[i].at == c[i + 1].at ==> c[i].at == c[|c| - 1].at
  }

  // ---------- the scan finds the nearest ----------

  /** Descent from anywhere left of the nearest point reaches it: distance has no other valley. */
  lemma {:induction false} DescentReachesNearest(c: Series, i: nat, t: int)
    requires Sorted(c) && NoInnerPlateau(c) && c != [] && i <= Nearest(c, t)
    ensures Advance(c, i, t) == Nearest(c, t)
    decreases |c| - i
  {
    var n := Nearest(c, t);
    if i < n {
      assert Gap(c, n, t) < Gap(c, i, t);
      assert c[i].at <= c[i + 1].at <= c[n].at <= c[|c| - 1].at;
      DescentReachesNearest(c, i + 1, t);
    }
  }

  /** Later moments have no earlier nearest point. */
  lemma NearestMovesForward(c: Series, t: int, t': int)
    requires Sorted(c) && c != [] && t <= t'
    ensures Nearest(c, t) <= Nearest(c, t')
  {
    var n, n' := Nearest(c, t), Nearest(c, t');
    assert Gap(c, n, t) <= Gap(c, n', t) && Gap(c, n', t') <= Gap(c, n, t');
  }

  /** For sorted series without inner plateaus every throughput point gets a globally nearest CPU point, the leftmost of them. */
  lemma {:induction false} ScanFindsNearest(c: Series, rps: Series, ci: nat)
    requires Sorted(c) && NoInnerPlateau(c) && Sorted(rps) && ci < |c|
    requires rps != [] ==> ci <= Nearest(c, rps[0].at)
    ensures Choices(c, rps, ci) == Nearests(c, rps)
    decreases |rps|
  {
    if rps != [] {
      var k := Nearest(c, rps[0].at);
      DescentReachesNearest(c, ci, rps[0].at);
      if |rps| > 1 {
        NearestMovesForward(c, rps[0].at, rps[1].at);
      }
      ScanFindsNearest(c, rps[1..], k);
      assert Nearests(c, rps) == [k] + Nearests(c, rps[1..]);
    }
  }

  /** On a plateau the scan makes no progress, however far ahead the moment lies. */
  lemma {:induction false} PlateauStopsTheScan(c: Series, i: nat, p: nat, t: int)
    requires Sorted(c) && i <= p && p + 1 < |c| && c[p].at == c[p + 1].at
    ensures Advance(c, i, t) <= p
    decreases p - i
  {
    if i < p {
      PlateauStopsTheScan(c, i + 1, p, t);
    }
  }

  /** The scan agrees with the nearest point for every sorted throughput series if and only if no inner timestamps repeat. */
  lemma ScanIsNearestIff(c: Series)
    requires Sorted(c) && c != []
    ensures NoInnerPlateau(c) <==> forall rps :: Sorted(rps) ==> Choices(c, rps, 0) == Nearests(c, rps)
  {
    if NoInnerPlateau(c) {
      forall rps | Sorted(rps)
        ensures Choices(c, rps, 0) == Nearests(c, rps)
      {
        ScanFindsNearest(c, rps, 0);
      }
    } else {
      var p :| 0 <= p < |c| - 1 && c[p].at == c[p + 1].at && c[p].at != c[|c| - 1].at;
      var t := c[|c| - 1].at;
      var late := [Point(t, 0.0)];
      PlateauStopsTheScan(c, 0, p, t);
      var k := Choices(c, late, 0)[0];
      assert k <= p && c[k].at <= c[p].at < t;
      assert Gap(c, |c| - 1, t) == 0;
      assert Nearests(c, late)[0] == Nearest(c, t);
      assert Choices(c, late, 0) != Nearests(c, late);
    }
  }

  // ---------- the gate ----------

  lemma {:induction false} KeptTogether(c: Series, rps: Series, ks: seq<nat>, i: nat)
    requires |ks| == |rps| && (forall k :: 0 <= k < |ks| ==> ks[k] < |c|) && i < |rps|
    ensures Kept(c, rps[..i + 1], ks[..i + 1])
         == Kept(c, rps[..i], ks[..i]) + if Gap(c, ks[i], rps[i].at) > REACH then [] else [(rps[i].v, c[ks[i]].v)]
  {
    assert rps[..i + 1][1..] == rps[1..][..i] && ks[..i + 1][1..] == ks[1..][..i];
    if i > 0 {
      assert rps[..i][1..] == rps[1..][..i - 1] && ks[..i][1..] == ks[1..][..i - 1];
      KeptTogether(c, rps[1..], ks[1..], i - 1);
    }
  }

  lemma {:induction false} ChoiceStep(c: Series, rps: Series, ci: nat, i: nat)
    requires ci < |c| && i < |rps|
    ensures var ks := Choices(c, rps, ci);
            ks[i] == Advance(c, if i == 0 then ci else ks[i - 1], rps[i].at)
  {
    if i > 0 {
      ChoiceStep(c, rps[1..], Advance(c, ci, rps[0].at), i - 1);
    }
  }

  function Firsts(ps: seq<(real, real)>): (xs: seq<real>)
    ensures |xs| == |ps| && forall i :: 0 <= i < |xs| ==> xs[i] == ps[i].0
  {
    seq(|ps|, i requires 0 <= i < |ps| => ps[i].0)
  }

  function Seconds(ps: seq<(real, real)>): (ys: seq<real>)
    ensures |ys| == |ps| && forall i :: 0 <= i < |ys| ==> ys[i] == ps[i].1
  {
    seq(|ps|, i requires 0 <= i < |ps| => ps[i].1)
  }

  /** The inner loop: on to the next CPU point while that one is nearer. */
  method Settle(c: Series, ci: nat, t: int) returns (k: nat)
    requires ci < |c|
    ensures k == Advance(c, ci, t)
  {
    k := ci;
    while k + 1 < |c| && Gap(c, k + 1, t) < Gap(c, k, t)
      invariant k < |c| && Advance(c, k, t) == Advance(c, ci, t)
    {
      k := k + 1;
    }
  }

  /** The pairing loop, whatever the series. */
  method ComputePairs(c: Series, rps: Series) returns (xs: seq<real>, ys: seq<real>)
    requires c != []
    ensures var ps := Kept(c, rps, Choices(c, rps, 0)); xs == Firsts(ps) && ys == Seconds(ps)
  {
    hide Choices, Kept, Advance, Gap;
    xs, ys := [], [];
    var ci := 0;
    ghost var ks := Choices(c, rps, 0);
    NothingKept(c, rps, ks);
    for i := 0 to |rps|
      invariant ci < |c| && ci == if i == 0 then 0 else ks[i - 1]
      invariant xs == Firsts(Kept(c, rps[..i], ks[..i])) && ys == Seconds(Kept(c, rps[..i], ks[..i]))
    {
      ChoiceStep(c, rps, 0, i);
      KeptTogether(c, rps, ks, i);
      ci := Settle(c, ci, rps[i].at);
      if Gap(c, ci, rps[i].at) > REACH { continue; }
      xs, ys := xs + [rps[i].v], ys + [c[ci].v];
    }
    assert rps[..|rps|] == rps && ks[..|rps|] == ks;
  }

  lemma NothingKept(c: Series, rps: Series, ks: seq<nat>)
    requires |ks| == |rps| && forall k :: 0 <= k < |ks| ==> ks[k] < |c|
    ensures Kept(c, rps[..0], ks[..0]) == []
  {
  }

  /** r <= -0.7 without the root: the covariance is negative and its square is at least 0.49 of the spreads' product. */
  predicate StronglyNegative(m: LS.Moments) {
    m.sxx != 0.0 && m.syy != 0.0 && m.sxy < 0.0 && m.sxy * m.sxy >= 0.49 * (m.sxx * m.syy)
  }

  /** What the gate is for: enough pairs, each of a throughput point and its nearest CPU point, that fall together. */
  predicate Competes(c: Series, rps: Series) {
    && |rps| >= 5 && |c| >= 5
    && var ps := Kept(c, rps, Nearests(c, rps));
       && |ps| >= 5
       && StronglyNegative(LS.MomentsOf(Firsts(ps), Seconds(ps)))
  }

  /** The moments of the pairs the loop keeps, when there are any. */
  ghost function PairMoments(c: Series, rps: Series): LS.Moments {
    if c == [] then LS.Moments(0.0, 0.0, 0.0, 0.0, 0.0)
    else
      var ps := Kept(c, rps, Choices(c, rps, 0));
      if ps == [] then LS.Moments(0.0, 0.0, 0.0, 0.0, 0.0) else LS.MomentsOf(Firsts(ps), Seconds(ps))
  }

  /** What the gate computes, on any series. */
  predicate Flagged(c: Series, rps: Series) {
    && |rps| >= 5 && |c| >= 5
    && var ps := Kept(c, rps, Choices(c, rps, 0));
       && |ps| >= 5
       && StronglyNegative(LS.MomentsOf(Firsts(ps), Seconds(ps)))
  }

  /** What is found is the coefficient, as the moments it is a quotient of. */
  method NegativeCorrelation(rps: Series, cpu: Series) returns (r: Option<LS.Moments>)
    ensures Sorted(cpu) && NoInnerPlateau(cpu) && Sorted(rps) ==> (r.Some? <==> Competes(cpu, rps))
    ensures r.Some? <==> Flagged(cpu, rps)
    ensures r.Some? ==> r.value == PairMoments(cpu, rps)
  {
    hide Choices, Kept, Nearests, LS.MomentsOf, StronglyNegative;
    if |rps| < 5 || |cpu| < 5 { return None; }
    if Sorted(cpu) && NoInnerPlateau(cpu) && Sorted(rps) {
      ScanFindsNearest(cpu, rps, 0);
    }
    var xs, ys := ComputePairs(cpu, rps);
    if |xs| < 5 { return None; }
    r := Pearson(xs, ys);
  }

  method Pearson(xs: seq<real>, ys: seq<real>) returns (r: Option<LS.Moments>)
    requires |xs| == |ys| > 0
    ensures r == if StronglyNegative(LS.MomentsOf(xs, ys)) then Some(LS.MomentsOf(xs, ys)) else None
  {
    hide LS.MomentsOf;
    var m := LS.ComputeMoments(xs, ys);
    if m.sxx == 0.0 || m.syy == 0.0 { return None; }
    if !(m.sxy < 0.0 && m.sxy * m.sxy >= 0.49 * (m.sxx * m.syy)) { return None; }
    return Some(m);
  }

  /** r = sxy / sqrt(sxx * syy) lies in [-1, 1], and is at most -0.7 exactly when the squares say so. */
  lemma CorrelationInUnit(xs: seq<real>, ys: seq<real>, root: real)
    requires |xs| == |ys| > 0
    requires var m := LS.MomentsOf(xs, ys); m.sxx != 0.0 && m.syy != 0.0 && root >= 0.0 && root * root == m.sxx * m.syy
    ensures root > 0.0
    ensures var m := LS.MomentsOf(xs, ys); -1.0 <= m.sxy / root <= 1.0 && (m.sxy / root <= -0.7 <==> StronglyNegative(m))
  {
    hide LS.MomentsOf;
    LS.CauchySchwarz(xs, ys);
    var m := LS.MomentsOf(xs, ys);
    RootPositive(m.sxx, m.syy, root);
    Quotient(m.sxy, root, m.sxy / root);
    RatioBySquares(m.sxy, root, m.sxy / root);
  }

  lemma RootPositive(x: real, y: real, root: real)
    requires x > 0.0 && y > 0.0 && root >= 0.0 && root * root == x * y
    ensures root > 0.0
  {
    assert x * y > 0.0;
  }

  lemma Quotient(p: real, root: real, q: real)
    requires root > 0.0 && q == p / root
    ensures q * root == p
  {
  }

  lemma RatioBySquares(p: real, root: real, q: real)
    requires root > 0.0 && q * root == p && p * p <= root * root
    ensures -1.0 <= q <= 1.0
    ensures q <= -0.7 <==> p < 0.0 && p * p >= 0.49 * (root * root)
  {
    Beyond(p, root, q, 1.0);
    Beyond(-p, root, -q, 1.0);
    Beyond(-p, root, -q, 0.7);
    SameSquare(p);
  }

  lemma SameSquare(p: real)
    ensures (-p) * (-p) == p * p
  {
  }

  /** A ratio beyond a bound has its square beyond the bound's. */
  lemma Beyond(p: real, root: real, q: real, bound: real)
    requires root > 0.0 && q * root == p && bound > 0.0
    ensures q > bound ==> p * p > bound * bound * (root * root)
    ensures q >= bound ==> p > 0.0 && p * p >= bound * bound * (root * root)
    ensures q < bound && p >= 0.0 ==> p * p < bound * bound * (root * root)
  {
    var edge := bound * root;
    assert edge > 0.0;
    assert edge * edge == bound * bound * (root * root);
    if q >= bound {
      Products(q - bound, root);
      assert p - edge == (q - bound) * root;
      if q > bound {
        StrictProducts(q - bound, root);
      }
      Squares(edge, p);
    } else if p >= 0.0 {
      StrictProducts(bound - q, root);
      assert edge - p == (bound - q) * root;
      assert p < edge;
      Squares(p, edge);
    }
  }

  lemma Products(a: real, b: real)
    requires a >= 0.0 && b >= 0.0
    ensures a * b >= 0.0
  {
  }

  lemma StrictProducts(a: real, b: real)
    requires a > 0.0 && b > 0.0
    ensures a * b > 0.0
  {
  }

  lemma Squares(a: real, b: real)
    requires 0.0 <= a <= b
    ensures a * a <= b * b && (a < b ==> a * a < b * b)
  {
    assert b * b - a * a == (b - a) * (b + a);
    Products(b - a, b + a);
    if a < b {
      StrictProducts(b - a, b + a);
    }
  }
}
