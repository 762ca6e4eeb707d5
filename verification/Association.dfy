// Association of detections with tracks by azimuth: the angular gate, the cost
// matrix, and what the returned lists mean.
module Association {
  import opened Assignments
  import opened Wrappers
  import Hungarian

  const MAX_ASSOCIATION_ANGLE: real := 15.0
  const NO_MATCH_COST: real := 1000000.0

  datatype Pair = Pair(visionIdx: nat, radarIdx: nat, cost: real)

  datatype Outcome = Outcome(associations: seq<Pair>, unmatchedVision: seq<nat>, unmatchedRadar: seq<nat>)

  // ------------------------------------------------------------------ angles

  function Abs(x: real): real { if x < 0.0 then -x else x }

  function AbsAngleDiff(a: real, b: real): real {
    var diff := Abs(a - b);
    if diff > 180.0 then 360.0 - diff else diff
  }

  // The angle between a and b after k full turns.
  function AfterTurns(a: real, b: real, k: int): real {
    Abs(a - b + 360.0 * k as real)
  }

  ghost predicate IsCircularDistance(d: real, a: real, b: real) {
    (exists k :: d == AfterTurns(a, b, k)) && forall k :: d <= AfterTurns(a, b, k)
  }

  predicate WithinOneTurn(a: real, b: real) {
    Abs(a - b) <= 360.0
  }

  // Only one wrap-around is undone, so the result is the distance on the circle
  // exactly when the azimuths are at most one turn apart.
  lemma AngleDiffIsCircular(a: real, b: real)
    ensures IsCircularDistance(AbsAngleDiff(a, b), a, b) <==> WithinOneTurn(a, b)
    ensures WithinOneTurn(a, b) ==> 0.0 <= AbsAngleDiff(a, b) <= 180.0
  {
    var d := AbsAngleDiff(a, b);
    if WithinOneTurn(a, b) {
      var k := if Abs(a - b) <= 180.0 then 0 else if a > b then -1 else 1;
      assert d == AfterTurns(a, b, k);
      forall q ensures d <= AfterTurns(a, b, q) {
        assert q <= -2 || q == -1 || q == 0 || q == 1 || q >= 2;
      }
    } else {
      assert AfterTurns(a, b, 0) >= 0.0;
    }
  }

  lemma TwoTurnsWitness()
    ensures AbsAngleDiff(400.0, 0.0) == -40.0 && !IsCircularDistance(AbsAngleDiff(400.0, 0.0), 400.0, 0.0)
  {
    AngleDiffIsCircular(400.0, 0.0);
  }

  // ------------------------------------------------------------- cost matrix

  function GatedCost(a: real, b: real): real {
    if AbsAngleDiff(a, b) > MAX_ASSOCIATION_ANGLE then NO_MATCH_COST else AbsAngleDiff(a, b)
  }

  function Costs(vision: seq<real>, radar: seq<real>): Matrix {
    seq(|vision|, i requires 0 <= i < |vision| =>
      seq(|radar|, j requires 0 <= j < |radar| => GatedCost(vision[i], radar[j])))
  }

  // Whether the solver returns on this input.
  ghost predicate Solvable(vision: seq<real>, radar: seq<real>) {
    vision == [] || radar == [] || HasZeroMatching(Costs(vision, radar), Max(|vision|, |radar|))
  }

  // A matching that uses only pairs within the gate.
  ghost predicate GatedMatching(vision: seq<real>, radar: seq<real>, g: seq<int>) {
    && PartialAssignment(g, |vision|, |radar|)
    && forall i :: 0 <= i < |vision| && g[i] != -1 ==> AbsAngleDiff(vision[i], radar[g[i]]) <= MAX_ASSOCIATION_ANGLE
  }

  // Total angle of a gated matching.
  function Angle(vision: seq<real>, radar: seq<real>, g: seq<int>, k: nat): real
    requires k <= |g| <= |vision| && forall i :: 0 <= i < |g| ==> -1 <= g[i] < |radar|
  {
    if k == 0 then 0.0
    else Angle(vision, radar, g, k - 1) + if g[k - 1] == -1 then 0.0 else AbsAngleDiff(vision[k - 1], radar[g[k - 1]])
  }

  function TotalCost(ps: seq<Pair>): real {
    if ps == [] then 0.0 else TotalCost(ps[..|ps| - 1]) + ps[|ps| - 1].cost
  }

  // ----------------------------------------------------- meaning of the lists

  ghost predicate Ascending(s: seq<nat>) {
    forall i, j :: 0 <= i < j < |s| ==> s[i] < s[j]
  }

  ghost predicate PairsVision(ps: seq<Pair>, i: int) {
    exists p :: p in ps && p.visionIdx == i
  }

  ghost predicate PairsRadar(ps: seq<Pair>, j: int) {
    exists p :: p in ps && p.radarIdx == j
  }

  // The associations and the two unmatched lists split both index ranges without
  // repetition, and every association is a pair inside the gate with its angle.
  ghost predicate Partition(vision: seq<real>, radar: seq<real>, o: Outcome) {
    && (forall p :: p in o.associations ==>
          && p.visionIdx < |vision| && p.radarIdx < |radar|
          && p.cost == AbsAngleDiff(vision[p.visionIdx], radar[p.radarIdx]) <= MAX_ASSOCIATION_ANGLE)
    && (forall k, l :: 0 <= k < l < |o.associations| ==>
          && o.associations[k].visionIdx < o.associations[l].visionIdx
          && o.associations[k].radarIdx != o.associations[l].radarIdx)
    && Ascending(o.unmatchedVision) && Ascending(o.unmatchedRadar)
    && (forall i :: i in o.unmatchedVision <==> 0 <= i < |vision| && !PairsVision(o.associations, i))
    && (forall j :: j in o.unmatchedRadar <==> 0 <= j < |radar| && !PairsRadar(o.associations, j))
  }

  // As many pairs as any gated matching has, and least total angle among those
  // with as many.
  ghost predicate Best(vision: seq<real>, radar: seq<real>, o: Outcome) {
    forall g :: GatedMatching(vision, radar, g) ==>
      && Count(g, |vision|) <= |o.associations|
      && (Count(g, |vision|) == |o.associations| ==>
            TotalCost(o.associations) <= Angle(vision, radar, g, |vision|))
  }

  // What a caller can check beforehand: azimuths at most one turn apart, and a
  // penalty that outweighs all angles together.
  predicate Comparable(vision: seq<real>, radar: seq<real>) {
    && (forall i, j :: 0 <= i < |vision| && 0 <= j < |radar| ==> WithinOneTurn(vision[i], radar[j]))
    && MAX_ASSOCIATION_ANGLE * Min(|vision|, |radar|) as real < NO_MATCH_COST
  }

  // The outcome shows this matching, row by row.
  ghost predicate Shows(ps: seq<Pair>, vision: seq<real>, radar: seq<real>, g: seq<int>, k: nat)
    requires k <= |g| == |vision| && forall i :: 0 <= i < |g| ==> -1 <= g[i] < |radar|
  {
    && |ps| == Count(g, k)
    && TotalCost(ps) == Angle(vision, radar, g, k)
    && (forall a :: 0 <= a < |ps| ==>
          && ps[a].visionIdx < k && g[ps[a].visionIdx] == ps[a].radarIdx
          && ps[a].cost == AbsAngleDiff(vision[ps[a].visionIdx], radar[ps[a].radarIdx]))
    && (forall a, b :: 0 <= a < b < |ps| ==> ps[a].visionIdx < ps[b].visionIdx)
  }

  // The associations are the pairs of a gated matching.
  ghost predicate Realised(vision: seq<real>, radar: seq<real>, o: Outcome) {
    exists g :: GatedMatching(vision, radar, g) && Shows(o.associations, vision, radar, g, |vision|)
  }

  // ------------------------------------------------- the pairs kept by the gate

  function Gate(vision: seq<real>, radar: seq<real>, s: seq<int>): (g: seq<int>)
    requires PartialAssignment(s, |vision|, |radar|)
    ensures GatedMatching(vision, radar, g)
  {
    seq(|s|, i requires 0 <= i < |s| =>
      if s[i] != -1 && AbsAngleDiff(vision[i], radar[s[i]]) <= MAX_ASSOCIATION_ANGLE then s[i] else -1)
  }

  // Every pair the gate drops had paid the penalty.
  lemma {:induction false} GateCost(vision: seq<real>, radar: seq<real>, s: seq<int>, k: nat)
    requires PartialAssignment(s, |vision|, |radar|) && k <= |s|
    ensures Cost(Costs(vision, radar), s, k)
         == Angle(vision, radar, Gate(vision, radar, s), k)
            + NO_MATCH_COST * (Count(s, k) - Count(Gate(vision, radar, s), k)) as real
  {
    if k == 0 {
    } else {
      GateCost(vision, radar, s, k - 1);
    }
  }

  lemma {:induction false} AngleBounds(vision: seq<real>, radar: seq<real>, g: seq<int>, k: nat)
    requires GatedMatching(vision, radar, g) && Comparable(vision, radar) && k <= |g|
    ensures 0.0 <= Angle(vision, radar, g, k) <= MAX_ASSOCIATION_ANGLE * Count(g, k) as real
  {
    if k == 0 {
    } else {
      AngleBounds(vision, radar, g, k - 1);
      if g[k - 1] != -1 { AngleDiffIsCircular(vision[k - 1], radar[g[k - 1]]); }
    }
  }

  // Any extension of a gated matching costs at most the penalty for each added pair.
  lemma {:induction false} ExtensionCost(vision: seq<real>, radar: seq<real>, g: seq<int>, t: seq<int>, k: nat)
    requires GatedMatching(vision, radar, g) && PartialAssignment(t, |vision|, |radar|) && k <= |g|
    requires forall i :: 0 <= i < |g| && g[i] != -1 ==> t[i] == g[i]
    ensures Count(g, k) <= Count(t, k)
    ensures Cost(Costs(vision, radar), t, k)
         <= Angle(vision, radar, g, k) + NO_MATCH_COST * (Count(t, k) - Count(g, k)) as real
  {
    if k == 0 {
    } else {
      ExtensionCost(vision, radar, g, t, k - 1);
    }
  }

  lemma ExtendToFull(vision: seq<real>, radar: seq<real>, g: seq<int>) returns (t: seq<int>)
    requires vision != [] && radar != [] && PartialAssignment(g, |vision|, |radar|)
    ensures PartialAssignment(t, |vision|, |radar|) && Count(t, |vision|) == Min(|vision|, |radar|)
    ensures forall i :: 0 <= i < |g| && g[i] != -1 ==> t[i] == g[i]
  {
    var n := Max(|vision|, |radar|);
    assert PartialAssignment(Pad(g, n), n, n);
    var u := Complete(Pad(g, n), n);
    RestrictIsFullAssignment(u, |vision|, |radar|);
    t := Restrict(u, |vision|, |radar|);
    forall i | 0 <= i < |g| && g[i] != -1 ensures t[i] == g[i] { assert Pad(g, n)[i] == g[i]; }
  }

  // The heart of the association: a least-cost assignment of the penalised
  // matrix, once the penalised pairs are dropped, is a largest gated matching,
  // and of least total angle among the largest.
  lemma OptimalIsBest(vision: seq<real>, radar: seq<real>, s: seq<int>, g: seq<int>)
    requires vision != [] && radar != [] && Comparable(vision, radar)
    requires Optimal(Costs(vision, radar), s, |vision|, |radar|)
    requires GatedMatching(vision, radar, g)
    ensures Count(g, |vision|) <= Count(Gate(vision, radar, s), |vision|)
    ensures Count(g, |vision|) == Count(Gate(vision, radar, s), |vision|) ==>
              Angle(vision, radar, Gate(vision, radar, s), |vision|) <= Angle(vision, radar, g, |vision|)
  {
    var k := |vision|;
    var f := Gate(vision, radar, s);
    GateCost(vision, radar, s, k);
    AngleBounds(vision, radar, f, k);
    AngleBounds(vision, radar, g, k);
    var t := ExtendToFull(vision, radar, g);
    ExtensionCost(vision, radar, g, t, k);
    var lead := Count(g, k) - Count(f, k);
    assert NO_MATCH_COST * lead as real <= Angle(vision, radar, g, k) - Angle(vision, radar, f, k);
    assert MAX_ASSOCIATION_ANGLE * Count(g, k) as real <= MAX_ASSOCIATION_ANGLE * Min(|vision|, |radar|) as real;
  }

  // ------------------------------------------------------------ the operation

  method BuildCosts(vision: seq<real>, radar: seq<real>) returns (costs: Matrix)
    ensures costs == Costs(vision, radar)
  {
    costs := [];
    for i := 0 to |vision|
      invariant costs == Costs(vision, radar)[..i]
    {
      var row: seq<real> := [];
      for j := 0 to |radar|
        invariant row == Costs(vision, radar)[i][..j]
      {
        var angularDiff := AbsAngleDiff(vision[i], radar[j]);
        if angularDiff > MAX_ASSOCIATION_ANGLE {
          row := row + [NO_MATCH_COST];
        } else {
          row := row + [angularDiff];
        }
      }
      assert row == Costs(vision, radar)[i];
      costs := costs + [row];
    }
  }

  // The indices below n that are not in the set, in order.
  method Remaining(n: nat, taken: set<nat>) returns (rest: seq<nat>)
    ensures Ascending(rest)
    ensures forall i :: i in rest <==> 0 <= i < n && i !in taken
  {
    rest := [];
    for i := 0 to n
      invariant Ascending(rest)
      invariant forall k :: 0 <= k < |rest| ==> rest[k] < i
      invariant forall q :: q in rest <==> 0 <= q < i && q !in taken
    {
      if i !in taken {
        rest := rest + [i];
      }
    }
  }

  lemma ShowsMore(ps: seq<Pair>, vision: seq<real>, radar: seq<real>, g: seq<int>, k: nat)
    requires k < |g| == |vision| && GatedMatching(vision, radar, g) && Shows(ps, vision, radar, g, k)
    ensures g[k] == -1 ==> Shows(ps, vision, radar, g, k + 1)
    ensures g[k] != -1 ==>
              Shows(ps + [Pair(k, g[k], AbsAngleDiff(vision[k], radar[g[k]]))], vision, radar, g, k + 1)
  {}

  lemma PairsGrow(ps: seq<Pair>, p: Pair)
    ensures forall i :: PairsVision(ps + [p], i) <==> PairsVision(ps, i) || i == p.visionIdx
    ensures forall j :: PairsRadar(ps + [p], j) <==> PairsRadar(ps, j) || j == p.radarIdx
  {}

  ghost predicate Tracks(ps: seq<Pair>, matchedVision: set<nat>, matchedRadar: set<nat>) {
    && (forall i: nat :: i in matchedVision <==> PairsVision(ps, i))
    && (forall j: nat :: j in matchedRadar <==> PairsRadar(ps, j))
  }

  method KeepPair(ps: seq<Pair>, mv: set<nat>, mr: set<nat>, visionIdx: nat, radarIdx: nat, cost: real)
    returns (associations: seq<Pair>, matchedVision: set<nat>, matchedRadar: set<nat>)
    requires Tracks(ps, mv, mr)
    ensures associations == ps + [Pair(visionIdx, radarIdx, cost)]
    ensures Tracks(associations, matchedVision, matchedRadar)
  {
    PairsGrow(ps, Pair(visionIdx, radarIdx, cost));
    associations := ps + [Pair(visionIdx, radarIdx, cost)];
    matchedVision := mv + {visionIdx};
    matchedRadar := mr + {radarIdx};
  }

  // Below the penalty means within the gate.
  lemma GateByCost(vision: seq<real>, radar: seq<real>, s: seq<int>, i: nat)
    requires PartialAssignment(s, |vision|, |radar|) && i < |s|
    ensures Gate(vision, radar, s)[i]
         == if s[i] != -1 && Costs(vision, radar)[i][s[i]] < NO_MATCH_COST then s[i] else -1
    ensures Gate(vision, radar, s)[i] != -1 ==> Costs(vision, radar)[i][s[i]] == AbsAngleDiff(vision[i], radar[s[i]])
  {}

  method KeepGated(vision: seq<real>, radar: seq<real>, costs: Matrix, s: seq<int>)
    returns (associations: seq<Pair>, matchedVision: set<nat>, matchedRadar: set<nat>)
    requires costs == Costs(vision, radar) && PartialAssignment(s, |vision|, |radar|)
    ensures Shows(associations, vision, radar, Gate(vision, radar, s), |vision|)
    ensures Tracks(associations, matchedVision, matchedRadar)
  {
    ghost var g := Gate(vision, radar, s);
    associations, matchedVision, matchedRadar := [], {}, {};
    for visionIdx := 0 to |s|
      invariant Shows(associations, vision, radar, g, visionIdx)
      invariant Tracks(associations, matchedVision, matchedRadar)
    {
      GateByCost(vision, radar, s, visionIdx);
      ShowsMore(associations, vision, radar, g, visionIdx);
      var radarIdx := s[visionIdx];
      if 0 <= radarIdx < |radar| {
        var cost := costs[visionIdx][radarIdx];
        if cost < NO_MATCH_COST {
          associations, matchedVision, matchedRadar :=
            KeepPair(associations, matchedVision, matchedRadar, visionIdx, radarIdx, cost);
        }
      }
    }
  }

  lemma ShowsPartition(vision: seq<real>, radar: seq<real>, g: seq<int>, o: Outcome)
    requires GatedMatching(vision, radar, g) && Shows(o.associations, vision, radar, g, |vision|)
    requires Ascending(o.unmatchedVision) && Ascending(o.unmatchedRadar)
    requires forall i :: i in o.unmatchedVision <==> 0 <= i < |vision| && !PairsVision(o.associations, i)
    requires forall j :: j in o.unmatchedRadar <==> 0 <= j < |radar| && !PairsRadar(o.associations, j)
    ensures Partition(vision, radar, o)
  {}

  lemma {:induction false} NothingToMatch(vision: seq<real>, radar: seq<real>, g: seq<int>, k: nat)
    requires radar == [] && GatedMatching(vision, radar, g) && k <= |vision|
    ensures Count(g, k) == 0 && Angle(vision, radar, g, k) == 0.0
  {
    if k == 0 {
    } else {
      NothingToMatch(vision, radar, g, k - 1);
    }
  }

  // None when the solver has not returned within the budget of passes.
  method AssociateDetections(vision: seq<real>, radar: seq<real>, budget: nat) returns (r: Option<Outcome>)
    ensures r.Some? ==> Solvable(vision, radar)
    ensures Solvable(vision, radar) && budget >= Max(|vision|, |radar|) ==> r.Some?
    ensures r.Some? ==> Partition(vision, radar, r.value) && Realised(vision, radar, r.value)
    ensures r.Some? && Comparable(vision, radar) ==> Best(vision, radar, r.value)
  {
    if |vision| == 0 {
      var all := Remaining(|radar|, {});
      assert Shows([], vision, radar, [], 0);
      return Some(Outcome([], [], all));
    }
    if |radar| == 0 {
      var all := Remaining(|vision|, {});
      r := Some(Outcome([], all, []));
      ghost var none := seq(|vision|, _ => -1);
      NothingToMatch(vision, radar, none, |vision|);
      assert Shows([], vision, radar, none, |vision|);
      forall g | GatedMatching(vision, radar, g)
        ensures Count(g, |vision|) == 0 && Angle(vision, radar, g, |vision|) == 0.0
      {
        NothingToMatch(vision, radar, g, |vision|);
      }
      return;
    }
    var costs := BuildCosts(vision, radar);
    var assignment := Hungarian.Solve(costs, budget);
    if assignment.None? { return None; }
    ghost var s := assignment.value;
    var associations, matchedVision, matchedRadar := KeepGated(vision, radar, costs, assignment.value);
    var unmatchedVision := Remaining(|vision|, matchedVision);
    var unmatchedRadar := Remaining(|radar|, matchedRadar);
    var o := Outcome(associations, unmatchedVision, unmatchedRadar);
    ShowsPartition(vision, radar, Gate(vision, radar, s), o);
    if Comparable(vision, radar) {
      forall g | GatedMatching(vision, radar, g)
        ensures Count(g, |vision|) <= |associations|
        ensures Count(g, |vision|) == |associations| ==> TotalCost(associations) <= Angle(vision, radar, g, |vision|)
      {
        OptimalIsBest(vision, radar, s, g);
      }
    }
    r := Some(o);
  }

  lemma OneRow(g: seq<int>)
    requires |g| == 1 && -1 <= g[0] < 1
    ensures Count(g, 1) == (if g[0] == -1 then 0 else 1)
  {
    assert Count(g, 0) == 0;
  }

  // An ascending list of indices below 1.
  lemma OnlyZero(s: seq<nat>)
    requires Ascending(s) && forall i :: i in s ==> 0 <= i < 1
    ensures s == if 0 in s then [0] else []
  {
    if s != [] {
      var first, last := s[0], s[|s| - 1];
      assert first in s && last in s;
      assert s == [0];
    }
  }

  lemma AtMostOne(v: real, t: real, o: Outcome)
    requires Partition([v], [t], o)
    ensures o.associations == []
         || (o.associations == [Pair(0, 0, AbsAngleDiff(v, t))] && AbsAngleDiff(v, t) <= 15.0)
  {
    var ps := o.associations;
    if ps != [] {
      var first, last := ps[0], ps[|ps| - 1];
      assert first in ps && last in ps;
      assert |ps| == 1;
    }
  }

  lemma OneIsComparable(v: real, t: real)
    requires Abs(v - t) <= 360.0
    ensures Comparable([v], [t])
  {}

  // One detection and one track are associated exactly when they are at most 15
  // degrees apart, and then with that angle as cost.
  lemma OnePair(v: real, t: real, o: Outcome)
    requires Abs(v - t) <= 360.0 && Partition([v], [t], o) && Best([v], [t], o)
    ensures AbsAngleDiff(v, t) <= 15.0 ==> o == Outcome([Pair(0, 0, AbsAngleDiff(v, t))], [], [])
    ensures AbsAngleDiff(v, t) > 15.0 ==> o == Outcome([], [0], [0])
  {
    AtMostOne(v, t, o);
    assert |o.associations| > 0 ==> o.associations[0] in o.associations;
    if AbsAngleDiff(v, t) <= 15.0 {
      assert GatedMatching([v], [t], [0]);
      OneRow([0]);
      assert o.associations == [Pair(0, 0, AbsAngleDiff(v, t))];
    } else {
      assert o.associations == [];
    }
    OnlyZero(o.unmatchedVision);
    OnlyZero(o.unmatchedRadar);
  }

  lemma PenaltyIsAMillion(v: real, t: real)
    ensures Costs([v], [t])[0][0] == if AbsAngleDiff(v, t) <= 15.0 then AbsAngleDiff(v, t) else 1_000_000.0
  {}

  lemma WitnessCosts()
    ensures Costs([0.0, 1.0, 2.0], [0.0, 5.0, 10.0]) == [[0.0, 5.0, 10.0], [1.0, 4.0, 9.0], [2.0, 3.0, 8.0]]
  {
    var m := Costs([0.0, 1.0, 2.0], [0.0, 5.0, 10.0]);
    assert m[0] == [0.0, 5.0, 10.0] && m[1] == [1.0, 4.0, 9.0] && m[2] == [2.0, 3.0, 8.0];
  }

  // Its reduced zeros in rows 0 and 1 are both in column 0.
  lemma WitnessViolator()
    ensures HallViolator([[0.0, 5.0, 10.0], [1.0, 4.0, 9.0], [2.0, 3.0, 8.0]], 3, {0, 1})
  {
    var m := [[0.0, 5.0, 10.0], [1.0, 4.0, 9.0], [2.0, 3.0, 8.0]];
    assert RowMin(m, 0, 3) == 0.0 && RowMin(m, 1, 3) == 1.0 && RowMin(m, 2, 3) == 2.0;
    assert ColMin(m, 3, 0, 3) == 0.0 && ColMin(m, 3, 1, 3) == 1.0 && ColMin(m, 3, 2, 3) == 6.0;
    assert ZeroCols(m, 3, {0, 1}) <= {0};
    SubsetSize(ZeroCols(m, 3, {0, 1}), {0});
  }

  // Three detections at 0, 1 and 2 degrees against tracks at 0, 5 and 10: the
  // solver never returns.
  lemma NeverReturnsWitness()
    ensures Comparable([0.0, 1.0, 2.0], [0.0, 5.0, 10.0]) && !Solvable([0.0, 1.0, 2.0], [0.0, 5.0, 10.0])
  {
    WitnessCosts();
    WitnessViolator();
    ViolatorExcludesMatching(Costs([0.0, 1.0, 2.0], [0.0, 5.0, 10.0]), 3, {0, 1});
  }
}
