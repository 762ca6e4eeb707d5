// The engine lists its tracks in map iteration order, which is not fixed.  What
// the association yields does not depend on that order.
module TrackOrder {
  import opened Assignments
  import opened Association

  function Reorder(radar: seq<real>, p: seq<int>): seq<real>
    requires Permutation(p, |radar|)
  {
    seq(|radar|, j requires 0 <= j < |radar| => radar[p[j]])
  }

  ghost function RowOf(p: seq<int>, n: nat, j: int): (i: int)
    requires Permutation(p, n) && 0 <= j < n
    ensures 0 <= i < n && p[i] == j
  {
    PermutationOnto(p, n, j);
    var i :| 0 <= i < n && p[i] == j;
    i
  }

  lemma InversePermutation(p: seq<int>, n: nat) returns (q: seq<int>)
    requires Permutation(p, n)
    ensures Inverse(p, q, n)
  {
    q := seq(n, j requires 0 <= j < n => RowOf(p, n, j));
  }

  // Column j of a is column q[j] of m, over an n by n square.
  ghost predicate Reordered(a: Matrix, m: Matrix, q: seq<int>, n: nat) {
    && n > 0 && Permutation(q, n)
    && forall i, j :: 0 <= i < n && 0 <= j < n ==> Entry(a, i, j) == Entry(m, i, q[j])
  }

  lemma RowMinReordered(a: Matrix, m: Matrix, q: seq<int>, n: nat, i: int)
    requires Reordered(a, m, q, n) && 0 <= i < n
    ensures RowMin(a, i, n) == RowMin(m, i, n)
  {
    RowMinIsLeast(a, i, n);
    RowMinIsLeast(m, i, n);
    var j :| 0 <= j < n && RowMin(m, i, n) == Entry(m, i, j);
    PermutationOnto(q, n, j);
    var k :| 0 <= k < n && q[k] == j;
    assert RowMin(a, i, n) <= Entry(a, i, k);
  }

  lemma {:induction false} ColMinReordered(a: Matrix, m: Matrix, q: seq<int>, n: nat, j: int, k: nat)
    requires Reordered(a, m, q, n) && 0 <= j < n && 0 < k <= n
    ensures ColMin(a, n, j, k) == ColMin(m, n, q[j], k)
  {
    RowMinReordered(a, m, q, n, k - 1);
    if k == 1 {
    } else {
      ColMinReordered(a, m, q, n, j, k - 1);
    }
  }

  lemma ReducedReordered(a: Matrix, m: Matrix, q: seq<int>, n: nat, i: int, j: int)
    requires Reordered(a, m, q, n) && 0 <= i < n && 0 <= j < n
    ensures Reduced(a, n, i, j) == Reduced(m, n, i, q[j])
  {
    RowMinReordered(a, m, q, n, i);
    ColMinReordered(a, m, q, n, j, n);
  }

  // Two permutations one after the other.
  function Composed(s: seq<int>, q: seq<int>, n: nat): (t: seq<int>)
    requires Permutation(s, n) && Permutation(q, n)
    ensures Permutation(t, n)
  {
    seq(n, i requires 0 <= i < n => q[s[i]])
  }

  // A zero matching of one is carried to the other.
  lemma MatchingReordered(a: Matrix, m: Matrix, q: seq<int>, n: nat)
    requires Reordered(a, m, q, n) && HasZeroMatching(a, n)
    ensures HasZeroMatching(m, n)
  {
    var s :| ZeroMatching(a, n, s);
    forall i | 0 <= i < n ensures Reduced(m, n, i, Composed(s, q, n)[i]) == 0.0 {
      ReducedReordered(a, m, q, n, i, s[i]);
    }
    assert ZeroMatching(m, n, Composed(s, q, n));
  }

  lemma ReorderCosts(vision: seq<real>, radar: seq<real>, p: seq<int>) returns (q: seq<int>)
    requires vision != [] && radar != [] && Permutation(p, |radar|)
    ensures Reordered(Costs(vision, Reorder(radar, p)), Costs(vision, radar), q, Max(|vision|, |radar|))
  {
    var n := Max(|vision|, |radar|);
    q := seq(n, j requires 0 <= j < n => if j < |radar| then p[j] else j);
  }

  lemma SolvableReordered(vision: seq<real>, radar: seq<real>, p: seq<int>)
    requires Permutation(p, |radar|) && Solvable(vision, Reorder(radar, p))
    ensures Solvable(vision, radar)
  {
    if vision != [] && radar != [] {
      var q := ReorderCosts(vision, radar, p);
      MatchingReordered(Costs(vision, Reorder(radar, p)), Costs(vision, radar), q, Max(|vision|, |radar|));
    }
  }

  lemma ReorderBack(radar: seq<real>, p: seq<int>) returns (q: seq<int>)
    requires Permutation(p, |radar|)
    ensures Permutation(q, |radar|) && Reorder(Reorder(radar, p), q) == radar
  {
    q := InversePermutation(p, |radar|);
  }

  // Whether the solver returns does not depend on the order of the tracks.
  lemma HaltingIgnoresOrder(vision: seq<real>, radar: seq<real>, p: seq<int>)
    requires Permutation(p, |radar|)
    ensures Solvable(vision, radar) <==> Solvable(vision, Reorder(radar, p))
  {
    if Solvable(vision, Reorder(radar, p)) { SolvableReordered(vision, radar, p); }
    if Solvable(vision, radar) {
      var q := ReorderBack(radar, p);
      SolvableReordered(vision, Reorder(radar, p), q);
    }
  }

  lemma {:induction false} AngleReordered(vision: seq<real>, radar: seq<real>, p: seq<int>, g: seq<int>,
                                          h: seq<int>, k: nat)
    requires Permutation(p, |radar|) && GatedMatching(vision, Reorder(radar, p), g) && GatedMatching(vision, radar, h)
    requires k <= |vision| && forall i :: 0 <= i < |vision| ==> h[i] == if g[i] == -1 then -1 else p[g[i]]
    ensures Count(h, k) == Count(g, k) && Angle(vision, radar, h, k) == Angle(vision, Reorder(radar, p), g, k)
  {
    if k == 0 {
    } else {
      AngleReordered(vision, radar, p, g, h, k - 1);
    }
  }

  lemma MatchingCarries(vision: seq<real>, radar: seq<real>, p: seq<int>, g: seq<int>) returns (h: seq<int>)
    requires Permutation(p, |radar|) && GatedMatching(vision, Reorder(radar, p), g)
    ensures GatedMatching(vision, radar, h)
    ensures Count(h, |vision|) == Count(g, |vision|)
    ensures Angle(vision, radar, h, |vision|) == Angle(vision, Reorder(radar, p), g, |vision|)
  {
    h := seq(|vision|, i requires 0 <= i < |vision| => if g[i] == -1 then -1 else p[g[i]]);
    AngleReordered(vision, radar, p, g, h, |vision|);
  }

  lemma NotWorse(vision: seq<real>, radar: seq<real>, p: seq<int>, o: Outcome, o': Outcome)
    requires Permutation(p, |radar|)
    requires Best(vision, radar, o) && Realised(vision, Reorder(radar, p), o')
    ensures |o'.associations| <= |o.associations|
    ensures |o'.associations| == |o.associations| ==> TotalCost(o.associations) <= TotalCost(o'.associations)
  {
    var g :| GatedMatching(vision, Reorder(radar, p), g)
             && Shows(o'.associations, vision, Reorder(radar, p), g, |vision|);
    var h := MatchingCarries(vision, radar, p, g);
  }

  // Nor do the number of associations and their total angle.
  lemma ResultIgnoresOrder(vision: seq<real>, radar: seq<real>, p: seq<int>, o: Outcome, o': Outcome)
    requires Permutation(p, |radar|)
    requires Best(vision, radar, o) && Realised(vision, radar, o)
    requires Best(vision, Reorder(radar, p), o') && Realised(vision, Reorder(radar, p), o')
    ensures |o.associations| == |o'.associations| && TotalCost(o.associations) == TotalCost(o'.associations)
  {
    NotWorse(vision, radar, p, o, o');
    var q := ReorderBack(radar, p);
    NotWorse(vision, Reorder(radar, p), q, o', o);
  }
}
