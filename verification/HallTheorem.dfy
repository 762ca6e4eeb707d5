// The solver's halting condition without reference to matchings: the reduced
// zeros have a perfect matching exactly when no set of rows has its zeros in
// fewer columns than rows.
module HallTheorem {
  import opened Assignments
  import opened Hungarian

  // Flip a whole path, from its free column back to the root.
  lemma {:induction false} FlipPath(m: Matrix, n: nat, r0: seq<int>, r: seq<int>, c: seq<int>, parent: seq<int>,
                                    order: seq<int>, up: seq<int>, at: nat, col: int)
    returns (r': seq<int>, c': seq<int>)
    requires SearchTree(m, n, r0, parent, order, up) && Flipping(m, n, r0, r, c, order, at, col)
    ensures Flipping(m, n, r0, r', c', order, -1, -1)
    decreases at
  {
    FlipOne(m, n, r0, r, c, parent, order, up, at, col);
    var r1, c1 := r[order[at] := col], c[col := order[at]];
    if at == 0 { return r1, c1; }
    r', c' := FlipPath(m, n, r0, r1, c1, parent, order, up, up[at], r[order[at]]);
  }

  // A path to a free column yields a matching with one more row.
  lemma Augment(m: Matrix, n: nat, r: seq<int>, c: seq<int>, parent: seq<int>, order: seq<int>, up: seq<int>,
                k: nat, col: int) returns (r': seq<int>, c': seq<int>)
    requires Matching(m, n, r, c) && SearchTree(m, n, r, parent, order, up)
    requires k < |order| && 0 <= col < n && c[col] == -1 && Reduced(m, n, order[k], col) == 0.0
    ensures Matching(m, n, r', c') && Count(r', n) == Count(r, n) + 1
  {
    assert Flipping(m, n, r, r, c, order, k, col);
    r', c' := FlipPath(m, n, r, r, c, parent, order, up, k, col);
    CountUpdate(r, r', order[0], n);
  }

  lemma ScannedInLargerTree(m: Matrix, n: nat, c: seq<int>, order: seq<int>, more: seq<int>, head: nat)
    requires n > 0 && |c| == n && head <= |order| && ScannedUpTo(m, n, c, order, head)
    ensures ScannedUpTo(m, n, c, order + more, head)
  {}

  ghost predicate Stuck(m: Matrix, n: nat)
    requires n > 0
  {
    exists rs :: HallViolator(m, n, rs)
  }

  lemma {:induction false} SearchOn(m: Matrix, n: nat, r: seq<int>, c: seq<int>, parent: seq<int>,
                                    order: seq<int>, up: seq<int>, head: nat) returns (r': seq<int>, c': seq<int>)
    requires Matching(m, n, r, c) && SearchTree(m, n, r, parent, order, up)
    requires head <= |order| && ScannedUpTo(m, n, c, order, head)
    ensures Stuck(m, n) || (Matching(m, n, r', c') && Count(r', n) == Count(r, n) + 1)
    decreases n - head, n - |order|
  {
    r', c' := r, c;
    TreeFits(m, n, r, parent, order, up);
    if head == |order| {
      ExhaustedSearchIsViolator(m, n, r, c, parent, order, up);
    } else if col :| 0 <= col < n && Reduced(m, n, order[head], col) == 0.0 && c[col] == -1 {
      r', c' := Augment(m, n, r, c, parent, order, up, head, col);
    } else if col :| 0 <= col < n && Reduced(m, n, order[head], col) == 0.0 && c[col] !in order {
      GrowTree(m, n, r, c, parent, order, up, head, col);
      ScannedInLargerTree(m, n, c, order, [c[col]], head);
      TreeFits(m, n, r, parent[c[col] := order[head]], order + [c[col]], up + [head]);
      r', c' := SearchOn(m, n, r, c, parent[c[col] := order[head]], order + [c[col]], up + [head], head);
    } else {
      assert Scanned(m, n, c, order, order[head], n);
      r', c' := SearchOn(m, n, r, c, parent, order, up, head + 1);
    }
  }

  lemma {:induction false} MatchAll(m: Matrix, n: nat, r: seq<int>, c: seq<int>)
    requires Matching(m, n, r, c)
    ensures Stuck(m, n) || HasZeroMatching(m, n)
    decreases n - Count(r, n)
  {
    CountFull(r, n);
    if Count(r, n) == n {
      MatchingIsAssignment(m, n, r, c);
    } else {
      var start :| 0 <= start < n && r[start] == -1;
      var r', c' := SearchOn(m, n, r, c, seq(n, _ => -1), [start], [-1], 0);
      if !Stuck(m, n) {
        CountFull(r', n);
        MatchAll(m, n, r', c');
      }
    }
  }

  // Hall's theorem for the zeros the two reductions leave.
  lemma HaltsIffNoViolator(m: Matrix, n: nat)
    requires n > 0
    ensures HasZeroMatching(m, n) <==> !exists rs :: HallViolator(m, n, rs)
  {
    MatchAll(m, n, seq(n, _ => -1), seq(n, _ => -1));
    if rs :| HallViolator(m, n, rs) { ViolatorExcludesMatching(m, n, rs); }
  }
}
