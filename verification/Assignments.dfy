// Mathematics of the assignment problem, independent of any algorithm: costs,
// permutations, the dual bound given by row and column minima, zero patterns
// and Hall violators.  The solver in Hungarian.dfy is proved against this file.
module Assignments {

  type Matrix = seq<seq<real>>

  // The solver pads its input with dummy rows and columns of cost 0, so an
  // entry outside the given rows and columns reads as 0.
  function Entry(m: Matrix, i: int, j: int): real {
    if 0 <= i < |m| && 0 <= j < |m[0]| && j < |m[i]| then m[i][j] else 0.0
  }

  // s[i] is the column given to row i, or -1.
  predicate PartialAssignment(s: seq<int>, rows: nat, cols: nat) {
    && |s| == rows
    && (forall i :: 0 <= i < rows ==> -1 <= s[i] < cols)
    && (forall i, j :: 0 <= i < j < rows && s[i] != -1 ==> s[i] != s[j])
  }

  predicate Permutation(s: seq<int>, n: nat) {
    PartialAssignment(s, n, n) && forall i :: 0 <= i < n ==> s[i] != -1
  }

  ghost predicate Inverse(r: seq<int>, c: seq<int>, n: nat) {
    && Permutation(r, n) && Permutation(c, n)
    && (forall i :: 0 <= i < n ==> c[r[i]] == i)
    && (forall j :: 0 <= j < n ==> r[c[j]] == j)
  }

  function Term(m: Matrix, s: seq<int>, i: nat): real
    requires i < |s|
  {
    if s[i] == -1 then 0.0 else Entry(m, i, s[i])
  }

  // Total cost of the first k rows.
  function Cost(m: Matrix, s: seq<int>, k: nat): real
    requires k <= |s|
  {
    if k == 0 then 0.0 else Cost(m, s, k - 1) + Term(m, s, k - 1)
  }

  // Number of assigned rows among the first k.
  function Count(s: seq<int>, k: nat): nat
    requires k <= |s|
  {
    if k == 0 then 0 else Count(s, k - 1) + if s[k - 1] == -1 then 0 else 1
  }

  function SumTo(v: seq<real>, k: nat): real
    requires k <= |v|
  {
    if k == 0 then 0.0 else SumTo(v, k - 1) + v[k - 1]
  }

  // ---------------------------------------------------------------- reduction

  // Minimum of row i over the first k columns.
  function RowMin(m: Matrix, i: int, k: nat): real
    requires k > 0
  {
    if k == 1 then Entry(m, i, 0)
    else if Entry(m, i, k - 1) < RowMin(m, i, k - 1) then Entry(m, i, k - 1)
    else RowMin(m, i, k - 1)
  }

  function RowReduced(m: Matrix, n: nat, i: int, j: int): real
    requires n > 0
  {
    Entry(m, i, j) - RowMin(m, i, n)
  }

  // Minimum of column j of the row-reduced matrix over the first k rows.
  function ColMin(m: Matrix, n: nat, j: int, k: nat): real
    requires n > 0 && k > 0
  {
    if k == 1 then RowReduced(m, n, 0, j)
    else if RowReduced(m, n, k - 1, j) < ColMin(m, n, j, k - 1) then RowReduced(m, n, k - 1, j)
    else ColMin(m, n, j, k - 1)
  }

  lemma {:induction false} RowMinIsLeast(m: Matrix, i: int, k: nat)
    requires k > 0
    ensures forall j :: 0 <= j < k ==> RowMin(m, i, k) <= Entry(m, i, j)
    ensures exists j :: 0 <= j < k && RowMin(m, i, k) == Entry(m, i, j)
  {
    if k == 1 {
      assert RowMin(m, i, k) == Entry(m, i, 0);
    } else {
      RowMinIsLeast(m, i, k - 1);
      assert Entry(m, i, k - 1) == Entry(m, i, k - 1);
    }
  }

  lemma {:induction false} ColMinIsLeast(m: Matrix, n: nat, j: int, k: nat)
    requires n > 0 && k > 0
    ensures forall i :: 0 <= i < k ==> ColMin(m, n, j, k) <= RowReduced(m, n, i, j)
    ensures exists i :: 0 <= i < k && ColMin(m, n, j, k) == RowReduced(m, n, i, j)
  {
    if k == 1 {
      assert ColMin(m, n, j, k) == RowReduced(m, n, 0, j);
    } else {
      ColMinIsLeast(m, n, j, k - 1);
      assert RowReduced(m, n, k - 1, j) == RowReduced(m, n, k - 1, j);
    }
  }

  // The matrix the solver works on after both reductions.
  function Reduced(m: Matrix, n: nat, i: int, j: int): real
    requires n > 0
  {
    RowReduced(m, n, i, j) - ColMin(m, n, j, n)
  }

  function RowMins(m: Matrix, n: nat): seq<real>
    requires n > 0
  {
    seq(n, i => RowMin(m, i, n))
  }

  function ColMins(m: Matrix, n: nat): seq<real>
    requires n > 0
  {
    seq(n, j => ColMin(m, n, j, n))
  }

  // The value of the dual solution made of the row and the column minima.
  function DualBound(m: Matrix, n: nat): real
    requires n > 0
  {
    SumTo(RowMins(m, n), n) + SumTo(ColMins(m, n), n)
  }

  // Every reduced entry is non-negative and every column keeps a zero: this is
  // what makes the solver's later adjustment subtract nothing.
  lemma ReducedHasZeroInEveryColumn(m: Matrix, n: nat, j: int)
    requires 0 <= j < n
    ensures forall i :: 0 <= i < n ==> Reduced(m, n, i, j) >= 0.0
    ensures exists i :: 0 <= i < n && Reduced(m, n, i, j) == 0.0
  {
    ColMinIsLeast(m, n, j, n);
    var i :| 0 <= i < n && ColMin(m, n, j, n) == RowReduced(m, n, i, j);
    assert Reduced(m, n, i, j) == 0.0;
  }

  // ------------------------------------------------------------- permutations

  function Indices(n: nat): (r: set<int>)
    ensures |r| == n
    ensures forall i :: i in r <==> 0 <= i < n
  {
    if n == 0 then {} else Indices(n - 1) + {n - 1}
  }

  function Elements(s: seq<int>): set<int> {
    set x | x in s
  }

  lemma {:induction false} ElementsSize(s: seq<int>)
    ensures |Elements(s)| <= |s|
    ensures (forall k, l :: 0 <= k < l < |s| ==> s[k] != s[l]) ==> |Elements(s)| == |s|
  {
    if s == [] {
    } else {
      var p := s[..|s| - 1];
      ElementsSize(p);
      assert Elements(s) == Elements(p) + {s[|s| - 1]};
    }
  }

  // The columns used by the first k rows.
  function Cols(s: seq<int>, k: nat): set<int>
    requires k <= |s|
  {
    if k == 0 then {} else if s[k - 1] == -1 then Cols(s, k - 1) else Cols(s, k - 1) + {s[k - 1]}
  }

  ghost predicate Uses(s: seq<int>, k: nat, j: int)
    requires k <= |s|
  {
    exists i :: 0 <= i < k && s[i] == j
  }

  lemma {:induction false} ColsMember(s: seq<int>, k: nat, j: int)
    requires k <= |s|
    ensures j in Cols(s, k) <==> j != -1 && Uses(s, k, j)
  {
    if k == 0 {
    } else {
      ColsMember(s, k - 1, j);
      if Uses(s, k, j) && s[k - 1] != j { assert Uses(s, k - 1, j); }
      if Uses(s, k - 1, j) { assert Uses(s, k, j); }
      if s[k - 1] == j { assert Uses(s, k, j); }
    }
  }

  lemma ColsFresh(s: seq<int>, rows: nat, cols: nat, k: nat)
    requires PartialAssignment(s, rows, cols) && 0 < k <= rows && s[k - 1] != -1
    ensures s[k - 1] !in Cols(s, k - 1) && s[k - 1] in Indices(cols)
  {
    ColsMember(s, k - 1, s[k - 1]);
  }

  lemma {:induction false} ColsSize(s: seq<int>, rows: nat, cols: nat, k: nat)
    requires PartialAssignment(s, rows, cols) && k <= rows
    ensures |Cols(s, k)| == Count(s, k)
    ensures Cols(s, k) <= Indices(cols)
  {
    if k == 0 {
    } else {
      ColsSize(s, rows, cols, k - 1);
      if s[k - 1] != -1 { ColsFresh(s, rows, cols, k); }
    }
  }

  lemma {:induction false} CountPrefix(s: seq<int>, t: seq<int>, k: nat)
    requires k <= |s| && k <= |t| && forall i :: 0 <= i < k ==> (s[i] == -1 <==> t[i] == -1)
    ensures Count(s, k) == Count(t, k)
  {
    if k == 0 {
    } else {
      CountPrefix(s, t, k - 1);
    }
  }

  lemma {:induction false} CountFull(s: seq<int>, k: nat)
    requires k <= |s|
    ensures Count(s, k) <= k
    ensures Count(s, k) == k <==> forall i :: 0 <= i < k ==> s[i] != -1
  {
    if k == 0 {
    } else {
      CountFull(s, k - 1);
    }
  }

  // Assigning one unassigned row raises the count by one.
  lemma {:induction false} CountUpdate(s: seq<int>, t: seq<int>, p: nat, k: nat)
    requires |s| == |t| && p < k <= |s| && s[p] == -1 && t[p] != -1
    requires forall i :: 0 <= i < |s| && i != p ==> (s[i] == -1 <==> t[i] == -1)
    ensures Count(t, k) == Count(s, k) + 1
  {
    if p == k - 1 {
      CountPrefix(s, t, k - 1);
    } else {
      CountUpdate(s, t, p, k - 1);
    }
  }

  lemma {:induction false} SubsetSize<T>(a: set<T>, b: set<T>)
    requires a <= b
    ensures |a| <= |b|
  {
    if a == {} {
    } else {
      var x :| x in a;
      SubsetSize(a - {x}, b - {x});
    }
  }

  lemma {:induction false} SameSizeSubset<T>(a: set<T>, b: set<T>)
    requires a <= b && |a| == |b|
    ensures a == b
  {
    if x :| x in b && x !in a {
      SubsetSize(a, b - {x});
    }
  }

  lemma PermutationOnto(s: seq<int>, n: nat, j: int)
    requires Permutation(s, n) && 0 <= j < n
    ensures Uses(s, n, j)
  {
    ColsSize(s, n, n, n);
    CountFull(s, n);
    SameSizeSubset(Cols(s, n), Indices(n));
    ColsMember(s, n, j);
  }

  // Sum of the values of the columns picked by the first k rows.
  function Picked(v: seq<real>, s: seq<int>, k: nat): real
    requires k <= |s| && forall i :: 0 <= i < k ==> 0 <= s[i] < |v|
  {
    if k == 0 then 0.0 else Picked(v, s, k - 1) + v[s[k - 1]]
  }

  lemma {:induction false} PickedUpdate(v: seq<real>, s: seq<int>, p: nat, c: int, k: nat)
    requires p < |s| && k <= |s| && 0 <= c < |v|
    requires forall i :: 0 <= i < |s| ==> 0 <= s[i] < |v|
    ensures Picked(v, s[p := c], k) == Picked(v, s, k) + if p < k then v[c] - v[s[p]] else 0.0
  {
    if k == 0 {
    } else {
      PickedUpdate(v, s, p, c, k - 1);
    }
  }

  lemma {:induction false} PickedPrefix(v: seq<real>, w: seq<real>, s: seq<int>, t: seq<int>, k: nat)
    requires k <= |s| && k <= |t|
    requires forall i :: 0 <= i < k ==> s[i] == t[i] && 0 <= s[i] < |w|
    requires |w| <= |v| && forall j :: 0 <= j < |w| ==> v[j] == w[j]
    ensures Picked(v, s, k) == Picked(w, t, k)
  {
    if k == 0 {
    } else {
      PickedPrefix(v, w, s, t, k - 1);
    }
  }

  lemma {:induction false} SumPrefix(v: seq<real>, w: seq<real>, k: nat)
    requires k <= |v| && k <= |w| && forall i :: 0 <= i < k ==> v[i] == w[i]
    ensures SumTo(v, k) == SumTo(w, k)
  {
    if k == 0 {
    } else {
      SumPrefix(v, w, k - 1);
    }
  }

  // Give row p, which has the last column, the column of the last row instead, and
  // drop the last row.
  function SwapOut(s: seq<int>, n: nat, p: nat): (t: seq<int>)
    requires Permutation(s, n) && p < n && s[p] == n - 1
    ensures Permutation(t, n - 1) && t == s[p := s[n - 1]][..n - 1]
  {
    s[p := s[n - 1]][..n - 1]
  }

  lemma SwapOutPicked(v: seq<real>, s: seq<int>, n: nat, p: nat)
    requires Permutation(s, n) && p < n && s[p] == n - 1 && |v| == n
    ensures Picked(v, s, n) == Picked(v[..n - 1], SwapOut(s, n, p), n - 1) + v[n - 1]
  {
    var t := s[p := s[n - 1]];
    PickedUpdate(v, s, p, s[n - 1], n - 1);
    PickedPrefix(v, v[..n - 1], t, SwapOut(s, n, p), n - 1);
  }

  // A permutation picks every column value exactly once.
  lemma {:induction false} PickedPermutation(v: seq<real>, s: seq<int>, n: nat)
    requires Permutation(s, n) && |v| == n
    ensures Picked(v, s, n) == SumTo(v, n)
  {
    if n == 0 {
    } else {
      PermutationOnto(s, n, n - 1);
      var p :| 0 <= p < n && s[p] == n - 1;
      SwapOutPicked(v, s, n, p);
      PickedPermutation(v[..n - 1], SwapOut(s, n, p), n - 1);
      SumPrefix(v, v[..n - 1], n - 1);
    }
  }

  // ------------------------------------------------------------ duality

  function ReducedCost(m: Matrix, n: nat, s: seq<int>, k: nat): real
    requires n > 0 && k <= |s|
  {
    if k == 0 then 0.0 else ReducedCost(m, n, s, k - 1) + Reduced(m, n, k - 1, s[k - 1])
  }

  lemma {:induction false} CostSplit(m: Matrix, n: nat, s: seq<int>, k: nat)
    requires n > 0 && Permutation(s, n) && k <= n
    ensures Cost(m, s, k)
         == SumTo(RowMins(m, n), k) + Picked(ColMins(m, n), s, k) + ReducedCost(m, n, s, k)
  {
    if k == 0 {
    } else {
      CostSplit(m, n, s, k - 1);
    }
  }

  lemma {:induction false} ReducedCostSign(m: Matrix, n: nat, s: seq<int>, k: nat)
    requires n > 0 && Permutation(s, n) && k <= n
    ensures ReducedCost(m, n, s, k) >= 0.0
    ensures ReducedCost(m, n, s, k) == 0.0 <==> forall i :: 0 <= i < k ==> Reduced(m, n, i, s[i]) == 0.0
  {
    if k == 0 {
    } else {
      ReducedCostSign(m, n, s, k - 1);
      ReducedHasZeroInEveryColumn(m, n, s[k - 1]);
    }
  }

  // A perfect matching of the zero pattern left by the two reductions.
  ghost predicate ZeroMatching(m: Matrix, n: nat, s: seq<int>)
    requires n > 0
  {
    Permutation(s, n) && forall i :: 0 <= i < n ==> Reduced(m, n, i, s[i]) == 0.0
  }

  // Weak duality, with the exact condition for equality: a permutation costs at
  // least the dual bound, and exactly that when it uses reduced zeros only.
  lemma WeakDuality(m: Matrix, n: nat, s: seq<int>)
    requires n > 0 && Permutation(s, n)
    ensures Cost(m, s, n) >= DualBound(m, n)
    ensures Cost(m, s, n) == DualBound(m, n) <==> ZeroMatching(m, n, s)
  {
    CostSplit(m, n, s, n);
    PickedPermutation(ColMins(m, n), s, n);
    ReducedCostSign(m, n, s, n);
  }

  ghost predicate HasZeroMatching(m: Matrix, n: nat)
    requires n > 0
  {
    exists s :: ZeroMatching(m, n, s)
  }

  // Columns in which some row of rs has a reduced zero.
  function ZeroCols(m: Matrix, n: nat, rs: set<int>): set<int>
    requires n > 0
  {
    set i, j | i in rs && 0 <= j < n && Reduced(m, n, i, j) == 0.0 :: j
  }

  // A set of rows whose zeros lie in fewer columns than it has rows.
  ghost predicate HallViolator(m: Matrix, n: nat, rs: set<int>)
    requires n > 0
  {
    && (forall i :: i in rs ==> 0 <= i < n)
    && |ZeroCols(m, n, rs)| < |rs|
  }

  lemma PickElement<T>(a: set<T>) returns (x: T)
    requires a != {}
    ensures x in a
  {
    x :| x in a;
  }

  // The columns the rows of rs have.
  function Image(s: seq<int>, rs: set<int>): set<int>
    requires forall i :: i in rs ==> 0 <= i < |s|
  {
    set i | i in rs :: s[i]
  }

  lemma ImageStep(s: seq<int>, n: nat, rs: set<int>, x: int)
    requires Permutation(s, n) && x in rs && forall i :: i in rs ==> 0 <= i < n
    ensures Image(s, rs) == Image(s, rs - {x}) + {s[x]} && s[x] !in Image(s, rs - {x})
  {}

  lemma {:induction false} ImageSize(s: seq<int>, n: nat, rs: set<int>)
    requires Permutation(s, n) && forall i :: i in rs ==> 0 <= i < n
    ensures |Image(s, rs)| == |rs|
    decreases rs
  {
    if rs == {} {
      assert Image(s, rs) == {};
    } else {
      var x := PickElement(rs);
      ImageSize(s, n, rs - {x});
      ImageStep(s, n, rs, x);
    }
  }

  // The easy half of Hall's theorem; the solver finds the violator.
  lemma ViolatorExcludesMatching(m: Matrix, n: nat, rs: set<int>)
    requires n > 0 && HallViolator(m, n, rs)
    ensures !HasZeroMatching(m, n)
  {
    if HasZeroMatching(m, n) {
      var s :| ZeroMatching(m, n, s);
      ImageSize(s, n, rs);
      assert Image(s, rs) <= ZeroCols(m, n, rs);
      SubsetSize(Image(s, rs), ZeroCols(m, n, rs));
      assert false;
    }
  }

  // A caller can decide solvability by arithmetic: a zero matching exists
  // exactly when some permutation costs no more than the row and column minima
  // together.
  lemma ZeroMatchingIffBoundTight(m: Matrix, n: nat)
    requires n > 0
    ensures HasZeroMatching(m, n) <==> exists s :: Permutation(s, n) && Cost(m, s, n) <= DualBound(m, n)
  {
    if HasZeroMatching(m, n) {
      var s :| ZeroMatching(m, n, s);
      WeakDuality(m, n, s);
      assert Permutation(s, n) && Cost(m, s, n) <= DualBound(m, n);
    }
    if s :| Permutation(s, n) && Cost(m, s, n) <= DualBound(m, n) {
      WeakDuality(m, n, s);
      assert ZeroMatching(m, n, s);
    }
  }

  // ---------------------------------------------- from padded to rectangular

  // What the solver returns for a permutation of the padded matrix.
  function Restrict(s: seq<int>, rows: nat, cols: nat): seq<int>
    requires rows <= |s|
  {
    seq(rows, i requires 0 <= i < rows => if s[i] < cols then s[i] else -1)
  }

  function Min(a: nat, b: nat): nat { if a < b then a else b }

  function Max(a: nat, b: nat): nat { if a < b then b else a }

  // A rectangular cost matrix: the source reads |m[0]| entries of every row.
  predicate Rectangular(m: Matrix, rows: nat, cols: nat) {
    rows > 0 && cols > 0 && |m| == rows && |m[0]| == cols && forall i :: 0 <= i < rows ==> cols <= |m[i]|
  }

  lemma RestrictIsFullAssignment(s: seq<int>, rows: nat, cols: nat)
    requires rows > 0 && cols > 0 && Permutation(s, Max(rows, cols))
    ensures PartialAssignment(Restrict(s, rows, cols), rows, cols)
    ensures Count(Restrict(s, rows, cols), rows) == Min(rows, cols)
  {
    var t := Restrict(s, rows, cols);
    ColsSize(t, rows, cols, rows);
    if rows <= cols {
      CountFull(t, rows);
    } else {
      forall j | j in Indices(cols) ensures j in Cols(t, rows) {
        PermutationOnto(s, rows, j);
        var i :| 0 <= i < rows && s[i] == j;
        assert t[i] == j;
        ColsMember(t, rows, j);
      }
      assert Cols(t, rows) == Indices(cols);
    }
  }

  lemma {:induction false} RestrictCost(m: Matrix, s: seq<int>, rows: nat, cols: nat, k: nat)
    requires Rectangular(m, rows, cols) && Permutation(s, Max(rows, cols)) && k <= |s|
    ensures Cost(m, s, k) == Cost(m, Restrict(s, rows, cols), Min(k, rows))
  {
    if k == 0 {
    } else {
      RestrictCost(m, s, rows, cols, k - 1);
    }
  }

  function Pad(s: seq<int>, n: nat): seq<int> {
    seq(n, i requires 0 <= i => if i < |s| then s[i] else -1)
  }

  lemma {:induction false} PadCount(s: seq<int>, n: nat, k: nat)
    requires |s| <= n && k <= n
    ensures Count(Pad(s, n), k) == Count(s, Min(k, |s|))
  {
    if k == 0 {
    } else {
      PadCount(s, n, k - 1);
    }
  }

  // Every partial assignment extends to a permutation.
  lemma {:induction false} Complete(s: seq<int>, n: nat) returns (t: seq<int>)
    requires PartialAssignment(s, n, n)
    ensures Permutation(t, n) && forall i :: 0 <= i < n && s[i] != -1 ==> t[i] == s[i]
    decreases n - Count(s, n)
  {
    CountFull(s, n);
    if Count(s, n) == n { return s; }
    var p :| 0 <= p < n && s[p] == -1;
    ColsSize(s, n, n, n);
    assert Cols(s, n) != Indices(n);
    var c :| c in Indices(n) && c !in Cols(s, n);
    ColsMember(s, n, c);
    CountUpdate(s, s[p := c], p, n);
    CountFull(s[p := c], n);
    t := Complete(s[p := c], n);
  }

  // An assignment that uses as many cells as the smaller side has exhausts the
  // rows or the columns, so completing it only adds dummy cells.
  lemma FullAssignmentExhausts(s: seq<int>, rows: nat, cols: nat)
    requires PartialAssignment(s, rows, cols) && Count(s, rows) == Min(rows, cols)
    ensures (forall i :: 0 <= i < rows ==> s[i] != -1) || (forall j :: 0 <= j < cols ==> Uses(s, rows, j))
  {
    ColsSize(s, rows, cols, rows);
    if rows <= cols {
      CountFull(s, rows);
    } else {
      SameSizeSubset(Cols(s, rows), Indices(cols));
      forall j | 0 <= j < cols ensures Uses(s, rows, j) { ColsMember(s, rows, j); }
    }
  }

  lemma {:induction false} CompletionCost(m: Matrix, s: seq<int>, t: seq<int>, rows: nat, cols: nat, k: nat)
    requires Rectangular(m, rows, cols) && PartialAssignment(s, rows, cols)
    requires (forall i :: 0 <= i < rows ==> s[i] != -1) || (forall j :: 0 <= j < cols ==> Uses(s, rows, j))
    requires Permutation(t, Max(rows, cols)) && k <= |t|
    requires forall i :: 0 <= i < rows && s[i] != -1 ==> t[i] == s[i]
    ensures Cost(m, t, k) == Cost(m, s, Min(k, rows))
  {
    if k == 0 {
    } else {
      CompletionCost(m, s, t, rows, cols, k - 1);
      var i := k - 1;
      if i < rows && s[i] == -1 { assert !Uses(s, rows, t[i]); }
    }
  }

  // Least total cost over all assignments of min(rows, cols) cells.
  ghost predicate Optimal(m: Matrix, s: seq<int>, rows: nat, cols: nat) {
    && PartialAssignment(s, rows, cols)
    && Count(s, rows) == Min(rows, cols)
    && forall t :: PartialAssignment(t, rows, cols) && Count(t, rows) == Min(rows, cols)
                   ==> Cost(m, s, rows) <= Cost(m, t, rows)
  }

  // A zero matching of the padded matrix restricts to an optimal assignment.
  lemma ZeroMatchingIsOptimal(m: Matrix, s: seq<int>, rows: nat, cols: nat)
    requires Rectangular(m, rows, cols) && ZeroMatching(m, Max(rows, cols), s)
    ensures Optimal(m, Restrict(s, rows, cols), rows, cols)
  {
    var n := Max(rows, cols);
    var r := Restrict(s, rows, cols);
    RestrictIsFullAssignment(s, rows, cols);
    RestrictCost(m, s, rows, cols, n);
    WeakDuality(m, n, s);
    forall t | PartialAssignment(t, rows, cols) && Count(t, rows) == Min(rows, cols)
      ensures Cost(m, r, rows) <= Cost(m, t, rows)
    {
      FullAssignmentExhausts(t, rows, cols);
      assert PartialAssignment(Pad(t, n), n, n);
      var u := Complete(Pad(t, n), n);
      forall i | 0 <= i < rows && t[i] != -1 ensures u[i] == t[i] { assert Pad(t, n)[i] == t[i]; }
      CompletionCost(m, t, u, rows, cols, n);
      WeakDuality(m, n, u);
    }
  }
}
