// The in-place assignment solver.  One method per labelled step of the source
// function; the specification functions they are tied to are in Assignments.dfy.
//
// The source's inner loop repeats a pass (adjust the matrix, then search for an
// augmenting path) until a pass succeeds, and for some inputs no pass ever
// does.  Solve therefore takes the number of passes it may make: None means
// that this many passes did not suffice.
module Hungarian {
  import opened Assignments
  import opened Wrappers

  const TWO_97: real := 158456325028528675187087900672.0

  // (2^53 - 1) * 2^971
  const MAX_FLOAT64: real :=
    9007199254740991.0 * 2.0 * TWO_97 * TWO_97 * TWO_97 * TWO_97 * TWO_97 * TWO_97 * TWO_97 * TWO_97 * TWO_97 * TWO_97

  ghost predicate IsSquare(a: array2<real>, n: nat) {
    a.Length0 == n && a.Length1 == n
  }

  // The matrix holds the reduced costs.
  ghost predicate HoldsReduced(a: array2<real>, m: Matrix, n: nat)
    reads a
  {
    n > 0 && IsSquare(a, n) && forall i, j :: 0 <= i < n && 0 <= j < n ==> a[i, j] == Reduced(m, n, i, j)
  }

  method BuildPadded(cost: Matrix, n: nat) returns (matrix: array2<real>)
    requires cost != [] && n == Max(|cost|, |cost[0]|) && forall i :: 0 <= i < |cost| ==> |cost[0]| <= |cost[i]|
    ensures fresh(matrix) && IsSquare(matrix, n)
    ensures forall i, j :: 0 <= i < n && 0 <= j < n ==> matrix[i, j] == Entry(cost, i, j)
  {
    matrix := new real[n, n];
    for i := 0 to n
      invariant forall p, q :: 0 <= p < i && 0 <= q < n ==> matrix[p, q] == Entry(cost, p, q)
    {
      for j := 0 to n
        invariant forall p, q :: 0 <= p < i && 0 <= q < n ==> matrix[p, q] == Entry(cost, p, q)
        invariant forall q :: 0 <= q < j ==> matrix[i, q] == Entry(cost, i, q)
      {
        if i < |cost| && j < |cost[0]| {
          matrix[i, j] := cost[i][j];
        } else {
          matrix[i, j] := 0.0;
        }
      }
    }
  }

  // Step 1.
  method SubtractRowMinimums(matrix: array2<real>, ghost m: Matrix, n: nat)
    requires n > 0 && IsSquare(matrix, n)
    requires forall i, j :: 0 <= i < n && 0 <= j < n ==> matrix[i, j] == Entry(m, i, j)
    modifies matrix
    ensures forall i, j :: 0 <= i < n && 0 <= j < n ==> matrix[i, j] == RowReduced(m, n, i, j)
  {
    for i := 0 to n
      invariant forall p, q :: 0 <= p < i && 0 <= q < n ==> matrix[p, q] == RowReduced(m, n, p, q)
      invariant forall p, q :: i <= p < n && 0 <= q < n ==> matrix[p, q] == Entry(m, p, q)
    {
      var minVal := matrix[i, 0];
      for j := 1 to n
        invariant minVal == RowMin(m, i, j)
      {
        if matrix[i, j] < minVal {
          minVal := matrix[i, j];
        }
      }
      for j := 0 to n
        invariant forall p, q :: 0 <= p < i && 0 <= q < n ==> matrix[p, q] == RowReduced(m, n, p, q)
        invariant forall p, q :: i < p < n && 0 <= q < n ==> matrix[p, q] == Entry(m, p, q)
        invariant forall q :: 0 <= q < j ==> matrix[i, q] == RowReduced(m, n, i, q)
        invariant forall q :: j <= q < n ==> matrix[i, q] == Entry(m, i, q)
      {
        matrix[i, j] := matrix[i, j] - minVal;
      }
    }
  }

  // Step 2.
  method SubtractColumnMinimums(matrix: array2<real>, ghost m: Matrix, n: nat)
    requires n > 0 && IsSquare(matrix, n)
    requires forall i, j :: 0 <= i < n && 0 <= j < n ==> matrix[i, j] == RowReduced(m, n, i, j)
    modifies matrix
    ensures HoldsReduced(matrix, m, n)
  {
    for j := 0 to n
      invariant forall p, q :: 0 <= p < n && 0 <= q < j ==> matrix[p, q] == Reduced(m, n, p, q)
      invariant forall p, q :: 0 <= p < n && j <= q < n ==> matrix[p, q] == RowReduced(m, n, p, q)
    {
      var minVal := matrix[0, j];
      for i := 1 to n
        invariant minVal == ColMin(m, n, j, i)
      {
        if matrix[i, j] < minVal {
          minVal := matrix[i, j];
        }
      }
      for i := 0 to n
        invariant forall p, q :: 0 <= p < n && 0 <= q < j ==> matrix[p, q] == Reduced(m, n, p, q)
        invariant forall p, q :: 0 <= p < n && j < q < n ==> matrix[p, q] == RowReduced(m, n, p, q)
        invariant forall p :: 0 <= p < i ==> matrix[p, j] == Reduced(m, n, p, j)
        invariant forall p :: i <= p < n ==> matrix[p, j] == RowReduced(m, n, p, j)
      {
        matrix[i, j] := matrix[i, j] - minVal;
      }
    }
  }

  // ------------------------------------------------------------- matchings

  ghost predicate InRange(r: seq<int>, n: nat) {
    |r| == n && forall i :: 0 <= i < n ==> -1 <= r[i] < n
  }

  // Row and column assignments agree, and every assigned cell is a reduced zero.
  ghost predicate Matching(m: Matrix, n: nat, r: seq<int>, c: seq<int>) {
    && n > 0 && InRange(r, n) && InRange(c, n)
    && (forall i :: 0 <= i < n && r[i] != -1 ==> c[r[i]] == i && Reduced(m, n, i, r[i]) == 0.0)
    && (forall j :: 0 <= j < n && c[j] != -1 ==> r[c[j]] == j)
  }

  lemma MatchingIsAssignment(m: Matrix, n: nat, r: seq<int>, c: seq<int>)
    requires Matching(m, n, r, c)
    ensures PartialAssignment(r, n, n) && PartialAssignment(c, n, n)
    ensures Count(r, n) == n ==> Inverse(r, c, n) && ZeroMatching(m, n, r)
  {
    assert PartialAssignment(r, n, n);
    assert PartialAssignment(c, n, n);
    CountFull(r, n);
    if Count(r, n) == n {
      forall j | 0 <= j < n ensures c[j] != -1 {
        PermutationOnto(r, n, j);
        var i :| 0 <= i < n && r[i] == j;
      }
    }
  }

  lemma AddFreeZero(m: Matrix, n: nat, r: seq<int>, c: seq<int>, i: nat, j: nat)
    requires Matching(m, n, r, c) && i < n && j < n
    requires r[i] == -1 && c[j] == -1 && Reduced(m, n, i, j) == 0.0
    ensures Matching(m, n, r[i := j], c[j := i])
  {}

  // No zero joins an unassigned row to an unassigned column.
  ghost predicate Saturated(m: Matrix, n: nat, r: seq<int>, c: seq<int>, i: nat, k: nat)
    requires n > 0 && i < |r| && k <= |c|
  {
    r[i] == -1 ==> forall j :: 0 <= j < k && Reduced(m, n, i, j) == 0.0 ==> c[j] != -1
  }

  // Give row i the first free column in which it has a zero.
  method AssignRow(matrix: array2<real>, rowAssignment: array<int>, colAssignment: array<int>, i: nat,
                   ghost m: Matrix, n: nat)
    requires HoldsReduced(matrix, m, n) && i < n
    requires rowAssignment.Length == n && colAssignment.Length == n && rowAssignment != colAssignment
    requires Matching(m, n, rowAssignment[..], colAssignment[..])
    modifies rowAssignment, colAssignment
    ensures Matching(m, n, rowAssignment[..], colAssignment[..])
    ensures Saturated(m, n, rowAssignment[..], colAssignment[..], i, n)
    ensures old(rowAssignment[i]) == -1 && rowAssignment[i] != -1 ==>
              Saturated(m, n, old(rowAssignment[..]), old(colAssignment[..]), i, rowAssignment[i])
    ensures forall p :: 0 <= p < n && p != i ==> rowAssignment[p] == old(rowAssignment[p])
    ensures forall q :: 0 <= q < n && old(colAssignment[q]) != -1 ==> colAssignment[q] == old(colAssignment[q])
  {
    for j := 0 to n
      invariant Matching(m, n, rowAssignment[..], colAssignment[..])
      invariant Saturated(m, n, rowAssignment[..], colAssignment[..], i, j)
      invariant rowAssignment[i] == old(rowAssignment[i]) ==> colAssignment[..] == old(colAssignment[..])
      invariant old(rowAssignment[i]) == -1 && rowAssignment[i] != -1 ==>
                  Saturated(m, n, old(rowAssignment[..]), old(colAssignment[..]), i, rowAssignment[i])
      invariant forall p :: 0 <= p < n && p != i ==> rowAssignment[p] == old(rowAssignment[p])
      invariant forall q :: 0 <= q < n && old(colAssignment[q]) != -1 ==> colAssignment[q] == old(colAssignment[q])
    {
      if matrix[i, j] == 0.0 && rowAssignment[i] == -1 && colAssignment[j] == -1 {
        AddFreeZero(m, n, rowAssignment[..], colAssignment[..], i, j);
        rowAssignment[i] := j;
        colAssignment[j] := i;
      }
    }
  }

  method InitialAssignment(matrix: array2<real>, ghost m: Matrix, n: nat)
    returns (rowAssignment: array<int>, colAssignment: array<int>)
    requires HoldsReduced(matrix, m, n)
    ensures fresh(rowAssignment) && fresh(colAssignment) && rowAssignment != colAssignment
    ensures rowAssignment.Length == n && colAssignment.Length == n
    ensures Matching(m, n, rowAssignment[..], colAssignment[..])
    ensures forall i :: 0 <= i < n ==> Saturated(m, n, rowAssignment[..], colAssignment[..], i, n)
  {
    rowAssignment := new int[n](_ => -1);
    colAssignment := new int[n](_ => -1);
    for i := 0 to n
      invariant Matching(m, n, rowAssignment[..], colAssignment[..])
      invariant forall p :: 0 <= p < i ==> Saturated(m, n, rowAssignment[..], colAssignment[..], p, n)
    {
      ghost var r, c := rowAssignment[..], colAssignment[..];
      AssignRow(matrix, rowAssignment, colAssignment, i, m, n);
      forall p | 0 <= p < i ensures Saturated(m, n, rowAssignment[..], colAssignment[..], p, n) {
        assert Saturated(m, n, r, c, p, n);
      }
    }
  }

  method CountAssigned(rowAssignment: array<int>) returns (numAssigned: nat)
    ensures numAssigned == Count(rowAssignment[..], rowAssignment.Length)
  {
    numAssigned := 0;
    for i := 0 to rowAssignment.Length
      invariant numAssigned == Count(rowAssignment[..], i)
    {
      if rowAssignment[i] != -1 {
        numAssigned := numAssigned + 1;
      }
    }
  }

  method CoverAssignedColumns(rowAssignment: array<int>) returns (colCovered: array<bool>)
    requires InRange(rowAssignment[..], rowAssignment.Length)
    ensures fresh(colCovered) && colCovered.Length == rowAssignment.Length
    ensures forall j :: 0 <= j < colCovered.Length ==>
              (colCovered[j] <==> Uses(rowAssignment[..], colCovered.Length, j))
  {
    var n := rowAssignment.Length;
    colCovered := new bool[n](_ => false);
    for i := 0 to n
      invariant forall j :: 0 <= j < n ==> (colCovered[j] <==> Uses(rowAssignment[..], i, j))
    {
      assert forall j :: 0 <= j < n ==>
               (Uses(rowAssignment[..], i + 1, j) <==> Uses(rowAssignment[..], i, j) || rowAssignment[..][i] == j) by {
        assert Uses(rowAssignment[..], i + 1, rowAssignment[..][i]);
        forall j | 0 <= j < n && Uses(rowAssignment[..], i, j) ensures Uses(rowAssignment[..], i + 1, j) {
          var p :| 0 <= p < i && rowAssignment[..][p] == j;
        }
      }
      if rowAssignment[i] != -1 {
        colCovered[rowAssignment[i]] := true;
      }
    }
  }

  // Subtract the least uncovered entry from every uncovered cell and add it to
  // every doubly covered one.
  method Adjust(matrix: array2<real>, rowCovered: array<bool>, colCovered: array<bool>) returns (minVal: real)
    requires IsSquare(matrix, rowCovered.Length) && colCovered.Length == rowCovered.Length
    modifies matrix
    ensures minVal <= MAX_FLOAT64
    ensures forall i, j :: 0 <= i < matrix.Length0 && 0 <= j < matrix.Length1 && !rowCovered[i] && !colCovered[j]
                           ==> minVal <= old(matrix[i, j])
    ensures minVal == MAX_FLOAT64 || exists i, j :: 0 <= i < matrix.Length0 && 0 <= j < matrix.Length1
                                                    && !rowCovered[i] && !colCovered[j] && minVal == old(matrix[i, j])
    ensures forall i, j :: 0 <= i < matrix.Length0 && 0 <= j < matrix.Length1 ==>
              matrix[i, j] == old(matrix[i, j]) + (if !rowCovered[i] && !colCovered[j] then -minVal
                                                   else if rowCovered[i] && colCovered[j] then minVal else 0.0)
  {
    var n := rowCovered.Length;
    minVal := MAX_FLOAT64;
    for i := 0 to n
      invariant minVal <= MAX_FLOAT64
      invariant forall p, q :: 0 <= p < i && 0 <= q < n && !rowCovered[p] && !colCovered[q] ==> minVal <= matrix[p, q]
      invariant minVal == MAX_FLOAT64
             || exists p, q :: 0 <= p < n && 0 <= q < n && !rowCovered[p] && !colCovered[q] && minVal == matrix[p, q]
    {
      if rowCovered[i] { continue; }
      for j := 0 to n
        invariant minVal <= MAX_FLOAT64
        invariant forall p, q :: 0 <= p < i && 0 <= q < n && !rowCovered[p] && !colCovered[q] ==> minVal <= matrix[p, q]
        invariant forall q :: 0 <= q < j && !colCovered[q] ==> minVal <= matrix[i, q]
        invariant minVal == MAX_FLOAT64
               || exists p, q :: 0 <= p < n && 0 <= q < n && !rowCovered[p] && !colCovered[q] && minVal == matrix[p, q]
      {
        if colCovered[j] { continue; }
        if matrix[i, j] < minVal {
          minVal := matrix[i, j];
        }
      }
    }
    for i := 0 to n
      invariant forall p, q :: i <= p < n && 0 <= q < n ==> matrix[p, q] == old(matrix[p, q])
      invariant forall p, q :: 0 <= p < i && 0 <= q < n ==>
                  matrix[p, q] == old(matrix[p, q]) + (if !rowCovered[p] && !colCovered[q] then -minVal
                                                       else if rowCovered[p] && colCovered[q] then minVal else 0.0)
    {
      for j := 0 to n
        invariant forall p, q :: i < p < n && 0 <= q < n ==> matrix[p, q] == old(matrix[p, q])
        invariant forall q :: j <= q < n ==> matrix[i, q] == old(matrix[i, q])
        invariant forall p, q :: (0 <= p < i && 0 <= q < n) || (p == i && 0 <= q < j) ==>
                    matrix[p, q] == old(matrix[p, q]) + (if !rowCovered[p] && !colCovered[q] then -minVal
                                                         else if rowCovered[p] && colCovered[q] then minVal else 0.0)
      {
        if !rowCovered[i] && !colCovered[j] {
          matrix[i, j] := matrix[i, j] - minVal;
        } else if rowCovered[i] && colCovered[j] {
          matrix[i, j] := matrix[i, j] + minVal;
        }
      }
    }
  }

  // -------------------------------------------------------- augmenting paths

  // The rows a search has discovered, in order.  up[k] is the position of the
  // parent of order[k]; the root order[0] is unassigned, and the column of any
  // other row is a reduced zero of its parent.
  ghost predicate SearchTree(m: Matrix, n: nat, r: seq<int>, parent: seq<int>, order: seq<int>, up: seq<int>) {
    && n > 0 && |r| == n && |parent| == n && |up| == |order| > 0
    && (forall k :: 0 <= k < |order| ==> 0 <= order[k] < n)
    && (forall k, l :: 0 <= k < l < |order| ==> order[k] != order[l])
    && r[order[0]] == -1
    && (forall k {:trigger up[k]} :: 1 <= k < |order| ==>
          && r[order[k]] != -1
          && 0 <= up[k] < k
          && parent[order[k]] == order[up[k]]
          && Reduced(m, n, order[up[k]], r[order[k]]) == 0.0)
  }

  // While a path is being flipped: row order[at] is about to take column col, and
  // apart from column col, whose entry may be stale, rows and columns agree.  At
  // the end, at is -1.
  ghost predicate Flipping(m: Matrix, n: nat, r0: seq<int>, r: seq<int>, c: seq<int>,
                           order: seq<int>, at: int, col: int) {
    && n > 0 && InRange(r0, n) && InRange(r, n) && InRange(c, n) && order != [] && -1 <= at < |order|
    && (forall k :: 0 <= k < |order| ==> 0 <= order[k] < n)
    && (forall i :: 0 <= i < n && r[i] != -1 ==> c[r[i]] == i && Reduced(m, n, i, r[i]) == 0.0)
    && (forall j :: 0 <= j < n && c[j] != -1 && (at == -1 || j != col) ==> r[c[j]] == j)
    && (at != -1 ==> 0 <= col < n && Reduced(m, n, order[at], col) == 0.0 && forall i :: 0 <= i < n ==> r[i] != col)
    && (forall k :: 0 <= k <= at ==> r[order[k]] == r0[order[k]])
    && (forall i :: 0 <= i < n ==> (r[i] == -1 <==> r0[i] == -1 && (at != -1 || i != order[0])))
  }

  lemma FlipOne(m: Matrix, n: nat, r0: seq<int>, r: seq<int>, c: seq<int>, parent: seq<int>,
                order: seq<int>, up: seq<int>, at: nat, col: int)
    requires SearchTree(m, n, r0, parent, order, up) && Flipping(m, n, r0, r, c, order, at, col)
    ensures at == 0 <==> r[order[at]] == -1
    ensures at == 0 ==> Flipping(m, n, r0, r[order[at] := col], c[col := order[at]], order, -1, -1)
    ensures at > 0 ==> Flipping(m, n, r0, r[order[at] := col], c[col := order[at]], order, up[at], r[order[at]])
  {}

  // Flip the path that ends with the free column col of row order[k].
  method TraceBack(rowAssignment: array<int>, colAssignment: array<int>, parent: array<int>, row: int, col: int,
                   ghost m: Matrix, n: nat, ghost order: seq<int>, ghost up: seq<int>, ghost k: nat)
    requires rowAssignment.Length == n && colAssignment.Length == n && parent.Length == n
    requires rowAssignment != colAssignment && parent != rowAssignment && parent != colAssignment
    requires Matching(m, n, rowAssignment[..], colAssignment[..])
    requires SearchTree(m, n, rowAssignment[..], parent[..], order, up)
    requires k < |order| && order[k] == row
    requires 0 <= col < n && colAssignment[col] == -1 && Reduced(m, n, row, col) == 0.0
    modifies rowAssignment, colAssignment
    ensures Matching(m, n, rowAssignment[..], colAssignment[..])
    ensures forall i :: 0 <= i < n ==> (rowAssignment[i] == -1 <==> old(rowAssignment[i]) == -1 && i != order[0])
  {
    var curCol, curRow := col, row;
    ghost var at: int := k;
    ghost var r0 := rowAssignment[..];
    while curRow != -1
      invariant Flipping(m, n, r0, rowAssignment[..], colAssignment[..], order, at, curCol)
      invariant curRow == if at == -1 then -1 else order[at]
      decreases at
    {
      FlipOne(m, n, r0, rowAssignment[..], colAssignment[..], parent[..], order, up, at, curCol);
      var prevCol := rowAssignment[curRow];
      rowAssignment[curRow] := curCol;
      colAssignment[curCol] := curRow;
      curCol := prevCol;
      if curCol != -1 {
        curRow := parent[curRow];
        at := up[at];
      } else {
        curRow := -1;
        at := -1;
      }
    }
  }

  lemma TreeFits(m: Matrix, n: nat, r: seq<int>, parent: seq<int>, order: seq<int>, up: seq<int>)
    requires SearchTree(m, n, r, parent, order, up)
    ensures |order| <= n
  {
    ElementsSize(order);
    SubsetSize(Elements(order), Indices(n));
  }

  // The columns below k with a zero in this row all belong to discovered rows.
  ghost predicate Scanned(m: Matrix, n: nat, c: seq<int>, order: seq<int>, row: int, k: nat)
    requires n > 0 && |c| == n && k <= n
  {
    forall j :: 0 <= j < k && Reduced(m, n, row, j) == 0.0 ==> c[j] != -1 && c[j] in order
  }

  ghost predicate ScannedUpTo(m: Matrix, n: nat, c: seq<int>, order: seq<int>, head: nat)
    requires n > 0 && |c| == n && head <= |order|
  {
    forall q :: 0 <= q < head ==> Scanned(m, n, c, order, order[q], n)
  }

  ghost predicate VisitedIs(visited: seq<bool>, order: seq<int>) {
    forall i :: 0 <= i < |visited| ==> (visited[i] <==> i in order)
  }

  // The state of a search: rows order[..head] are scanned, the others queued.
  ghost predicate Frontier(m: Matrix, n: nat, r: seq<int>, c: seq<int>, parent: seq<int>, visited: seq<bool>,
                           order: seq<int>, up: seq<int>, head: nat) {
    && n > 0 && |c| == n && head <= |order|
    && SearchTree(m, n, r, parent, order, up) && VisitedIs(visited, order) && ScannedUpTo(m, n, c, order, head)
  }

  lemma GrowTree(m: Matrix, n: nat, r: seq<int>, c: seq<int>, parent: seq<int>, order: seq<int>, up: seq<int>,
                 k: nat, col: nat)
    requires Matching(m, n, r, c) && SearchTree(m, n, r, parent, order, up)
    requires k < |order| && col < n && Reduced(m, n, order[k], col) == 0.0 && c[col] != -1 && c[col] !in order
    ensures SearchTree(m, n, r, parent[c[col] := order[k]], order + [c[col]], up + [k])
  {
    var parent', order', up' := parent[c[col] := order[k]], order + [c[col]], up + [k];
    assert forall q :: 0 <= q < |order| ==> order[q] != c[col];
    forall q | 1 <= q < |order'|
      ensures r[order'[q]] != -1 && 0 <= up'[q] < q && parent'[order'[q]] == order'[up'[q]]
      ensures Reduced(m, n, order'[up'[q]], r[order'[q]]) == 0.0
    {
      if q < |order| { assert up'[q] == up[q]; }
    }
  }

  lemma GrowScanned(m: Matrix, n: nat, c: seq<int>, visited: seq<bool>, order: seq<int>, head: nat, row: int, col: nat)
    requires n > 0 && |c| == n && head <= |order| && col < n && 0 <= c[col] < |visited|
    requires VisitedIs(visited, order) && ScannedUpTo(m, n, c, order, head) && Scanned(m, n, c, order, row, col)
    ensures VisitedIs(visited[c[col] := true], order + [c[col]])
    ensures ScannedUpTo(m, n, c, order + [c[col]], head) && Scanned(m, n, c, order + [c[col]], row, col + 1)
  {}

  ghost predicate OwnedBelowRoot(r: seq<int>, order: seq<int>, j: int) {
    exists k :: 1 <= k < |order| && 0 <= order[k] < |r| && r[order[k]] == j
  }

  lemma ReachedColumn(m: Matrix, n: nat, r: seq<int>, c: seq<int>, order: seq<int>, i: int, j: int)
    requires Matching(m, n, r, c) && ScannedUpTo(m, n, c, order, |order|)
    requires |order| > 0 && 0 <= order[0] < n && r[order[0]] == -1
    requires i in order && 0 <= j < n && Reduced(m, n, i, j) == 0.0
    ensures OwnedBelowRoot(r, order, j)
  {}

  function OwnedCols(r: seq<int>, order: seq<int>): set<int>
    requires order != []
  {
    if |order| == 1 then {}
    else
      var rest, last := OwnedCols(r, order[..|order| - 1]), order[|order| - 1];
      if 0 <= last < |r| then rest + {r[last]} else rest
  }

  lemma {:induction false} OwnedColsAreFew(r: seq<int>, order: seq<int>)
    requires order != []
    ensures |OwnedCols(r, order)| < |order|
    ensures forall j :: OwnedBelowRoot(r, order, j) ==> j in OwnedCols(r, order)
  {
    if |order| == 1 {
    } else {
      var p := order[..|order| - 1];
      OwnedColsAreFew(r, p);
      forall j | OwnedBelowRoot(r, order, j) ensures j in OwnedCols(r, order) {
        var k :| 1 <= k < |order| && 0 <= order[k] < |r| && r[order[k]] == j;
        if k < |p| { assert p[k] == order[k]; }
      }
    }
  }

  // A search that ends without a free column has found too few columns for its
  // rows: every column with a zero belongs to a discovered row, and the root has
  // none.
  lemma ExhaustedSearchIsViolator(m: Matrix, n: nat, r: seq<int>, c: seq<int>, parent: seq<int>,
                                  order: seq<int>, up: seq<int>)
    requires Matching(m, n, r, c) && SearchTree(m, n, r, parent, order, up)
    requires ScannedUpTo(m, n, c, order, |order|)
    ensures HallViolator(m, n, Elements(order))
  {
    var cols := ZeroCols(m, n, Elements(order));
    forall j | j in cols ensures OwnedBelowRoot(r, order, j) {
      var i :| i in Elements(order) && Reduced(m, n, i, j) == 0.0;
      ReachedColumn(m, n, r, c, order, i, j);
    }
    OwnedColsAreFew(r, order);
    SubsetSize(cols, OwnedCols(r, order));
    ElementsSize(order);
  }

  // Every zero of these rows lies in a column that one of them holds.
  ghost predicate Closed(m: Matrix, n: nat, c: seq<int>, rows: set<int>)
    requires n > 0 && |c| == n
  {
    forall i, j :: i in rows && 0 <= j < n && Reduced(m, n, i, j) == 0.0 ==> c[j] != -1 && c[j] in rows
  }

  // No augmenting path starts in row i.
  ghost predicate Blocked(m: Matrix, n: nat, c: seq<int>, i: int)
    requires n > 0 && |c| == n
  {
    exists rows :: i in rows && Closed(m, n, c, rows)
  }

  // A pass can assign one more row.
  ghost predicate CanGrow(m: Matrix, n: nat, r: seq<int>, c: seq<int>)
    requires n > 0 && |r| == n && |c| == n
  {
    exists i :: 0 <= i < n && r[i] == -1 && !Blocked(m, n, c, i)
  }

  lemma {:induction false} TreeStaysInside(m: Matrix, n: nat, r: seq<int>, c: seq<int>, parent: seq<int>,
                                           order: seq<int>, up: seq<int>, rows: set<int>, k: nat)
    requires Matching(m, n, r, c) && SearchTree(m, n, r, parent, order, up)
    requires Closed(m, n, c, rows) && order[0] in rows && k < |order|
    ensures order[k] in rows
  {
    if k == 0 {
    } else {
      assert 0 <= up[k] < k;
      TreeStaysInside(m, n, r, c, parent, order, up, rows, up[k]);
    }
  }

  // A search tree that reaches a free column has an unblocked root.
  lemma PathUnblocks(m: Matrix, n: nat, r: seq<int>, c: seq<int>, parent: seq<int>, order: seq<int>, up: seq<int>,
                     k: nat, col: int)
    requires Matching(m, n, r, c) && SearchTree(m, n, r, parent, order, up)
    requires k < |order| && 0 <= col < n && c[col] == -1 && Reduced(m, n, order[k], col) == 0.0
    ensures !Blocked(m, n, c, order[0])
  {
    if rows :| order[0] in rows && Closed(m, n, c, rows) {
      TreeStaysInside(m, n, r, c, parent, order, up, rows, k);
    }
  }

  lemma ExhaustedSearchBlocks(m: Matrix, n: nat, c: seq<int>, order: seq<int>)
    requires n > 0 && |c| == n && order != [] && ScannedUpTo(m, n, c, order, |order|)
    ensures Blocked(m, n, c, order[0])
  {
    forall i, j | i in Elements(order) && 0 <= j < n && Reduced(m, n, i, j) == 0.0
      ensures c[j] != -1 && c[j] in Elements(order)
    {
      var q :| 0 <= q < |order| && order[q] == i;
      assert Scanned(m, n, c, order, order[q], n);
    }
    assert Closed(m, n, c, Elements(order));
  }

  // The column is assigned: its row joins the queue unless it was seen before.
  method Visit(parent: array<int>, visited: array<bool>, row: int, col: int, nextRow: int, tail: seq<int>,
               ghost m: Matrix, n: nat, ghost r: seq<int>, ghost c: seq<int>,
               ghost order0: seq<int>, ghost up0: seq<int>, ghost head: nat)
    returns (queue: seq<int>, ghost order: seq<int>, ghost up: seq<int>)
    requires parent.Length == n && visited.Length == n && Matching(m, n, r, c)
    requires Frontier(m, n, r, c, parent[..], visited[..], order0, up0, head)
    requires head < |order0| && order0[head] == row && tail == order0[head + 1..]
    requires 0 <= col < n && Reduced(m, n, row, col) == 0.0 && nextRow == c[col] != -1
    requires Scanned(m, n, c, order0, row, col)
    modifies parent, visited
    ensures Frontier(m, n, r, c, parent[..], visited[..], order, up, head)
    ensures order == if old(visited[nextRow]) then order0 else order0 + [nextRow]
    ensures queue == if old(visited[nextRow]) then tail else tail + [nextRow]
    ensures parent[..] == if old(visited[nextRow]) then old(parent[..]) else old(parent[..])[nextRow := row]
    ensures queue == order[head + 1..] && Scanned(m, n, c, order, row, col + 1)
  {
    queue, order, up := tail, order0, up0;
    if !visited[nextRow] {
      GrowTree(m, n, r, c, parent[..], order, up, head, col);
      GrowScanned(m, n, c, visited[..], order, head, row, col);
      visited[nextRow] := true;
      parent[nextRow] := row;
      queue := queue + [nextRow];
      order, up := order + [nextRow], up + [head];
    } else {
      assert visited[..][nextRow];
    }
  }

  // Scan the columns of the row at the head of the queue: either a free column
  // is found and the matching grows, or the row's other ends join the queue.
  method ScanRow(matrix: array2<real>, rowAssignment: array<int>, colAssignment: array<int>, parent: array<int>,
                 visited: array<bool>, row: int, tail: seq<int>,
                 ghost m: Matrix, n: nat, ghost order0: seq<int>, ghost up0: seq<int>, ghost head: nat)
    returns (foundAugment: bool, queue: seq<int>, ghost order: seq<int>, ghost up: seq<int>)
    requires HoldsReduced(matrix, m, n)
    requires rowAssignment.Length == n && colAssignment.Length == n && parent.Length == n && visited.Length == n
    requires rowAssignment != colAssignment && parent != rowAssignment && parent != colAssignment
    requires Matching(m, n, rowAssignment[..], colAssignment[..])
    requires Frontier(m, n, rowAssignment[..], colAssignment[..], parent[..], visited[..], order0, up0, head)
    requires head < |order0| && order0[head] == row && tail == order0[head + 1..]
    modifies rowAssignment, colAssignment, parent, visited
    ensures Matching(m, n, rowAssignment[..], colAssignment[..])
    ensures foundAugment ==> forall i :: 0 <= i < n ==>
              (rowAssignment[i] == -1 <==> old(rowAssignment[i]) == -1 && i != order0[0])
    ensures foundAugment ==> !Blocked(m, n, old(colAssignment[..]), order0[0])
    ensures !foundAugment ==>
              && rowAssignment[..] == old(rowAssignment[..]) && colAssignment[..] == old(colAssignment[..])
              && Frontier(m, n, rowAssignment[..], colAssignment[..], parent[..], visited[..], order, up, head + 1)
              && order0 <= order && queue == order[head + 1..]
  {
    ghost var r, c := rowAssignment[..], colAssignment[..];
    queue, order, up := tail, order0, up0;
    for col := 0 to n
      invariant rowAssignment[..] == r && colAssignment[..] == c
      invariant Frontier(m, n, r, c, parent[..], visited[..], order, up, head)
      invariant order0 <= order && queue == order[head + 1..]
      invariant Scanned(m, n, c, order, row, col)
    {
      if matrix[row, col] != 0.0 { continue; }
      if colAssignment[col] == -1 {
        PathUnblocks(m, n, r, c, parent[..], order, up, head, col);
        TraceBack(rowAssignment, colAssignment, parent, row, col, m, n, order, up, head);
        return true, queue, order, up;
      }
      queue, order, up := Visit(parent, visited, row, col, colAssignment[col], queue, m, n, r, c, order, up, head);
    }
    foundAugment := false;
  }

  // Breadth-first search for a free column from an unassigned row.
  method Search(matrix: array2<real>, rowAssignment: array<int>, colAssignment: array<int>, parent: array<int>,
                startRow: int, ghost m: Matrix, n: nat) returns (foundAugment: bool)
    requires HoldsReduced(matrix, m, n)
    requires rowAssignment.Length == n && colAssignment.Length == n && parent.Length == n
    requires rowAssignment != colAssignment && parent != rowAssignment && parent != colAssignment
    requires Matching(m, n, rowAssignment[..], colAssignment[..])
    requires 0 <= startRow < n && rowAssignment[startRow] == -1
    modifies rowAssignment, colAssignment, parent
    ensures Matching(m, n, rowAssignment[..], colAssignment[..])
    ensures foundAugment ==> forall i :: 0 <= i < n ==>
              (rowAssignment[i] == -1 <==> old(rowAssignment[i]) == -1 && i != startRow)
    ensures foundAugment <==> !Blocked(m, n, old(colAssignment[..]), startRow)
    ensures !foundAugment ==> rowAssignment[..] == old(rowAssignment[..]) && colAssignment[..] == old(colAssignment[..])
    ensures !foundAugment ==> exists rs :: HallViolator(m, n, rs)
  {
    ghost var r, c := rowAssignment[..], colAssignment[..];
    var queue := [startRow];
    var visited := new bool[n](_ => false);
    visited[startRow] := true;
    for i := 0 to n
      invariant forall p :: 0 <= p < i ==> parent[p] == -1
      invariant forall p :: 0 <= p < n ==> (visited[p] <==> p == startRow)
      invariant rowAssignment[..] == r && colAssignment[..] == c
    {
      parent[i] := -1;
    }
    foundAugment := false;
    ghost var order, up, head := [startRow], [-1], 0;
    assert startRow in order;
    while |queue| > 0 && !foundAugment
      invariant Matching(m, n, rowAssignment[..], colAssignment[..])
      invariant foundAugment ==> forall i :: 0 <= i < n ==> (rowAssignment[i] == -1 <==> r[i] == -1 && i != startRow)
      invariant foundAugment ==> !Blocked(m, n, c, startRow)
      invariant !foundAugment ==>
                  && rowAssignment[..] == r && colAssignment[..] == c
                  && Frontier(m, n, r, c, parent[..], visited[..], order, up, head)
                  && order[0] == startRow && queue == order[head..]
      decreases n - head
    {
      TreeFits(m, n, r, parent[..], order, up);
      var row := queue[0];
      queue := queue[1..];
      foundAugment, queue, order, up :=
        ScanRow(matrix, rowAssignment, colAssignment, parent, visited, row, queue, m, n, order, up, head);
      head := head + 1;
    }
    if !foundAugment {
      ExhaustedSearchIsViolator(m, n, r, c, parent[..], order, up);
      ExhaustedSearchBlocks(m, n, c, order);
    }
  }

  // While some row is unassigned some column is uncovered, and that column has a
  // zero; no uncovered entry is below zero.
  lemma AdjustmentIsZero(m: Matrix, n: nat, r: seq<int>, c: seq<int>)
    requires Matching(m, n, r, c) && Count(r, n) < n
    ensures exists i, j :: 0 <= i < n && 0 <= j < n && !Uses(r, n, j) && Reduced(m, n, i, j) == 0.0
    ensures forall i, j :: 0 <= i < n && 0 <= j < n ==> Reduced(m, n, i, j) >= 0.0
  {
    forall i, j | 0 <= i < n && 0 <= j < n ensures Reduced(m, n, i, j) >= 0.0 {
      ReducedHasZeroInEveryColumn(m, n, j);
    }
    MatchingIsAssignment(m, n, r, c);
    ColsSize(r, n, n, n);
    assert Cols(r, n) != Indices(n);
    var j :| j in Indices(n) && j !in Cols(r, n);
    ColsMember(r, n, j);
    ReducedHasZeroInEveryColumn(m, n, j);
  }

  // The adjustment as the source reaches it: it subtracts zero.
  method AdjustInVain(matrix: array2<real>, rowCovered: array<bool>, colCovered: array<bool>,
                      ghost m: Matrix, n: nat, ghost r: seq<int>, ghost c: seq<int>)
    requires HoldsReduced(matrix, m, n) && rowCovered.Length == n && colCovered.Length == n
    requires Matching(m, n, r, c) && Count(r, n) < n
    requires forall i :: 0 <= i < n ==> !rowCovered[i]
    requires forall j :: 0 <= j < n ==> (colCovered[j] <==> Uses(r, n, j))
    modifies matrix
    ensures HoldsReduced(matrix, m, n)
  {
    AdjustmentIsZero(m, n, r, c);
    var minVal := Adjust(matrix, rowCovered, colCovered);
    assert minVal == 0.0;
  }

  // Search from one unassigned row after the other until a path is found.
  method SearchRows(matrix: array2<real>, rowAssignment: array<int>, colAssignment: array<int>, parent: array<int>,
                    ghost m: Matrix, n: nat) returns (foundAugment: bool)
    requires HoldsReduced(matrix, m, n)
    requires rowAssignment.Length == n && colAssignment.Length == n && parent.Length == n
    requires rowAssignment != colAssignment && parent != rowAssignment && parent != colAssignment
    requires Matching(m, n, rowAssignment[..], colAssignment[..]) && Count(rowAssignment[..], n) < n
    modifies rowAssignment, colAssignment, parent
    ensures Matching(m, n, rowAssignment[..], colAssignment[..])
    ensures foundAugment ==> Count(rowAssignment[..], n) == old(Count(rowAssignment[..], n)) + 1
    ensures !foundAugment ==> rowAssignment[..] == old(rowAssignment[..]) && colAssignment[..] == old(colAssignment[..])
    ensures !foundAugment ==> exists rs :: HallViolator(m, n, rs)
    ensures foundAugment <==> CanGrow(m, n, old(rowAssignment[..]), old(colAssignment[..]))
  {
    ghost var r, c := rowAssignment[..], colAssignment[..];
    CountFull(r, n);
    foundAugment := false;
    for startRow := 0 to n
      invariant !foundAugment && Matching(m, n, r, c)
      invariant rowAssignment[..] == r && colAssignment[..] == c
      invariant forall i :: 0 <= i < startRow && r[i] == -1 ==> Blocked(m, n, c, i)
      invariant (exists rs :: HallViolator(m, n, rs)) || forall i :: 0 <= i < startRow ==> r[i] != -1
    {
      if rowAssignment[startRow] != -1 { continue; }
      foundAugment := Search(matrix, rowAssignment, colAssignment, parent, startRow, m, n);
      if foundAugment {
        CountUpdate(r, rowAssignment[..], startRow, n);
        break;
      }
    }
  }

  // One pass of the inner loop.  The adjustment subtracts zero, so the matrix is
  // as it was; the pass assigns exactly one more row when an augmenting path
  // exists, and otherwise changes nothing and exhibits a Hall violator.
  method Pass(matrix: array2<real>, rowAssignment: array<int>, colAssignment: array<int>, parent: array<int>,
              rowCovered: array<bool>, colCovered: array<bool>, ghost m: Matrix, n: nat) returns (foundAugment: bool)
    requires HoldsReduced(matrix, m, n)
    requires rowAssignment.Length == n && colAssignment.Length == n && parent.Length == n
    requires rowCovered.Length == n && colCovered.Length == n
    requires rowAssignment != colAssignment && parent != rowAssignment && parent != colAssignment
    requires Matching(m, n, rowAssignment[..], colAssignment[..]) && Count(rowAssignment[..], n) < n
    requires forall i :: 0 <= i < n ==> !rowCovered[i]
    requires forall j :: 0 <= j < n ==> (colCovered[j] <==> Uses(rowAssignment[..], n, j))
    modifies matrix, rowAssignment, colAssignment, parent
    ensures HoldsReduced(matrix, m, n)
    ensures Matching(m, n, rowAssignment[..], colAssignment[..])
    ensures foundAugment ==> Count(rowAssignment[..], n) == old(Count(rowAssignment[..], n)) + 1
    ensures !foundAugment ==> rowAssignment[..] == old(rowAssignment[..]) && colAssignment[..] == old(colAssignment[..])
    ensures !foundAugment ==> exists rs :: HallViolator(m, n, rs)
    ensures foundAugment <==> CanGrow(m, n, old(rowAssignment[..]), old(colAssignment[..]))
  {
    ghost var r, c := rowAssignment[..], colAssignment[..];
    AdjustInVain(matrix, rowCovered, colCovered, m, n, r, c);
    foundAugment := SearchRows(matrix, rowAssignment, colAssignment, parent, m, n);
  }

  // The inner loop.  A pass that fails leaves everything as it was, so either the
  // first pass succeeds or none does.
  method PassUntilFound(matrix: array2<real>, rowAssignment: array<int>, colAssignment: array<int>, parent: array<int>,
                        rowCovered: array<bool>, colCovered: array<bool>, budget: nat, ghost m: Matrix, n: nat)
    returns (foundAugment: bool, fuel: nat)
    requires HoldsReduced(matrix, m, n)
    requires rowAssignment.Length == n && colAssignment.Length == n && parent.Length == n
    requires rowCovered.Length == n && colCovered.Length == n
    requires rowAssignment != colAssignment && parent != rowAssignment && parent != colAssignment
    requires Matching(m, n, rowAssignment[..], colAssignment[..]) && Count(rowAssignment[..], n) < n
    requires forall i :: 0 <= i < n ==> !rowCovered[i]
    requires forall j :: 0 <= j < n ==> (colCovered[j] <==> Uses(rowAssignment[..], n, j))
    modifies matrix, rowAssignment, colAssignment, parent
    ensures HoldsReduced(matrix, m, n) && Matching(m, n, rowAssignment[..], colAssignment[..])
    ensures foundAugment <==> budget > 0 && CanGrow(m, n, old(rowAssignment[..]), old(colAssignment[..]))
    ensures foundAugment ==> fuel == budget - 1 && Count(rowAssignment[..], n) == old(Count(rowAssignment[..], n)) + 1
    ensures !foundAugment ==> rowAssignment[..] == old(rowAssignment[..]) && colAssignment[..] == old(colAssignment[..])
    ensures !foundAugment ==> budget == 0 || exists rs :: HallViolator(m, n, rs)
  {
    ghost var r, c := rowAssignment[..], colAssignment[..];
    fuel, foundAugment := budget, false;
    while !foundAugment
      invariant HoldsReduced(matrix, m, n) && Matching(m, n, rowAssignment[..], colAssignment[..])
      invariant foundAugment ==> Count(rowAssignment[..], n) == Count(r, n) + 1
      invariant foundAugment ==> fuel == budget - 1 && CanGrow(m, n, r, c)
      invariant !foundAugment ==> rowAssignment[..] == r && colAssignment[..] == c
      invariant !foundAugment ==> fuel == budget || (!CanGrow(m, n, r, c) && exists rs :: HallViolator(m, n, rs))
      invariant fuel <= budget
      decreases fuel
    {
      if fuel == 0 { break; }
      fuel := fuel - 1;
      foundAugment := Pass(matrix, rowAssignment, colAssignment, parent, rowCovered, colCovered, m, n);
    }
  }

  // The main loop: passes are made until every row is assigned or the budget is
  // spent.
  method AssignAll(matrix: array2<real>, rowAssignment: array<int>, colAssignment: array<int>, budget: nat,
                   ghost m: Matrix, n: nat) returns (complete: bool)
    requires HoldsReduced(matrix, m, n)
    requires rowAssignment.Length == n && colAssignment.Length == n && rowAssignment != colAssignment
    requires Matching(m, n, rowAssignment[..], colAssignment[..])
    modifies matrix, rowAssignment, colAssignment
    ensures complete ==> Inverse(rowAssignment[..], colAssignment[..], n) && ZeroMatching(m, n, rowAssignment[..])
    ensures !complete ==> budget < n - old(Count(rowAssignment[..], n)) || exists rs :: HallViolator(m, n, rs)
  {
    var fuel: nat := budget;
    while true
      invariant HoldsReduced(matrix, m, n) && Matching(m, n, rowAssignment[..], colAssignment[..])
      invariant Count(rowAssignment[..], n) - old(Count(rowAssignment[..], n)) == budget - fuel
      decreases fuel
    {
      CountFull(rowAssignment[..], n);
      var numAssigned := CountAssigned(rowAssignment);
      if numAssigned == n { break; }
      var rowCovered := new bool[n](_ => false);
      var colCovered := CoverAssignedColumns(rowAssignment);
      var parent := new int[n](_ => -1);
      var foundAugment;
      foundAugment, fuel :=
        PassUntilFound(matrix, rowAssignment, colAssignment, parent, rowCovered, colCovered, fuel, m, n);
      if !foundAugment { return false; }
    }
    MatchingIsAssignment(m, n, rowAssignment[..], colAssignment[..]);
    complete := true;
  }

  method RestrictToInput(rowAssignment: array<int>, nRows: nat, nCols: nat) returns (result: seq<int>)
    requires nRows <= rowAssignment.Length
    ensures result == Restrict(rowAssignment[..], nRows, nCols)
  {
    var kept := new int[nRows];
    for i := 0 to nRows
      invariant forall p :: 0 <= p < i ==> kept[p] == Restrict(rowAssignment[..], nRows, nCols)[p]
    {
      if rowAssignment[i] < nCols {
        kept[i] := rowAssignment[i];
      } else {
        kept[i] := -1;
      }
    }
    result := kept[..];
  }

  // The padded matrix has this many rows and columns.
  function Side(cost: Matrix): nat
    requires cost != []
  {
    Max(|cost|, |cost[0]|)
  }

  // The whole solver.  It returns an optimal assignment when it returns at all,
  // and it returns, within as many passes as the padded matrix has rows, exactly
  // when the reduced zeros have a perfect matching; otherwise no number of
  // passes is enough.
  method Solve(cost: Matrix, budget: nat) returns (result: Option<seq<int>>)
    requires forall i :: 0 <= i < |cost| ==> |cost[0]| <= |cost[i]|
    ensures cost == [] ==> result == Some([])
    ensures cost != [] && cost[0] == [] ==> result == Some(seq(|cost|, _ => 0))
    ensures cost != [] && cost[0] != [] && result.Some? ==>
              && HasZeroMatching(cost, Side(cost))
              && Optimal(cost, result.value, |cost|, |cost[0]|)
              && exists r, c :: Inverse(r, c, Side(cost)) && ZeroMatching(cost, Side(cost), r)
                                && result.value == Restrict(r, |cost|, |cost[0]|)
    ensures cost != [] && cost[0] != [] && budget >= Side(cost) && HasZeroMatching(cost, Side(cost)) ==> result.Some?
    ensures cost != [] && cost[0] != [] && budget >= Side(cost) && result.None? ==>
              exists rs :: HallViolator(cost, Side(cost), rs)
  {
    var nRows := |cost|;
    if nRows == 0 { return Some([]); }
    var nCols := |cost[0]|;
    if nCols == 0 { return Some(seq(nRows, _ => 0)); }
    var n := nRows;
    if nCols > n { n := nCols; }

    var matrix := BuildPadded(cost, n);
    SubtractRowMinimums(matrix, cost, n);
    SubtractColumnMinimums(matrix, cost, n);
    var rowAssignment, colAssignment := InitialAssignment(matrix, cost, n);
    var complete := AssignAll(matrix, rowAssignment, colAssignment, budget, cost, n);
    if !complete {
      if rs :| HallViolator(cost, n, rs) { ViolatorExcludesMatching(cost, n, rs); }
      return None;
    }
    ghost var r, c := rowAssignment[..], colAssignment[..];
    var kept := RestrictToInput(rowAssignment, nRows, nCols);
    ZeroMatchingIsOptimal(cost, r, nRows, nCols);
    result := Some(kept);
  }
}
