/**
 The pivoted elimination of benches/flynn_axes.rs over the reals: `pick_and_scale_pivot` and
 `apply_pivot_to_rows`, both in place on one row-major slice, and the factorization they leave
 behind when they are run for step 0, 1, 2, ...

 After k steps the slice is a packed matrix. Column t < k holds, on and below the diagonal,
 column t of a lower factor with the pivots on its diagonal; row t < k holds, right of the
 diagonal, row t of a unit upper factor; the rest is what is still to be eliminated.
 */
module PivotedElimination {
  import opened Layout
  import opened Reals
  import opened TriangularSystems

  // ----- the row-major slice ---------------------------------------------------------------

  function Index(n: nat, row: nat, col: nat): (k: nat)
    requires row < n && col < n
    ensures k < n * n
  {
    PartsBefore(n, row, n);
    PartStartIsProduct(n, n);
    PartStart(n, row) + col
  }

  /** The layout the source indexes by. */
  lemma IndexIsRowMajor(n: nat, row: nat, col: nat)
    requires row < n && col < n
    ensures Index(n, row, col) == row * n + col
  {
    PartStartIsProduct(n, row);
  }

  lemma IndexInjective(n: nat, r1: nat, c1: nat, r2: nat, c2: nat)
    requires r1 < n && c1 < n && r2 < n && c2 < n
    requires Index(n, r1, c1) == Index(n, r2, c2)
    ensures r1 == r2 && c1 == c2
  {
    if r1 < r2 {
      PartsBefore(n, r1, r2);
    } else if r2 < r1 {
      PartsBefore(n, r2, r1);
    }
  }

  function Cell(m: seq<real>, n: nat, row: nat, col: nat): real
    requires |m| == n * n && row < n && col < n
  {
    m[Index(n, row, col)]
  }

  /** What one store at (row, col) does to every cell. */
  lemma StoreCell(m: seq<real>, n: nat, row: nat, col: nat, v: real, m': seq<real>)
    requires |m| == n * n && row < n && col < n
    requires m' == m[Index(n, row, col) := v]
    ensures forall r: nat, c: nat | r < n && c < n ::
              Cell(m', n, r, c) == if r == row && c == col then v else Cell(m, n, r, c)
  {
    forall r: nat, c: nat | r < n && c < n
      ensures Cell(m', n, r, c) == if r == row && c == col then v else Cell(m, n, r, c)
    {
      if Index(n, r, c) == Index(n, row, col) {
        IndexInjective(n, r, c, row, col);
      }
    }
  }

  // ----- choosing the pivot ----------------------------------------------------------------

  /** The row a scan of rows step..hi settles on: the first of those with the largest |cell|. */
  function PivotRow(m: seq<real>, n: nat, step: nat, hi: nat): (best: nat)
    requires |m| == n * n && step < hi <= n
    ensures step <= best < hi
    ensures forall r: nat | step <= r < hi :: Abs(Cell(m, n, r, step)) <= Abs(Cell(m, n, best, step))
    ensures forall r: nat | step <= r < best :: Abs(Cell(m, n, r, step)) < Abs(Cell(m, n, best, step))
    decreases hi
  {
    if hi == step + 1 then step
    else
      var before := PivotRow(m, n, step, hi - 1);
      if Abs(Cell(m, n, hi - 1, step)) > Abs(Cell(m, n, before, step)) then hi - 1 else before
  }

  /** The column from the diagonal down is zero, so no row can serve as the pivot of this step. */
  ghost predicate NoPivot(m: seq<real>, n: nat, step: nat)
    requires |m| == n * n && step < n
  {
    forall r: nat | step <= r < n :: Cell(m, n, r, step) == 0.0
  }

  function Exchanged(row: nat, a: nat, b: nat): nat {
    if row == a then b else if row == b then a else row
  }

  /** m' is m with rows a and b exchanged in full, the factored columns included. */
  ghost predicate RowsExchanged(m: seq<real>, m': seq<real>, n: nat, a: nat, b: nat)
    requires |m| == n * n && |m'| == n * n && a < n && b < n
  {
    forall r: nat, c: nat | r < n && c < n :: Cell(m', n, r, c) == Cell(m, n, Exchanged(r, a, b), c)
  }

  /** m' is m with the part of row `step` right of the diagonal divided by `pivot`. */
  ghost predicate RowScaled(m: seq<real>, m': seq<real>, n: nat, step: nat, pivot: real)
    requires |m| == n * n && |m'| == n * n && step < n && (step + 1 < n ==> pivot != 0.0)
  {
    forall r: nat, c: nat | r < n && c < n ::
      Cell(m', n, r, c) == if r == step && c > step then Cell(m, n, r, c) / pivot else Cell(m, n, r, c)
  }

  /** m' is m with `pivot row * multiplier` taken from each of the rows lo..hi right of column `step`. */
  ghost predicate RowsReduced(m: seq<real>, m': seq<real>, n: nat, step: nat, lo: nat, hi: nat)
    requires |m| == n * n && |m'| == n * n && step < n
  {
    forall r: nat, c: nat | r < n && c < n :: Cell(m', n, r, c) == ReducedCell(m, n, step, lo, hi, r, c)
  }

  function ReducedCell(m: seq<real>, n: nat, step: nat, lo: nat, hi: nat, r: nat, c: nat): real
    requires |m| == n * n && step < n && r < n && c < n
  {
    if lo <= r < hi && c > step then Less(Cell(m, n, r, c), Cell(m, n, r, step), Cell(m, n, step, c))
    else Cell(m, n, r, c)
  }

  /** A cell less its row's multiple of the pivot row's cell. */
  function Less(cell: real, multiplier: real, pivotCol: real): real {
    cell - Mul(multiplier, pivotCol)
  }

  method SwapRows(matrix: array<real>, n: nat, a: nat, b: nat)
    requires matrix.Length == n * n && a < n && b < n && a != b
    modifies matrix
    ensures RowsExchanged(old(matrix[..]), matrix[..], n, a, b)
  {
    ghost var was := matrix[..];
    for col := 0 to n
      invariant forall r: nat, c: nat | r < n && c < n ::
          Cell(matrix[..], n, r, c) == if c < col then Cell(was, n, Exchanged(r, a, b), c) else Cell(was, n, r, c)
    {
      ghost var m0 := matrix[..];
      var i, j := Index(n, a, col), Index(n, b, col);
      if i == j {
        IndexInjective(n, a, col, b, col);
      }
      matrix[i], matrix[j] := matrix[j], matrix[i];
      ghost var m1 := m0[i := m0[j]];
      StoreCell(m0, n, a, col, Cell(m0, n, b, col), m1);
      StoreCell(m1, n, b, col, Cell(m0, n, a, col), matrix[..]);
    }
  }

  method ScalePivotRow(matrix: array<real>, n: nat, step: nat, pivot: real)
    requires matrix.Length == n * n && step < n && (step + 1 < n ==> pivot != 0.0)
    modifies matrix
    ensures RowScaled(old(matrix[..]), matrix[..], n, step, pivot)
  {
    ghost var was := matrix[..];
    for col := step + 1 to n
      invariant forall r: nat, c: nat | r < n && c < n ::
          Cell(matrix[..], n, r, c) ==
          if r == step && step < c < col then Cell(was, n, r, c) / pivot else Cell(was, n, r, c)
    {
      ghost var m0 := matrix[..];
      var k := Index(n, step, col);
      matrix[k] := matrix[k] / pivot;
      StoreCell(m0, n, step, col, Cell(m0, n, step, col) / pivot, matrix[..]);
    }
  }

  /** The scan of column `step` from the diagonal down. */
  method FindPivotRow(matrix: array<real>, n: nat, step: nat) returns (bestRow: nat)
    requires matrix.Length == n * n && step < n
    ensures bestRow == PivotRow(matrix[..], n, step, n)
  {
    bestRow := step;
    var bestAbs := Abs(matrix[Index(n, step, step)]);
    for row := step + 1 to n
      invariant bestRow == PivotRow(matrix[..], n, step, row)
      invariant bestAbs == Abs(Cell(matrix[..], n, bestRow, step))
    {
      var a := Abs(matrix[Index(n, row, step)]);
      if a > bestAbs {
        bestAbs := a;
        bestRow := row;
      }
    }
  }

  /** `pick_and_scale_pivot`. A step with columns to its right divides by the pivot, so some row has to offer one. */
  method PickAndScalePivot(matrix: array<real>, n: nat, step: nat) returns (pivot: real, ghost swapped: seq<real>)
    requires matrix.Length == n * n && step < n
    requires step + 1 < n ==> !NoPivot(matrix[..], n, step)
    modifies matrix
    ensures pivot == Cell(old(matrix[..]), n, PivotRow(old(matrix[..]), n, step, n), step)
    ensures step + 1 < n ==> pivot != 0.0
    ensures |swapped| == n * n
    ensures RowsExchanged(old(matrix[..]), swapped, n, step, PivotRow(old(matrix[..]), n, step, n))
    ensures RowScaled(swapped, matrix[..], n, step, pivot)
  {
    var bestRow := FindPivotRow(matrix, n, step);
    PivotRowOffers(matrix[..], n, step);
    if bestRow != step {
      SwapRows(matrix, n, step, bestRow);
    }
    swapped := matrix[..];
    pivot := matrix[Index(n, step, step)];
    assert pivot == Cell(swapped, n, step, step) == Cell(old(matrix[..]), n, bestRow, step);
    ScalePivotRow(matrix, n, step, pivot);
  }

  /** The row the scan settles on is a pivot if any row is. */
  lemma PivotRowOffers(m: seq<real>, n: nat, step: nat)
    requires |m| == n * n && step < n
    ensures Cell(m, n, PivotRow(m, n, step, n), step) == 0.0 <==> NoPivot(m, n, step)
  {
    var best := PivotRow(m, n, step, n);
    assert forall r: nat | step <= r < n :: Abs(Cell(m, n, r, step)) <= Abs(Cell(m, n, best, step));
  }

  /** The inner loop of `apply_pivot_to_rows`: one row, with the multiplier put back where it was read. */
  method ApplyPivotToRow(matrix: array<real>, n: nat, step: nat, row: nat)
    requires matrix.Length == n * n && step < row < n
    modifies matrix
    ensures RowsReduced(old(matrix[..]), matrix[..], n, step, row, row + 1)
  {
    ghost var was := matrix[..];
    var multiplier := matrix[Index(n, row, step)];
    for col := step + 1 to n
      invariant forall r: nat, c: nat | r < n && c < n ::
          Cell(matrix[..], n, r, c) ==
          if r == row && step < c < col then Less(Cell(was, n, r, c), multiplier, Cell(was, n, step, c))
          else Cell(was, n, r, c)
    {
      ghost var m0 := matrix[..];
      var pivotCol := matrix[Index(n, step, col)];
      assert pivotCol == Cell(m0, n, step, col);
      var k := Index(n, row, col);
      matrix[k] := Less(matrix[k], multiplier, pivotCol);
      StoreCell(m0, n, row, col, Less(Cell(m0, n, row, col), multiplier, pivotCol), matrix[..]);
    }
    ghost var m1 := matrix[..];
    matrix[Index(n, row, step)] := multiplier;
    StoreCell(m1, n, row, step, multiplier, matrix[..]);
  }

  /** `apply_pivot_to_rows`. The rows it is handed lie below the pivot row, which it only reads. */
  method ApplyPivotToRows(matrix: array<real>, n: nat, step: nat, lo: nat, hi: nat)
    requires matrix.Length == n * n && step < n && step < lo && hi <= n
    modifies matrix
    ensures RowsReduced(old(matrix[..]), matrix[..], n, step, lo, hi)
  {
    ghost var was := matrix[..];
    var row := lo;
    while row < hi
      invariant lo <= row && (row <= hi || row == lo)
      invariant RowsReduced(was, matrix[..], n, step, lo, row)
    {
      ghost var before := matrix[..];
      ApplyPivotToRow(matrix, n, step, row);
      ReduceOneMore(was, before, matrix[..], n, step, lo, row);
      row := row + 1;
    }
  }

  lemma ReduceOneMore(m: seq<real>, before: seq<real>, after: seq<real>, n: nat, step: nat, lo: nat, row: nat)
    requires |m| == n * n && |before| == n * n && |after| == n * n && step < lo <= row < n
    requires RowsReduced(m, before, n, step, lo, row) && RowsReduced(before, after, n, step, row, row + 1)
    ensures RowsReduced(m, after, n, step, lo, row + 1)
  {
    forall r: nat, c: nat | r < n && c < n
      ensures Cell(after, n, r, c) == ReducedCell(m, n, step, lo, row + 1, r, c)
    {
      assert Cell(before, n, r, step) == Cell(m, n, r, step) || r < row;
      assert Cell(before, n, step, c) == Cell(m, n, step, c);
    }
  }

  // ----- what the packed matrix means ------------------------------------------------------

  /** Entry (i, t) of the lower factor: the packed cell on and below the diagonal. */
  function Lower(m: seq<real>, n: nat, i: nat, t: nat): real
    requires |m| == n * n && i < n && t < n
  {
    if t <= i then Cell(m, n, i, t) else 0.0
  }

  /** Entry (t, j) of the unit upper factor: one on the diagonal, the packed cell right of it. */
  function Upper(m: seq<real>, n: nat, t: nat, j: nat): real
    requires |m| == n * n && t < n && j < n
  {
    if t < j then Cell(m, n, t, j) else if t == j then 1.0 else 0.0
  }

  /** The first `terms` terms of entry (i, j) of the product of the two factors. */
  function Product(m: seq<real>, n: nat, i: nat, j: nat, terms: nat): real
    requires |m| == n * n && i < n && j < n && terms <= n
  {
    if terms == 0 then 0.0
    else Product(m, n, i, j, terms - 1) + Mul(Lower(m, n, i, terms - 1), Upper(m, n, terms - 1, j))
  }

  /** The part of m that `done` steps have not eliminated yet. */
  function Residue(m: seq<real>, n: nat, done: nat, i: nat, j: nat): real
    requires |m| == n * n && i < n && j < n
  {
    if done <= i && done <= j then Cell(m, n, i, j) else 0.0
  }

  predicate IsPermutation(perm: seq<nat>, n: nat) {
    && |perm| == n
    && (forall i: nat | i < n :: perm[i] < n)
    && (forall i: nat, j: nat | i < j < n :: perm[i] != perm[j])
  }

  /** m is what `done` steps leave of `original`, its rows taken in the order `perm`. */
  ghost predicate Factored(original: seq<real>, m: seq<real>, n: nat, perm: seq<nat>, done: nat)
    requires |original| == n * n && |m| == n * n && done <= n && IsPermutation(perm, n)
  {
    forall i: nat, j: nat | i < n && j < n ::
      Cell(original, n, perm[i], j) == Product(m, n, i, j, done) + Residue(m, n, done, i, j)
  }

  /** The product only reads row i and the rows of the upper factor it runs over. */
  lemma {:induction false} ProductAgrees(m: seq<real>, m': seq<real>, n: nat, i: nat, i': nat, j: nat, terms: nat)
    requires |m| == n * n && |m'| == n * n && i < n && i' < n && j < n && terms <= n
    requires forall t: nat | t < terms :: Lower(m', n, i', t) == Lower(m, n, i, t)
    requires forall t: nat | t < terms :: Upper(m', n, t, j) == Upper(m, n, t, j)
    ensures Product(m', n, i', j, terms) == Product(m, n, i, j, terms)
  {
    if terms > 0 {
      ProductAgrees(m, m', n, i, i', j, terms - 1);
    }
  }

  function SwapPerm(perm: seq<nat>, a: nat, b: nat): seq<nat>
    requires a < |perm| && b < |perm|
  {
    perm[a := perm[b]][b := perm[a]]
  }

  lemma SwapPermEntry(perm: seq<nat>, n: nat, a: nat, b: nat)
    requires IsPermutation(perm, n) && a < n && b < n
    ensures IsPermutation(SwapPerm(perm, a, b), n)
    ensures forall i: nat | i < n :: SwapPerm(perm, a, b)[i] == perm[Exchanged(i, a, b)]
  {
  }

  /** A full-row exchange among the unfinished rows carries the finished columns along with it. */
  lemma ExchangeKeepsFactored(original: seq<real>, m: seq<real>, m': seq<real>, n: nat, perm: seq<nat>, done: nat, b: nat)
    requires |original| == n * n && |m| == n * n && |m'| == n * n && done <= b < n
    requires IsPermutation(perm, n) && Factored(original, m, n, perm, done)
    requires RowsExchanged(m, m', n, done, b)
    ensures IsPermutation(SwapPerm(perm, done, b), n)
    ensures Factored(original, m', n, SwapPerm(perm, done, b), done)
  {
    SwapPermEntry(perm, n, done, b);
    forall i: nat, j: nat | i < n && j < n
      ensures Cell(original, n, SwapPerm(perm, done, b)[i], j)
           == Product(m', n, i, j, done) + Residue(m', n, done, i, j)
    {
      ProductAgrees(m, m', n, Exchanged(i, done, b), i, j, done);
    }
  }

  /** The cells of the column and the row of a step, and one right of and below them, when the step is over. */
  lemma StepCells(m: seq<real>, scaled: seq<real>, m': seq<real>, n: nat, step: nat, pivot: real, i: nat, j: nat)
    requires |m| == n * n && |scaled| == n * n && |m'| == n * n && step < n && i < n && j < n
    requires step + 1 < n ==> pivot != 0.0
    requires RowScaled(m, scaled, n, step, pivot) && RowsReduced(scaled, m', n, step, step + 1, n)
    ensures Cell(m', n, i, step) == Cell(m, n, i, step)
    ensures Cell(m', n, step, j) == if j > step then Cell(m, n, step, j) / pivot else Cell(m, n, step, j)
    ensures i > step && j > step ==>
              Cell(m', n, i, j) == Less(Cell(m, n, i, j), Cell(m, n, i, step), Cell(m, n, step, j) / pivot)
    ensures i < step || j < step ==> Cell(m', n, i, j) == Cell(m, n, i, j)
  {
    assert Cell(scaled, n, i, step) == Cell(m, n, i, step);
    assert Cell(scaled, n, i, j) == if i == step && j > step then Cell(m, n, i, j) / pivot else Cell(m, n, i, j);
    assert Cell(m', n, step, j) == Cell(scaled, n, step, j);
  }

  lemma PivotTimesScaled(x: real, pivot: real)
    requires pivot != 0.0
    ensures Mul(pivot, x / pivot) == x
  {
  }

  /** What one more term of the product makes up for what the residue has lost. */
  lemma StepTerm(m: seq<real>, scaled: seq<real>, m': seq<real>, n: nat, step: nat, pivot: real, i: nat, j: nat)
    requires |m| == n * n && |scaled| == n * n && |m'| == n * n && step < n && i < n && j < n
    requires pivot == Cell(m, n, step, step) && (step + 1 < n ==> pivot != 0.0)
    requires RowScaled(m, scaled, n, step, pivot) && RowsReduced(scaled, m', n, step, step + 1, n)
    ensures Mul(Lower(m', n, i, step), Upper(m', n, step, j)) + Residue(m', n, step + 1, i, j) == Residue(m, n, step, i, j)
  {
    StepCells(m, scaled, m', n, step, pivot, i, j);
    MulByZero(Lower(m', n, i, step));
    MulByZero(Upper(m', n, step, j));
    if i == step && j > step {
      PivotTimesScaled(Cell(m, n, step, j), pivot);
    }
  }

  /** One entry of the invariant across the scaling and the reduction of one step. */
  lemma StepEntry(m: seq<real>, scaled: seq<real>, m': seq<real>, n: nat, step: nat, pivot: real, i: nat, j: nat)
    requires |m| == n * n && |scaled| == n * n && |m'| == n * n && step < n && i < n && j < n
    requires pivot == Cell(m, n, step, step) && (step + 1 < n ==> pivot != 0.0)
    requires RowScaled(m, scaled, n, step, pivot) && RowsReduced(scaled, m', n, step, step + 1, n)
    ensures Product(m', n, i, j, step + 1) + Residue(m', n, step + 1, i, j)
         == Product(m, n, i, j, step) + Residue(m, n, step, i, j)
  {
    forall t: nat | t < step
      ensures Lower(m', n, i, t) == Lower(m, n, i, t) && Upper(m', n, t, j) == Upper(m, n, t, j)
    {
      StepCells(m, scaled, m', n, step, pivot, i, t);
      StepCells(m, scaled, m', n, step, pivot, t, j);
    }
    ProductAgrees(m, m', n, i, i, j, step);
    StepTerm(m, scaled, m', n, step, pivot, i, j);
  }

  lemma StepKeepsFactored(original: seq<real>, m: seq<real>, scaled: seq<real>, m': seq<real>, n: nat, perm: seq<nat>, step: nat, pivot: real)
    requires |original| == n * n && |m| == n * n && |scaled| == n * n && |m'| == n * n && step < n
    requires IsPermutation(perm, n) && Factored(original, m, n, perm, step)
    requires pivot == Cell(m, n, step, step) && (step + 1 < n ==> pivot != 0.0)
    requires RowScaled(m, scaled, n, step, pivot) && RowsReduced(scaled, m', n, step, step + 1, n)
    ensures Factored(original, m', n, perm, step + 1)
  {
    forall i: nat, j: nat | i < n && j < n
      ensures Cell(original, n, perm[i], j) == Product(m', n, i, j, step + 1) + Residue(m', n, step + 1, i, j)
    {
      StepEntry(m, scaled, m', n, step, pivot, i, j);
    }
  }

  // ----- which inputs have all their pivots ------------------------------------------------

  function Rows(m: seq<real>, n: nat): (g: Grid)
    requires |m| == n * n
    ensures IsSquare(g, n)
    ensures forall i: nat, j: nat | i < n && j < n :: g[i][j] == Cell(m, n, i, j)
  {
    seq(n, i requires 0 <= i < n => seq(n, j requires 0 <= j < n => Cell(m, n, i, j)))
  }

  function LowerFactor(m: seq<real>, n: nat): (g: Grid)
    requires |m| == n * n
    ensures IsSquare(g, n)
    ensures forall i: nat, t: nat | i < n && t < n :: g[i][t] == Lower(m, n, i, t)
  {
    seq(n, i requires 0 <= i < n => seq(n, t requires 0 <= t < n => Lower(m, n, i, t)))
  }

  function UpperFactor(m: seq<real>, n: nat): (g: Grid)
    requires |m| == n * n
    ensures IsSquare(g, n)
    ensures forall t: nat, j: nat | t < n && j < n :: g[t][j] == Upper(m, n, t, j)
  {
    seq(n, t requires 0 <= t < n => seq(n, j requires 0 <= j < n => Upper(m, n, t, j)))
  }

  function ResidueGrid(m: seq<real>, n: nat, done: nat): (g: Grid)
    requires |m| == n * n
    ensures IsSquare(g, n)
    ensures forall i: nat, j: nat | i < n && j < n :: g[i][j] == Residue(m, n, done, i, j)
  {
    seq(n, i requires 0 <= i < n => seq(n, j requires 0 <= j < n => Residue(m, n, done, i, j)))
  }

  function PermutedRows(m: seq<real>, n: nat, perm: seq<nat>): (g: Grid)
    requires |m| == n * n && IsPermutation(perm, n)
    ensures IsSquare(g, n)
    ensures forall i: nat | i < n :: g[i] == Rows(m, n)[perm[i]]
  {
    var g := seq(n, i requires 0 <= i < n => Rows(m, n)[perm[i]]);
    assert forall i: nat | i < n :: |Rows(m, n)[perm[i]]| == n;
    g
  }

  lemma {:induction false} ProductIsEntry(m: seq<real>, n: nat, i: nat, j: nat, terms: nat)
    requires |m| == n * n && i < n && j < n && terms <= n
    ensures Product(m, n, i, j, terms) == Entry(LowerFactor(m, n)[i], UpperFactor(m, n), j, terms)
  {
    if terms > 0 {
      ProductIsEntry(m, n, i, j, terms - 1);
    }
  }

  lemma FactoredAsGrids(original: seq<real>, m: seq<real>, n: nat, perm: seq<nat>, done: nat)
    requires |original| == n * n && |m| == n * n && done <= n
    requires IsPermutation(perm, n) && Factored(original, m, n, perm, done)
    ensures Splits(PermutedRows(original, n, perm), LowerFactor(m, n), UpperFactor(m, n), ResidueGrid(m, n, done), n, done)
  {
    forall i: nat, j: nat | i < n && j < n
      ensures PermutedRows(original, n, perm)[i][j]
           == Entry(LowerFactor(m, n)[i], UpperFactor(m, n), j, done) + ResidueGrid(m, n, done)[i][j]
    {
      ProductIsEntry(m, n, i, j, done);
    }
  }

  /** Permuting the rows of a system does not change what solves it. */
  lemma PermutedKernel(m: seq<real>, n: nat, perm: seq<nat>, x: seq<real>)
    requires |m| == n * n && IsPermutation(perm, n) && |x| == n
    ensures InKernel(PermutedRows(m, n, perm), n, x) <==> InKernel(Rows(m, n), n, x)
  {
    if InKernel(PermutedRows(m, n, perm), n, x) {
      forall r: nat | r < n
        ensures Dot(Rows(m, n)[r], x, n) == 0.0
      {
        PermutationReaches(perm, n, r);
        var i: nat :| i < n && perm[i] == r;
        assert PermutedRows(m, n, perm)[i] == Rows(m, n)[r];
      }
    }
  }

  /** An injection of 0..n into itself reaches everything. */
  lemma PermutationReaches(perm: seq<nat>, n: nat, r: nat)
    requires IsPermutation(perm, n) && r < n
    ensures exists i: nat | i < n :: perm[i] == r
  {
    if forall i: nat | i < n :: perm[i] != r {
      ImageSize(perm, n);
      ImageInside(perm, n, Below(n) - {r});
      SubsetSize(Image(perm, n), Below(n) - {r});
    }
  }

  function Image(perm: seq<nat>, upto: nat): set<nat>
    requires upto <= |perm|
  {
    if upto == 0 then {} else Image(perm, upto - 1) + {perm[upto - 1]}
  }

  lemma {:induction false} ImageInside(perm: seq<nat>, upto: nat, s: set<nat>)
    requires upto <= |perm| && forall i: nat | i < upto :: perm[i] in s
    ensures Image(perm, upto) <= s
  {
    if upto > 0 {
      ImageInside(perm, upto - 1, s);
    }
  }

  lemma {:induction false} ImageMisses(perm: seq<nat>, upto: nat, x: nat)
    requires upto <= |perm| && forall i: nat | i < upto :: perm[i] != x
    ensures x !in Image(perm, upto)
  {
    if upto > 0 {
      ImageMisses(perm, upto - 1, x);
    }
  }

  lemma {:induction false} ImageSize(perm: seq<nat>, upto: nat)
    requires upto <= |perm| && forall i: nat, j: nat | i < j < upto :: perm[i] != perm[j]
    ensures |Image(perm, upto)| == upto
  {
    if upto > 0 {
      ImageSize(perm, upto - 1);
      ImageMisses(perm, upto - 1, perm[upto - 1]);
    }
  }

  lemma {:induction false} SubsetSize(a: set<nat>, b: set<nat>)
    requires a <= b
    ensures |a| <= |b|
  {
    if a != {} {
      var e :| e in a;
      SubsetSize(a - {e}, b - {e});
    }
  }

  /** A step that finds no pivot is the input's fault: some nonzero vector is in its kernel. */
  lemma StuckMeansSingular(original: seq<real>, m: seq<real>, n: nat, perm: seq<nat>, k: nat)
    requires |original| == n * n && |m| == n * n && k < n
    requires IsPermutation(perm, n) && Factored(original, m, n, perm, k) && NoPivot(m, n, k)
    ensures Singular(Rows(original, n), n)
  {
    FactoredAsGrids(original, m, n, perm, k);
    var x := EmptyColumnHasKernel(PermutedRows(original, n, perm), LowerFactor(m, n), UpperFactor(m, n), ResidueGrid(m, n, k), n, k);
    PermutedKernel(original, n, perm, x);
  }

  /** The last step divides nothing, so a zero left in the corner is still a residue. */
  lemma LastStepIsResidue(original: seq<real>, m: seq<real>, n: nat, perm: seq<nat>)
    requires |original| == n * n && |m| == n * n && n > 0
    requires IsPermutation(perm, n) && Factored(original, m, n, perm, n)
    ensures Factored(original, m, n, perm, n - 1)
  {
    forall i: nat, j: nat | i < n && j < n
      ensures Cell(original, n, perm[i], j) == Product(m, n, i, j, n - 1) + Residue(m, n, n - 1, i, j)
    {
      assert Product(m, n, i, j, n) == Product(m, n, i, j, n - 1) + Lower(m, n, i, n - 1) * Upper(m, n, n - 1, j);
    }
  }

  /** All pivots nonzero leaves no nonzero vector in the kernel. */
  lemma PivotsMeanNonsingular(original: seq<real>, m: seq<real>, n: nat, perm: seq<nat>)
    requires |original| == n * n && |m| == n * n
    requires IsPermutation(perm, n) && Factored(original, m, n, perm, n)
    requires forall t: nat | t < n :: Cell(m, n, t, t) != 0.0
    ensures !Singular(Rows(original, n), n)
  {
    FactoredAsGrids(original, m, n, perm, n);
    forall x: seq<real> | |x| == n && InKernel(Rows(original, n), n, x)
      ensures Zero(x)
    {
      PermutedKernel(original, n, perm, x);
      TriangularKernelIsZero(PermutedRows(original, n, perm), LowerFactor(m, n), UpperFactor(m, n), ResidueGrid(m, n, n), n, x);
    }
  }

  method OffersPivot(matrix: array<real>, n: nat, step: nat) returns (offered: bool)
    requires matrix.Length == n * n && step < n
    ensures offered <==> !NoPivot(matrix[..], n, step)
  {
    for row := step to n
      invariant forall r: nat | step <= r < row :: Cell(matrix[..], n, r, step) == 0.0
    {
      if matrix[Index(n, row, step)] != 0.0 {
        assert Cell(matrix[..], n, row, step) != 0.0;
        return true;
      }
    }
    return false;
  }

  /** One step of both routines, and the order of the original rows it leaves the matrix in. */
  method EliminateStep(matrix: array<real>, n: nat, step: nat, ghost original: seq<real>, ghost perm: seq<nat>)
    returns (ghost perm': seq<nat>)
    requires matrix.Length == n * n && step < n && |original| == n * n
    requires step + 1 < n ==> !NoPivot(matrix[..], n, step)
    requires IsPermutation(perm, n) && Factored(original, matrix[..], n, perm, step) && PivotsNonzero(matrix[..], n, step)
    modifies matrix
    ensures IsPermutation(perm', n) && Factored(original, matrix[..], n, perm', step + 1)
    ensures PivotsNonzero(matrix[..], n, step + 1)
  {
    ghost var m := matrix[..];
    ghost var best := PivotRow(m, n, step, n);
    var pivot;
    ghost var swapped;
    pivot, swapped := PickAndScalePivot(matrix, n, step);
    ghost var scaled := matrix[..];
    ExchangeKeepsFactored(original, m, swapped, n, perm, step, best);
    perm' := SwapPerm(perm, step, best);
    ApplyPivotToRows(matrix, n, step, step + 1, n);
    StepKeepsFactored(original, swapped, scaled, matrix[..], n, perm', step, pivot);
    StepKeepsPivots(m, swapped, scaled, matrix[..], n, step, best, pivot);
  }

  /** The pivots of the finished steps. The last step of all divides nothing, so its pivot may be zero. */
  ghost predicate PivotsNonzero(m: seq<real>, n: nat, done: nat)
    requires |m| == n * n && done <= n
  {
    forall t: nat | t < done && t + 1 < n :: Cell(m, n, t, t) != 0.0
  }

  lemma StepKeepsPivots(m: seq<real>, swapped: seq<real>, scaled: seq<real>, m': seq<real>, n: nat, step: nat, best: nat, pivot: real)
    requires |m| == n * n && |swapped| == n * n && |scaled| == n * n && |m'| == n * n && step <= best < n
    requires PivotsNonzero(m, n, step) && RowsExchanged(m, swapped, n, step, best)
    requires pivot == Cell(swapped, n, step, step) && (step + 1 < n ==> pivot != 0.0)
    requires RowScaled(swapped, scaled, n, step, pivot) && RowsReduced(scaled, m', n, step, step + 1, n)
    ensures PivotsNonzero(m', n, step + 1)
  {
    forall t: nat | t < step + 1 && t + 1 < n
      ensures Cell(m', n, t, t) != 0.0
    {
      assert Cell(m', n, t, t) == Cell(scaled, n, t, t) == Cell(swapped, n, t, t);
    }
  }

  /** The input is singular exactly when some pivot, the last one included, is zero. */
  lemma PivotsDecideSingular(original: seq<real>, m: seq<real>, n: nat, perm: seq<nat>)
    requires |original| == n * n && |m| == n * n
    requires IsPermutation(perm, n) && Factored(original, m, n, perm, n) && PivotsNonzero(m, n, n)
    ensures (n > 0 ==> Cell(m, n, n - 1, n - 1) != 0.0) <==> !Singular(Rows(original, n), n)
  {
    if n > 0 && Cell(m, n, n - 1, n - 1) == 0.0 {
      LastStepIsResidue(original, m, n, perm);
      StuckMeansSingular(original, m, n, perm, n - 1);
    } else {
      PivotsMeanNonsingular(original, m, n, perm);
    }
  }

  /** P A = L U, entry by entry, once every step is done. */
  ghost predicate IsFactorization(original: seq<real>, m: seq<real>, n: nat, perm: seq<nat>)
    requires |original| == n * n && |m| == n * n && IsPermutation(perm, n)
  {
    forall i: nat, j: nat | i < n && j < n :: Cell(original, n, perm[i], j) == Product(m, n, i, j, n)
  }

  /**
   Both routines run for step 0, 1, 2, ... until a step that would have to divide finds no pivot.
   However far that gets, the packed matrix is a partial factorization of the row-permuted input.
   Run to the end it is P A = L U; and all its pivots are nonzero exactly when the input is
   nonsingular.
   */
  method Eliminate(matrix: array<real>, n: nat) returns (done: nat, ghost perm: seq<nat>)
    requires matrix.Length == n * n
    modifies matrix
    ensures done <= n && IsPermutation(perm, n)
    ensures Factored(old(matrix[..]), matrix[..], n, perm, done) && PivotsNonzero(matrix[..], n, done)
    ensures done < n ==> done + 1 < n && NoPivot(matrix[..], n, done)
    ensures done == n ==> IsFactorization(old(matrix[..]), matrix[..], n, perm)
    ensures (done == n && (n > 0 ==> Cell(matrix[..], n, n - 1, n - 1) != 0.0)) <==> !Singular(Rows(old(matrix[..]), n), n)
  {
    ghost var original := matrix[..];
    perm := seq(n, i requires 0 <= i < n => i);
    done := 0;
    while done < n
      invariant done <= n && IsPermutation(perm, n)
      invariant Factored(original, matrix[..], n, perm, done) && PivotsNonzero(matrix[..], n, done)
    {
      var offered := OffersPivot(matrix, n, done);
      if done + 1 < n && !offered {
        StuckMeansSingular(original, matrix[..], n, perm, done);
        return;
      }
      perm := EliminateStep(matrix, n, done, original, perm);
      done := done + 1;
    }
    PivotsDecideSingular(original, matrix[..], n, perm);
  }
}
