/**
 What a split of a square matrix into lower factor * unit upper factor + residue says about its
 kernel. The pivots an elimination meets are nonzero exactly when no nonzero vector is sent to zero.
 */
module TriangularSystems {
  import opened Reals

  type Grid = seq<seq<real>>

  predicate IsSquare(g: Grid, n: nat) {
    |g| == n && forall i: nat | i < n :: |g[i]| == n
  }

  function Dot(a: seq<real>, x: seq<real>, terms: nat): real
    requires terms <= |a| && terms <= |x|
  {
    if terms == 0 then 0.0 else Dot(a, x, terms - 1) + Mul(a[terms - 1], x[terms - 1])
  }

  /** The first `terms` terms of the row `l` times column j of u. */
  function Entry(l: seq<real>, u: Grid, j: nat, terms: nat): real
    requires terms <= |l| && terms <= |u| && forall t: nat | t < terms :: j < |u[t]|
  {
    if terms == 0 then 0.0 else Entry(l, u, j, terms - 1) + Mul(l[terms - 1], u[terms - 1][j])
  }

  /** The row `l` times the first `rows` rows of u, each times the first `terms` entries of x. */
  function RowThrough(l: seq<real>, u: Grid, x: seq<real>, rows: nat, terms: nat): real
    requires rows <= |l| && rows <= |u| && terms <= |x| && forall t: nat | t < rows :: terms <= |u[t]|
    decreases rows
  {
    if rows == 0 then 0.0 else RowThrough(l, u, x, rows - 1, terms) + Mul(l[rows - 1], Dot(u[rows - 1], x, terms))
  }

  ghost predicate InKernel(a: Grid, n: nat, x: seq<real>)
    requires IsSquare(a, n) && |x| == n
  {
    forall r: nat | r < n :: Dot(a[r], x, n) == 0.0
  }

  ghost predicate Zero(x: seq<real>) {
    forall j: nat | j < |x| :: x[j] == 0.0
  }

  /** Some nonzero vector is sent to zero. */
  ghost predicate Singular(a: Grid, n: nat)
    requires IsSquare(a, n)
  {
    exists x: seq<real> | |x| == n :: InKernel(a, n, x) && !Zero(x)
  }

  /** a is the product of the first k columns of l and rows of u, plus the residue r. */
  ghost predicate Splits(a: Grid, l: Grid, u: Grid, r: Grid, n: nat, k: nat)
    requires IsSquare(a, n) && IsSquare(l, n) && IsSquare(u, n) && IsSquare(r, n) && k <= n
  {
    forall i: nat, j: nat | i < n && j < n :: a[i][j] == Entry(l[i], u, j, k) + r[i][j]
  }

  ghost predicate UnitUpper(u: Grid, n: nat)
    requires IsSquare(u, n)
  {
    forall t: nat, j: nat | t < n && j <= t :: u[t][j] == if j == t then 1.0 else 0.0
  }

  // ----- changing the order of summation ---------------------------------------------------

  lemma DistributeTerm(l: real, y: real, u: real, v: real, p: real)
    ensures Mul(l, y + Mul(u, v)) == Mul(l, y) + Mul(Mul(l, u), v)
    ensures Mul(p + Mul(l, u), v) == Mul(p, v) + Mul(Mul(l, u), v)
  {
    MulOfSum(y, Mul(u, v), l);
    MulOfSum(p, Mul(l, u), v);
    assert l * (u * v) == (l * u) * v;
  }

  lemma {:induction false} RowThroughExtend(l: seq<real>, u: Grid, x: seq<real>, rows: nat, terms: nat)
    requires rows <= |l| && rows <= |u| && terms < |x| && forall t: nat | t < rows :: terms < |u[t]|
    ensures RowThrough(l, u, x, rows, terms + 1) == RowThrough(l, u, x, rows, terms) + Mul(Entry(l, u, terms, rows), x[terms])
  {
    if rows == 0 {
      MulByZero(x[terms]);
    } else {
      RowThroughExtend(l, u, x, rows - 1, terms);
      DistributeTerm(l[rows - 1], Dot(u[rows - 1], x, terms), u[rows - 1][terms], x[terms], Entry(l, u, terms, rows - 1));
    }
  }

  lemma {:induction false} RowThroughNothing(l: seq<real>, u: Grid, x: seq<real>, rows: nat)
    requires rows <= |l| && rows <= |u|
    ensures RowThrough(l, u, x, rows, 0) == 0.0
  {
    if rows > 0 {
      RowThroughNothing(l, u, x, rows - 1);
      MulByZero(l[rows - 1]);
    }
  }

  lemma {:induction false} RowTimesVector(a: seq<real>, l: seq<real>, u: Grid, r: seq<real>, n: nat, k: nat, x: seq<real>, terms: nat)
    requires |a| == n && |l| == n && IsSquare(u, n) && |r| == n && |x| == n && k <= n && terms <= n
    requires forall j: nat | j < n :: a[j] == Entry(l, u, j, k) + r[j]
    ensures Dot(a, x, terms) == RowThrough(l, u, x, k, terms) + Dot(r, x, terms)
  {
    if terms == 0 {
      RowThroughNothing(l, u, x, k);
    } else {
      RowTimesVector(a, l, u, r, n, k, x, terms - 1);
      RowThroughExtend(l, u, x, k, terms - 1);
      MulOfSum(Entry(l, u, terms - 1, k), r[terms - 1], x[terms - 1]);
    }
  }

  lemma {:induction false} ThroughZeroRows(l: seq<real>, u: Grid, x: seq<real>, rows: nat, terms: nat)
    requires rows <= |l| && rows <= |u| && terms <= |x| && forall t: nat | t < rows :: terms <= |u[t]|
    requires forall t: nat | t < rows :: Dot(u[t], x, terms) == 0.0
    ensures RowThrough(l, u, x, rows, terms) == 0.0
  {
    if rows > 0 {
      ThroughZeroRows(l, u, x, rows - 1, terms);
      MulByZero(l[rows - 1]);
    }
  }

  // ----- an empty column leaves a nonzero kernel -------------------------------------------

  lemma {:induction false} DotUpdate(a: seq<real>, x: seq<real>, j: nat, v: real, terms: nat)
    requires |a| == |x| && j < |x| && terms <= |x|
    ensures Dot(a, x[j := v], terms) == Dot(a, x, terms) + (if j < terms then Mul(a[j], v - x[j]) else 0.0)
  {
    if terms > 0 {
      DotUpdate(a, x, j, v, terms - 1);
      if j == terms - 1 {
        MulOfDifference(a[j], v, x[j]);
      }
    }
  }

  /** The unit vector of column k, solved backwards against rows from..k of the unit upper factor. */
  function BackSolved(u: Grid, n: nat, k: nat, from: nat): (x: seq<real>)
    requires IsSquare(u, n) && from <= k < n
    ensures |x| == n
    decreases k - from
  {
    if from == k then seq(n, j => if j == k then 1.0 else 0.0)
    else
      var x := BackSolved(u, n, k, from + 1);
      x[from := -Dot(u[from], x, n)]
  }

  lemma {:induction false} UnitVectorDot(a: seq<real>, x: seq<real>, k: nat, terms: nat)
    requires |a| == |x| && terms <= |x| && k < |x|
    requires forall j: nat | j < |x| :: x[j] == if j == k then 1.0 else 0.0
    ensures Dot(a, x, terms) == if k < terms then a[k] else 0.0
  {
    if terms > 0 {
      UnitVectorDot(a, x, k, terms - 1);
      MulByZero(a[terms - 1]);
    }
  }

  lemma {:induction false} BackSolvedSolves(u: Grid, n: nat, k: nat, from: nat)
    requires IsSquare(u, n) && UnitUpper(u, n) && from <= k < n
    ensures BackSolved(u, n, k, from)[k] == 1.0
    ensures forall j: nat | j < n && (j < from || k < j) :: BackSolved(u, n, k, from)[j] == 0.0
    ensures forall t: nat | from <= t < k :: Dot(u[t], BackSolved(u, n, k, from), n) == 0.0
    decreases k - from
  {
    if from < k {
      BackSolvedSolves(u, n, k, from + 1);
      var x := BackSolved(u, n, k, from + 1);
      forall t: nat | from <= t < k
        ensures Dot(u[t], BackSolved(u, n, k, from), n) == 0.0
      {
        var v := -Dot(u[from], x, n);
        DotUpdate(u[t], x, from, v, n);
        MulByZero(v - x[from]);
      }
    }
  }

  lemma {:induction false} ZeroTermsDot(a: seq<real>, x: seq<real>, terms: nat)
    requires |a| == |x| && terms <= |x|
    requires forall j: nat | j < terms :: a[j] == 0.0 || x[j] == 0.0
    ensures Dot(a, x, terms) == 0.0
  {
    if terms > 0 {
      ZeroTermsDot(a, x, terms - 1);
      MulByZero(a[terms - 1]);
      MulByZero(x[terms - 1]);
    }
  }

  lemma EmptyColumnHasKernel(a: Grid, l: Grid, u: Grid, r: Grid, n: nat, k: nat) returns (x: seq<real>)
    requires IsSquare(a, n) && IsSquare(l, n) && IsSquare(u, n) && IsSquare(r, n) && k < n
    requires Splits(a, l, u, r, n, k) && UnitUpper(u, n)
    requires forall i: nat, j: nat | i < n && j <= k :: r[i][j] == 0.0
    ensures |x| == n && InKernel(a, n, x) && !Zero(x)
  {
    x := BackSolved(u, n, k, 0);
    BackSolvedSolves(u, n, k, 0);
    forall i: nat | i < n
      ensures Dot(a[i], x, n) == 0.0
    {
      RowTimesVector(a[i], l[i], u, r[i], n, k, x, n);
      ThroughZeroRows(l[i], u, x, k, n);
      ZeroTermsDot(r[i], x, n);
    }
  }

  // ----- nonzero pivots leave nothing but zero ---------------------------------------------

  lemma {:induction false} ThroughLowerStops(l: seq<real>, u: Grid, x: seq<real>, n: nat, i: nat, rows: nat)
    requires |l| == n && IsSquare(u, n) && |x| == n && i < rows <= n
    requires forall t: nat | i < t < n :: l[t] == 0.0
    ensures RowThrough(l, u, x, rows, n) == RowThrough(l, u, x, i, n) + Mul(l[i], Dot(u[i], x, n))
  {
    if rows > i + 1 {
      ThroughLowerStops(l, u, x, n, i, rows - 1);
      MulByZero(Dot(u[rows - 1], x, n));
    }
  }

  /** Forward substitution: with nonzero pivots L y = 0 leaves only y = 0. */
  lemma {:induction false} ForwardSubstitution(l: Grid, u: Grid, n: nat, x: seq<real>, upto: nat)
    requires IsSquare(l, n) && IsSquare(u, n) && |x| == n && upto <= n
    requires forall i: nat, t: nat | i < t < n :: l[i][t] == 0.0
    requires forall t: nat | t < n :: l[t][t] != 0.0
    requires forall i: nat | i < n :: RowThrough(l[i], u, x, n, n) == 0.0
    ensures forall t: nat | t < upto :: Dot(u[t], x, n) == 0.0
  {
    if upto > 0 {
      var i := upto - 1;
      ForwardSubstitution(l, u, n, x, i);
      ThroughLowerStops(l[i], u, x, n, i, n);
      ThroughZeroRows(l[i], u, x, i, n);
      MulIsZero(l[i][i], Dot(u[i], x, n));
    }
  }

  /** With zeros right of column t, row t of the unit upper factor reads off x[t]. */
  lemma {:induction false} DotReadsDiagonal(a: seq<real>, t: nat, x: seq<real>, terms: nat)
    requires |a| == |x| && t < |x| && terms <= |x| && a[t] == 1.0
    requires forall j: nat | j < |x| && j != t :: a[j] == 0.0 || x[j] == 0.0
    ensures Dot(a, x, terms) == if t < terms then x[t] else 0.0
  {
    if terms > 0 {
      DotReadsDiagonal(a, t, x, terms - 1);
      MulByZero(a[terms - 1]);
      MulByZero(x[terms - 1]);
    }
  }

  lemma {:induction false} BackSubstitution(u: Grid, n: nat, x: seq<real>, from: nat)
    requires IsSquare(u, n) && UnitUpper(u, n) && |x| == n && from <= n
    requires forall t: nat | t < n :: Dot(u[t], x, n) == 0.0
    ensures forall j: nat | from <= j < n :: x[j] == 0.0
    decreases n - from
  {
    if from < n {
      BackSubstitution(u, n, x, from + 1);
      DotReadsDiagonal(u[from], from, x, n);
    }
  }

  lemma TriangularKernelIsZero(a: Grid, l: Grid, u: Grid, r: Grid, n: nat, x: seq<real>)
    requires IsSquare(a, n) && IsSquare(l, n) && IsSquare(u, n) && IsSquare(r, n)
    requires Splits(a, l, u, r, n, n) && UnitUpper(u, n)
    requires forall i: nat, t: nat | i < t < n :: l[i][t] == 0.0
    requires forall t: nat | t < n :: l[t][t] != 0.0
    requires forall i: nat, j: nat | i < n && j < n :: r[i][j] == 0.0
    requires |x| == n && InKernel(a, n, x)
    ensures Zero(x)
  {
    forall i: nat | i < n
      ensures RowThrough(l[i], u, x, n, n) == 0.0
    {
      RowTimesVector(a[i], l[i], u, r[i], n, n, x, n);
      ZeroTermsDot(r[i], x, n);
    }
    ForwardSubstitution(l, u, n, x, n);
    BackSubstitution(u, n, x, 0);
  }
}
