/** The BLAS-like primitives the two blocked drivers call (Gemm, Trsm, DiagonalSolve,
    Trrk, Herk), stated as functions on matrix values over the reals, where the
    adjoint of a matrix is its transpose. */
module BlasLike {
  import opened Matrices

  /** sum_{q < m} x[q] * y[q]. */
  function RowDot(x: seq<real>, y: seq<real>, m: nat): real
    requires m <= |x| && m <= |y|
  {
    if m == 0 then 0.0 else RowDot(x, y, m - 1) + x[m - 1] * y[m - 1]
  }

  /** The inner product of two rows of equal length. */
  function Dot(x: seq<real>, y: seq<real>): real
    requires |x| == |y|
  {
    RowDot(x, y, |x|)
  }

  /** sum_{q < m} x[q] * X[q][c]: the row x times column c of X, over the first m terms. */
  function ColDot(x: seq<real>, X: Mat, c: nat, m: nat): real
    requires m <= |x| && m <= |X| && forall q :: 0 <= q < m ==> c < |X[q]|
  {
    if m == 0 then 0.0 else ColDot(x, X, c, m - 1) + x[m - 1] * X[m - 1][c]
  }

  /** ColDot reads only the first m entries of x and of column c of X. */
  lemma {:induction false} ColDotPrefix(x: seq<real>, X: Mat, x': seq<real>, X': Mat, c: nat, m: nat)
    requires m <= |x| && m <= |X| && forall q :: 0 <= q < m ==> c < |X[q]|
    requires m <= |x'| && m <= |X'| && forall q :: 0 <= q < m ==> c < |X'[q]|
    requires forall q :: 0 <= q < m ==> x[q] == x'[q] && X[q][c] == X'[q][c]
    ensures ColDot(x, X, c, m) == ColDot(x', X', c, m)
  {
    if m > 0 {
      ColDotPrefix(x, X, x', X', c, m - 1);
    }
  }

  /** The transpose (over the reals, the adjoint) of an h-by-w matrix. */
  function Transpose(X: Mat, h: nat, w: nat): (T: Mat)
    requires IsMat(X, h, w)
    ensures IsMat(T, w, h)
    ensures forall r, c :: 0 <= r < w && 0 <= c < h ==> T[r][c] == X[c][r]
  {
    seq(w, r requires 0 <= r < w => seq(h, c requires 0 <= c < h => X[c][r]))
  }

  /** Multiplying by a column of the transpose is multiplying by a row. */
  lemma {:induction false} ColDotTranspose(x: seq<real>, Y: Mat, h: nat, w: nat, r: nat, m: nat)
    requires IsMat(Y, h, w) && r < h && m <= w && m <= |x|
    ensures ColDot(x, Transpose(Y, h, w), r, m) == RowDot(Y[r], x, m)
  {
    if m > 0 {
      ColDotTranspose(x, Y, h, w, r, m - 1);
    }
  }

  /** Gemm(NORMAL, NORMAL): the product of an h-by-m and an m-by-w matrix. */
  function Product(X: Mat, Y: Mat, h: nat, m: nat, w: nat): (P: Mat)
    requires IsMat(X, h, m) && IsMat(Y, m, w)
    ensures IsMat(P, h, w)
    ensures forall r, c :: 0 <= r < h && 0 <= c < w ==> P[r][c] == ColDot(X[r], Y, c, m)
  {
    seq(h, r requires 0 <= r < h => seq(w, c requires 0 <= c < w => ColDot(X[r], Y, c, m)))
  }

  /** C - D, entry by entry. */
  function Minus(C: Mat, D: Mat, h: nat, w: nat): (R: Mat)
    requires IsMat(C, h, w) && IsMat(D, h, w)
    ensures IsMat(R, h, w)
    ensures forall r, c :: 0 <= r < h && 0 <= c < w ==> R[r][c] + D[r][c] == C[r][c]
  {
    seq(h, r requires 0 <= r < h => seq(w, c requires 0 <= c < w => C[r][c] - D[r][c]))
  }

  /** The diagonal entry a triangular solve divides by in row i. */
  function SolvePivot(L: Mat, i: nat, unit: bool): real
    requires i < |L| && i < |L[i]|
  {
    if unit then 1.0 else L[i][i]
  }

  /** L is n-by-n and, unless its diagonal is implicitly one, has no zero on its diagonal. */
  predicate Solvable(L: Mat, n: nat, unit: bool) {
    IsSquare(L, n) && (!unit ==> forall i :: 0 <= i < n ==> L[i][i] != 0.0)
  }

  /** The first m rows of the solution X of tril(L) X = B, by forward substitution. */
  function ForwardRows(L: Mat, B: Mat, n: nat, w: nat, unit: bool, m: nat): (X: Mat)
    requires Solvable(L, n, unit) && IsMat(B, n, w) && m <= n
    ensures IsMat(X, m, w)
  {
    if m == 0 then []
    else
      var X' := ForwardRows(L, B, n, w, unit, m - 1);
      X' + [seq(w, c requires 0 <= c < w =>
                  (B[m - 1][c] - ColDot(L[m - 1], X', c, m - 1)) / SolvePivot(L, m - 1, unit))]
  }

  /** Row i, once computed, is not changed by the later rows. */
  lemma {:induction false} ForwardRowsPrefix(L: Mat, B: Mat, n: nat, w: nat, unit: bool, m: nat, i: nat)
    requires Solvable(L, n, unit) && IsMat(B, n, w) && i < m <= n
    ensures ForwardRows(L, B, n, w, unit, m)[i] == ForwardRows(L, B, n, w, unit, i + 1)[i]
  {
    if m > i + 1 {
      ForwardRowsPrefix(L, B, n, w, unit, m - 1, i);
    }
  }

  /** Trsm(LEFT, LOWER, NORMAL, unit?): the X with tril(L) X = B, where the diagonal
      of tril(L) is one when unit holds and L's own diagonal otherwise; the
      strictly upper part of L is never read. */
  function ForwardSolve(L: Mat, B: Mat, n: nat, w: nat, unit: bool): (X: Mat)
    requires Solvable(L, n, unit) && IsMat(B, n, w)
    ensures IsMat(X, n, w)
    ensures forall i, c {:trigger B[i][c]} :: 0 <= i < n && 0 <= c < w ==>
      ColDot(L[i], X, c, i) + SolvePivot(L, i, unit) * X[i][c] == B[i][c]
  {
    var X := ForwardRows(L, B, n, w, unit, n);
    ForwardSolveRows(L, B, n, w, unit, X);
    X
  }

  /** Row i of the forward substitution satisfies row i of tril(L) X = B. */
  lemma ForwardSolveRows(L: Mat, B: Mat, n: nat, w: nat, unit: bool, X: Mat)
    requires Solvable(L, n, unit) && IsMat(B, n, w)
    requires X == ForwardRows(L, B, n, w, unit, n)
    ensures forall i, c {:trigger B[i][c]} :: 0 <= i < n && 0 <= c < w ==>
      ColDot(L[i], X, c, i) + SolvePivot(L, i, unit) * X[i][c] == B[i][c]
  {
    forall i, c | 0 <= i < n && 0 <= c < w
      ensures ColDot(L[i], X, c, i) + SolvePivot(L, i, unit) * X[i][c] == B[i][c]
    {
      var Xi := ForwardRows(L, B, n, w, unit, i);
      assert ForwardRows(L, B, n, w, unit, i + 1) == Xi + [ForwardRows(L, B, n, w, unit, i + 1)[i]];
      ForwardRowsPrefix(L, B, n, w, unit, n, i);
      forall q | 0 <= q < i
        ensures X[q][c] == Xi[q][c]
      {
        ForwardRowsPrefix(L, B, n, w, unit, n, q);
        ForwardRowsPrefix(L, B, n, w, unit, i, q);
      }
      ColDotPrefix(L[i], X, L[i], Xi, c, i);
      var p := SolvePivot(L, i, unit);
      assert X[i][c] == (B[i][c] - ColDot(L[i], Xi, c, i)) / p;
    }
  }

  /** Trsm(RIGHT, LOWER, ADJOINT, UNIT, 1, L, B): the X with X tril1(L)^H = B, where
      tril1(L) is the unit lower triangle of the nb-by-nb L and B is m-by-nb. */
  function TrsmRightLowerAdjointUnit(L: Mat, B: Mat, nb: nat, m: nat): (X: Mat)
    requires IsSquare(L, nb) && IsMat(B, m, nb)
    ensures IsMat(X, m, nb)
    ensures forall r, c {:trigger B[r][c]} :: 0 <= r < m && 0 <= c < nb ==> RowDot(X[r], L[c], c) + X[r][c] == B[r][c]
  {
    var BT := Transpose(B, m, nb);
    var XT := ForwardSolve(L, BT, nb, m, true);
    var X := Transpose(XT, nb, m);
    assert forall r, c :: 0 <= r < m && 0 <= c < nb ==> RowDot(X[r], L[c], c) + X[r][c] == B[r][c] by {
      forall r, c | 0 <= r < m && 0 <= c < nb
        ensures RowDot(X[r], L[c], c) + X[r][c] == B[r][c]
      {
        ColDotTranspose(L[c], X, m, nb, r, c);
        assert Transpose(X, m, nb) == XT by {
          MatEq(Transpose(X, m, nb), XT, nb, m);
        }
        RowDotCommutes(X[r], L[c], c);
        assert BT[c][r] == B[r][c];
      }
    }
    X
  }

  /** The terms of RowDot commute. */
  lemma {:induction false} RowDotCommutes(x: seq<real>, y: seq<real>, m: nat)
    requires m <= |x| && m <= |y|
    ensures RowDot(x, y, m) == RowDot(y, x, m)
  {
    if m > 0 {
      RowDotCommutes(x, y, m - 1);
    }
  }

  /** DiagonalSolve(RIGHT, NORMAL, d, B): the X with X diag(d) = B. */
  function DiagonalSolveRight(d: seq<real>, B: Mat, m: nat, nb: nat): (X: Mat)
    requires |d| == nb && IsMat(B, m, nb)
    requires forall c :: 0 <= c < nb ==> d[c] != 0.0
    ensures IsMat(X, m, nb)
    ensures forall r, c :: 0 <= r < m && 0 <= c < nb ==> X[r][c] * d[c] == B[r][c]
  {
    seq(m, r requires 0 <= r < m => seq(nb, c requires 0 <= c < nb => B[r][c] / d[c]))
  }

  /** Trrk(LOWER, NORMAL, ADJOINT, -1, X, Y, 1, C): C - X Y^H on and below the
      diagonal of the m-by-m C; the strictly upper triangle is left as it was. This is
      the reference definition of the BLAS-like primitive: its contract is the defining
      formula, and nothing further is proved about it. */
  function TrrkLower(C: Mat, X: Mat, Y: Mat, m: nat, nb: nat): (R: Mat)
    requires IsSquare(C, m) && IsMat(X, m, nb) && IsMat(Y, m, nb)
    ensures IsSquare(R, m)
    ensures forall r, c :: 0 <= r < c < m ==> R[r][c] == C[r][c]
    ensures forall r, c :: 0 <= c <= r < m ==> R[r][c] + Dot(X[r], Y[c]) == C[r][c]
  {
    seq(m, r requires 0 <= r < m => seq(m, c requires 0 <= c < m =>
      if c <= r then C[r][c] - Dot(X[r], Y[c]) else C[r][c]))
  }

  /** Herk(LOWER, NORMAL, 1, V, S) into a fresh S: the lower triangle of V V^H,
      zeros strictly above the diagonal. This is the reference definition of the
      BLAS-like primitive: its contract is the defining formula, and nothing further is
      proved about it. */
  function HerkLower(V: Mat, nb: nat, w: nat): (S: Mat)
    requires IsMat(V, nb, w)
    ensures IsSquare(S, nb)
    ensures forall i, j :: 0 <= j <= i < nb ==> S[i][j] == Dot(V[i], V[j])
    ensures forall i, j :: 0 <= i < j < nb ==> S[i][j] == 0.0
  {
    seq(nb, i requires 0 <= i < nb => seq(nb, j requires 0 <= j < nb =>
      if j <= i then Dot(V[i], V[j]) else 0.0))
  }

  /** q == x / d gives q * d == x. */
  lemma Unscale(x: real, d: real, q: real)
    requires d != 0.0 && q == x / d
    ensures q * d == x
  {
  }

  /** x[q] * (a - y * s) == x[q] * a - s * (x[q] * y), for the step of ColDotShift. */
  lemma ShiftTerm(x: real, a: real, y: real, s: real)
    ensures x * (a - y * s) == x * a - s * (x * y)
  {
  }

  /** Subtracting s times the column y from column c of A subtracts s (x . y) from
      x times that column. */
  lemma {:induction false} ColDotShift(x: seq<real>, A: Mat, B: Mat, y: seq<real>, s: real, c: nat, m: nat)
    requires m <= |x| && m <= |y| && m <= |A| && m <= |B|
    requires forall q :: 0 <= q < m ==> c < |A[q]| && c < |B[q]| && B[q][c] == A[q][c] - y[q] * s
    ensures ColDot(x, B, c, m) == ColDot(x, A, c, m) - s * RowDot(x, y, m)
  {
    if m > 0 {
      ColDotShift(x, A, B, y, s, c, m - 1);
      ShiftTerm(x[m - 1], A[m - 1][c], y[m - 1], s);
    }
  }
}
