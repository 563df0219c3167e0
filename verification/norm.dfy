/** HermitianEntrywiseOneNorm, serial overload: the entrywise one-norm of a Hermitian
    matrix computed from one triangle, each off-diagonal entry standing for itself and
    its mirror image. As written, the loops visit only the strict triangle, so the
    diagonal is never counted; the corrected variant visits the diagonal too and is the
    entrywise one-norm of the whole matrix. */
module HermitianNorm {
  import opened Wrappers
  import opened Matrices

  /** Which triangle of the matrix holds the data. */
  datatype UpperOrLower = Upper | Lower

  /** The logic error the norm reports. */
  datatype LogicError = NotSquare

  function Abs(x: real): (y: real)
    ensures y >= 0.0 && (y == x || y == -x)
  {
    if x >= 0.0 then x else -x
  }

  /** What the loop body adds for entry (i, j) of magnitude alpha: alpha on the
      diagonal, 2 alpha off it. */
  function Contribution(i: int, j: int, alpha: real): real {
    if i == j then alpha else 2.0 * alpha
  }

  /** The sum of Contribution(i, j, |a(i, j)|) over the rows i in [lo, hi) of column j. */
  function ColumnSum(a: Mat, n: nat, j: nat, lo: nat, hi: nat): (s: real)
    requires IsSquare(a, n) && j < n && hi <= n
    ensures s >= 0.0
    decreases hi
  {
    if hi <= lo then 0.0
    else ColumnSum(a, n, j, lo, hi - 1) + Contribution(hi - 1, j, Abs(a[hi - 1][j]))
  }

  /** The first row the loops visit in column j. */
  function FirstRow(uplo: UpperOrLower, j: nat, diagonal: bool): nat {
    if uplo == Upper then 0 else if diagonal then j else j + 1
  }

  /** One past the last row the loops visit in column j when the matrix has m rows. */
  function EndRow(uplo: UpperOrLower, m: nat, j: nat, diagonal: bool): nat {
    if uplo == Upper then (if diagonal then j + 1 else j) else m
  }

  /** The visits of the first w columns of the leading m-by-m block of a, the diagonal
      included only when `diagonal` holds. */
  function TriangleSum(uplo: UpperOrLower, a: Mat, n: nat, m: nat, w: nat, diagonal: bool): (s: real)
    requires IsSquare(a, n) && w <= m <= n
    ensures s >= 0.0
  {
    if w == 0 then 0.0
    else
      TriangleSum(uplo, a, n, m, w - 1, diagonal) +
      ColumnSum(a, n, w - 1, FirstRow(uplo, w - 1, diagonal), EndRow(uplo, m, w - 1, diagonal))
  }

  /** The value the norm loops compute on the n-by-n matrix a. */
  function TriangleNorm(uplo: UpperOrLower, a: Mat, n: nat, diagonal: bool): (r: real)
    requires IsSquare(a, n)
    ensures r >= 0.0
  {
    TriangleSum(uplo, a, n, n, n, diagonal)
  }

  /** A matrix of order 0 or 1 has no off-diagonal entry: the norm as written is 0. */
  lemma TinyNormIsZero(uplo: UpperOrLower, a: Mat, n: nat)
    requires IsSquare(a, n) && n <= 1
    ensures TriangleNorm(uplo, a, n, false) == 0.0
  {
    if n == 1 {
      assert TriangleSum(uplo, a, n, n, 1, false) == TriangleSum(uplo, a, n, n, 0, false) + ColumnSum(a, n, 0, FirstRow(uplo, 0, false), EndRow(uplo, n, 0, false));
    }
  }

  /** Adding column j to the sum adds the visits of that column. */
  lemma TriangleSumNext(uplo: UpperOrLower, a: Mat, n: nat, j: nat, diagonal: bool)
    requires IsSquare(a, n) && j < n
    ensures FirstRow(uplo, j, diagonal) <= EndRow(uplo, n, j, diagonal) <= n
    ensures TriangleSum(uplo, a, n, n, j + 1, diagonal) ==
      TriangleSum(uplo, a, n, n, j, diagonal) + ColumnSum(a, n, j, FirstRow(uplo, j, diagonal), EndRow(uplo, n, j, diagonal))
  {
  }

  /** Row i, column j lies in the triangle the loops visit. */
  predicate InTriangle(uplo: UpperOrLower, i: int, j: int, diagonal: bool) {
    if uplo == Upper then (if diagonal then i <= j else i < j) else (if diagonal then i >= j else i > j)
  }

  /** The inner loop: the visits of rows [lo, hi) of column j of the square A. */
  method SumColumn(A: array2<real>, j: nat, lo: nat, hi: nat) returns (s: real)
    requires A.Length0 == A.Length1 && j < A.Length0 && lo <= hi <= A.Length0
    ensures s == ColumnSum(Snapshot(A), A.Length0, j, lo, hi)
  {
    ghost var a := Snapshot(A);
    s := 0.0;
    var i := lo;
    while i < hi
      invariant lo <= i <= hi
      invariant s == ColumnSum(a, A.Length0, j, lo, i)
    {
      var alpha := Abs(A[i, j]);
      s := s + Contribution(i, j, alpha);
      i := i + 1;
    }
  }

  /** The loops over the triangle of the square A: the result is TriangleNorm. A is only
      read. */
  method SumTriangle(uplo: UpperOrLower, A: array2<real>, diagonal: bool) returns (norm: real)
    requires A.Length0 == A.Length1
    ensures norm == TriangleNorm(uplo, Snapshot(A), A.Length0, diagonal)
  {
    ghost var a := Snapshot(A);
    var height := A.Length0;
    var width := A.Length1;
    norm := 0.0;
    var j := 0;
    while j < width
      invariant j <= width
      invariant norm == TriangleSum(uplo, a, height, height, j, diagonal)
    {
      var lo, hi := FirstRow(uplo, j, diagonal), EndRow(uplo, height, j, diagonal);
      var column := SumColumn(A, j, lo, hi);
      assert norm + column == TriangleSum(uplo, a, height, height, j + 1, diagonal) by {
        TriangleSumNext(uplo, a, height, j, diagonal);
      }
      norm := norm + column;
      j := j + 1;
    }
  }

  /** HermitianEntrywiseOneNorm(uplo, A) as written: a logic error unless A is square,
      otherwise the weighted sum over the strict triangle `uplo`. */
  method HermitianEntrywiseOneNorm(uplo: UpperOrLower, A: array2<real>) returns (res: Result<real, LogicError>)
    ensures res.Failure? <==> A.Length0 != A.Length1
    ensures res.Failure? ==> res.error == NotSquare
    ensures res.Success? ==> res.value == TriangleNorm(uplo, Snapshot(A), A.Length0, false)
  {
    if A.Length0 != A.Length1 {
      return Failure(NotSquare);
    }
    var norm := SumTriangle(uplo, A, false);
    return Success(norm);
  }

  /** HermitianEntrywiseOneNorm(uplo, A) with the diagonal counted once, as the
      distributed overload does. */
  method HermitianEntrywiseOneNormCorrected(uplo: UpperOrLower, A: array2<real>) returns (res: Result<real, LogicError>)
    ensures res.Failure? <==> A.Length0 != A.Length1
    ensures res.Failure? ==> res.error == NotSquare
    ensures res.Success? ==> res.value == TriangleNorm(uplo, Snapshot(A), A.Length0, true)
  {
    if A.Length0 != A.Length1 {
      return Failure(NotSquare);
    }
    var norm := SumTriangle(uplo, A, true);
    return Success(norm);
  }

  /** ColumnSum reads only the magnitudes of the rows it visits. */
  lemma {:induction false} ColumnSumCongruent(a: Mat, b: Mat, n: nat, j: nat, lo: nat, hi: nat)
    requires IsSquare(a, n) && IsSquare(b, n) && j < n && hi <= n
    requires forall i :: lo <= i < hi ==> Abs(a[i][j]) == Abs(b[i][j])
    ensures ColumnSum(a, n, j, lo, hi) == ColumnSum(b, n, j, lo, hi)
    decreases hi
  {
    if lo < hi {
      ColumnSumCongruent(a, b, n, j, lo, hi - 1);
    }
  }

  /** TriangleSum reads only the magnitudes of the entries in the triangle. */
  lemma {:induction false} TriangleSumCongruent(uplo: UpperOrLower, a: Mat, b: Mat, n: nat, m: nat, w: nat, diagonal: bool)
    requires IsSquare(a, n) && IsSquare(b, n) && w <= m <= n
    requires forall i, j :: 0 <= i < n && 0 <= j < n && InTriangle(uplo, i, j, diagonal) ==> Abs(a[i][j]) == Abs(b[i][j])
    ensures TriangleSum(uplo, a, n, m, w, diagonal) == TriangleSum(uplo, b, n, m, w, diagonal)
  {
    if w > 0 {
      TriangleSumCongruent(uplo, a, b, n, m, w - 1, diagonal);
      var j := w - 1;
      forall i | FirstRow(uplo, j, diagonal) <= i < EndRow(uplo, m, j, diagonal)
        ensures Abs(a[i][j]) == Abs(b[i][j])
      {
        assert InTriangle(uplo, i, j, diagonal);
      }
      ColumnSumCongruent(a, b, n, j, FirstRow(uplo, j, diagonal), EndRow(uplo, m, j, diagonal));
    }
  }

  /** The norm does not depend on the entries outside the triangle it reads, nor on
      their signs. */
  lemma NormIgnoresOtherTriangle(uplo: UpperOrLower, a: Mat, b: Mat, n: nat, diagonal: bool)
    requires IsSquare(a, n) && IsSquare(b, n)
    requires forall i, j :: 0 <= i < n && 0 <= j < n && InTriangle(uplo, i, j, diagonal) ==> Abs(a[i][j]) == Abs(b[i][j])
    ensures TriangleNorm(uplo, a, n, diagonal) == TriangleNorm(uplo, b, n, diagonal)
  {
    TriangleSumCongruent(uplo, a, b, n, n, n, diagonal);
  }

  /** The entries of a mirror each other in magnitude, as those of a Hermitian matrix do. */
  predicate MirroredMagnitudes(a: Mat, n: nat)
    requires IsSquare(a, n)
  {
    forall i, j :: 0 <= i < n && 0 <= j < n ==> Abs(a[i][j]) == Abs(a[j][i])
  }

  /** The upper triangle's sum does not depend on the number of rows considered. */
  lemma {:induction false} UpperIgnoresHeight(a: Mat, n: nat, m: nat, m': nat, w: nat, diagonal: bool)
    requires IsSquare(a, n) && w <= m <= n && w <= m' <= n
    ensures TriangleSum(Upper, a, n, m, w, diagonal) == TriangleSum(Upper, a, n, m', w, diagonal)
  {
    if w > 0 {
      UpperIgnoresHeight(a, n, m, m', w - 1, diagonal);
    }
  }

  /** sum_{j < w} Contribution(k, j, |a(k, j)|): row k over its first w columns. */
  function RowSum(a: Mat, n: nat, k: nat, w: nat): real
    requires IsSquare(a, n) && k < n && w <= n
  {
    if w == 0 then 0.0 else RowSum(a, n, k, w - 1) + Contribution(k, w - 1, Abs(a[k][w - 1]))
  }

  /** Adding row k to the leading block adds row k's part of the lower triangle. */
  lemma {:induction false} LowerGrows(a: Mat, n: nat, k: nat, w: nat, diagonal: bool)
    requires IsSquare(a, n) && w <= k < n
    ensures TriangleSum(Lower, a, n, k + 1, w, diagonal) == TriangleSum(Lower, a, n, k, w, diagonal) + RowSum(a, n, k, w)
  {
    if w > 0 {
      LowerGrows(a, n, k, w - 1, diagonal);
    }
  }

  /** With mirrored magnitudes, row k left of the diagonal sums like column k above it. */
  lemma {:induction false} RowIsColumn(a: Mat, n: nat, k: nat, w: nat)
    requires IsSquare(a, n) && MirroredMagnitudes(a, n) && w <= k < n
    ensures RowSum(a, n, k, w) == ColumnSum(a, n, k, 0, w)
  {
    if w > 0 {
      RowIsColumn(a, n, k, w - 1);
      assert Abs(a[k][w - 1]) == Abs(a[w - 1][k]);
    }
  }

  /** On the leading k-by-k block, with mirrored magnitudes, the upper and the lower
      triangle sum alike. */
  lemma {:induction false} UpperEqualsLowerUpTo(a: Mat, n: nat, k: nat, diagonal: bool)
    requires IsSquare(a, n) && MirroredMagnitudes(a, n) && k <= n
    ensures TriangleSum(Upper, a, n, k, k, diagonal) == TriangleSum(Lower, a, n, k, k, diagonal)
  {
    if k > 0 {
      var p := k - 1;
      UpperEqualsLowerUpTo(a, n, p, diagonal);
      UpperIgnoresHeight(a, n, k, p, p, diagonal);
      LowerGrows(a, n, p, p, diagonal);
      RowIsColumn(a, n, p, p);
      assert ColumnSum(a, n, p, 0, p + 1) == ColumnSum(a, n, p, 0, p) + Contribution(p, p, Abs(a[p][p]));
      assert ColumnSum(a, n, p, p, p + 1) == Contribution(p, p, Abs(a[p][p]));
    }
  }

  /** For a Hermitian matrix (mirrored magnitudes) UPPER and LOWER give the same norm. */
  lemma UpperEqualsLower(a: Mat, n: nat, diagonal: bool)
    requires IsSquare(a, n) && MirroredMagnitudes(a, n)
    ensures TriangleNorm(Upper, a, n, diagonal) == TriangleNorm(Lower, a, n, diagonal)
  {
    UpperEqualsLowerUpTo(a, n, n, diagonal);
  }

  /** sum_{i < m} |a(i, j)|. */
  function AbsColumn(a: Mat, n: nat, j: nat, m: nat): (s: real)
    requires IsSquare(a, n) && j < n && m <= n
  {
    if m == 0 then 0.0 else AbsColumn(a, n, j, m - 1) + Abs(a[m - 1][j])
  }

  /** sum_{j < w} sum_{i < m} |a(i, j)|: the entrywise one-norm of the leading m-by-w block. */
  function EntrywiseSum(a: Mat, n: nat, m: nat, w: nat): (s: real)
    requires IsSquare(a, n) && m <= n && w <= n
  {
    if w == 0 then 0.0 else EntrywiseSum(a, n, m, w - 1) + AbsColumn(a, n, w - 1, m)
  }

  /** The entrywise one-norm of the whole n-by-n matrix: the sum of all magnitudes. */
  function EntrywiseOneNorm(a: Mat, n: nat): real
    requires IsSquare(a, n)
  {
    EntrywiseSum(a, n, n, n)
  }

  /** sum_{j < w} |a(k, j)|. */
  function AbsRow(a: Mat, n: nat, k: nat, w: nat): real
    requires IsSquare(a, n) && k < n && w <= n
  {
    if w == 0 then 0.0 else AbsRow(a, n, k, w - 1) + Abs(a[k][w - 1])
  }

  /** Adding row k to the block adds row k's magnitudes. */
  lemma {:induction false} EntrywiseGrows(a: Mat, n: nat, k: nat, w: nat)
    requires IsSquare(a, n) && k < n && w <= n
    ensures EntrywiseSum(a, n, k + 1, w) == EntrywiseSum(a, n, k, w) + AbsRow(a, n, k, w)
  {
    if w > 0 {
      EntrywiseGrows(a, n, k, w - 1);
    }
  }

  /** With mirrored magnitudes, row k sums like column k. */
  lemma {:induction false} AbsRowIsColumn(a: Mat, n: nat, k: nat, w: nat)
    requires IsSquare(a, n) && MirroredMagnitudes(a, n) && k < n && w <= n
    ensures AbsRow(a, n, k, w) == AbsColumn(a, n, k, w)
  {
    if w > 0 {
      AbsRowIsColumn(a, n, k, w - 1);
      assert Abs(a[k][w - 1]) == Abs(a[w - 1][k]);
    }
  }

  /** Above the diagonal of column j every visit counts twice. */
  lemma {:induction false} ColumnSumAboveDiagonal(a: Mat, n: nat, j: nat, m: nat)
    requires IsSquare(a, n) && m <= j < n
    ensures ColumnSum(a, n, j, 0, m) == 2.0 * AbsColumn(a, n, j, m)
  {
    if m > 0 {
      ColumnSumAboveDiagonal(a, n, j, m - 1);
    }
  }

  /** On the leading k-by-k block of a Hermitian matrix, the upper triangle with its
      diagonal, off-diagonal entries counted twice, sums to the entrywise one-norm. */
  lemma {:induction false} CorrectedIsEntrywiseUpTo(a: Mat, n: nat, k: nat)
    requires IsSquare(a, n) && MirroredMagnitudes(a, n) && k <= n
    ensures TriangleSum(Upper, a, n, k, k, true) == EntrywiseSum(a, n, k, k)
  {
    if k > 0 {
      var p := k - 1;
      CorrectedIsEntrywiseUpTo(a, n, p);
      UpperIgnoresHeight(a, n, k, p, p, true);
      EntrywiseGrows(a, n, p, p);
      AbsRowIsColumn(a, n, p, p);
      ColumnSumAboveDiagonal(a, n, p, p);
      assert ColumnSum(a, n, p, 0, k) == ColumnSum(a, n, p, 0, p) + Abs(a[p][p]);
      assert AbsColumn(a, n, p, k) == AbsColumn(a, n, p, p) + Abs(a[p][p]);
    }
  }

  /** The corrected norm of a Hermitian matrix is its entrywise one-norm, whichever
      triangle it reads. */
  lemma CorrectedIsEntrywiseOneNorm(uplo: UpperOrLower, a: Mat, n: nat)
    requires IsSquare(a, n) && MirroredMagnitudes(a, n)
    ensures TriangleNorm(uplo, a, n, true) == EntrywiseOneNorm(a, n)
  {
    CorrectedIsEntrywiseUpTo(a, n, n);
    UpperEqualsLower(a, n, true);
  }

  /** sum_{j < w} |a(j, j)|. */
  function DiagonalSum(a: Mat, n: nat, w: nat): real
    requires IsSquare(a, n) && w <= n
  {
    if w == 0 then 0.0 else DiagonalSum(a, n, w - 1) + Abs(a[w - 1][w - 1])
  }

  /** Below the diagonal, column j's visits from row j on are |a(j, j)| plus those from
      row j + 1 on. */
  lemma {:induction false} ColumnSumFromDiagonal(a: Mat, n: nat, j: nat, m: nat)
    requires IsSquare(a, n) && j < m <= n
    ensures ColumnSum(a, n, j, j, m) == Abs(a[j][j]) + ColumnSum(a, n, j, j + 1, m)
  {
    if m > j + 1 {
      ColumnSumFromDiagonal(a, n, j, m - 1);
    }
  }

  /** The loops as written miss exactly the diagonal: the corrected sum is theirs plus
      the diagonal's magnitudes. */
  lemma {:induction false} MissesDiagonalUpTo(uplo: UpperOrLower, a: Mat, n: nat, w: nat)
    requires IsSquare(a, n) && w <= n
    ensures TriangleSum(uplo, a, n, n, w, true) == TriangleSum(uplo, a, n, n, w, false) + DiagonalSum(a, n, w)
  {
    if w > 0 {
      var j := w - 1;
      MissesDiagonalUpTo(uplo, a, n, j);
      if uplo == Upper {
        assert ColumnSum(a, n, j, 0, j + 1) == ColumnSum(a, n, j, 0, j) + Abs(a[j][j]);
      } else {
        ColumnSumFromDiagonal(a, n, j, n);
      }
    }
  }

  /** HermitianEntrywiseOneNorm as written equals the entrywise one-norm minus the
      diagonal's magnitudes. */
  lemma AsWrittenMissesDiagonal(uplo: UpperOrLower, a: Mat, n: nat)
    requires IsSquare(a, n) && MirroredMagnitudes(a, n)
    ensures TriangleNorm(uplo, a, n, false) + DiagonalSum(a, n, n) == EntrywiseOneNorm(a, n)
  {
    MissesDiagonalUpTo(uplo, a, n, n);
    CorrectedIsEntrywiseOneNorm(uplo, a, n);
  }

  /** The 1-by-1 Hermitian matrix [5]: the norm as written is 0, its entrywise one-norm 5. */
  lemma AsWrittenCounterexample(uplo: UpperOrLower)
    ensures TriangleNorm(uplo, [[5.0]], 1, false) == 0.0
    ensures EntrywiseOneNorm([[5.0]], 1) == 5.0
    ensures TriangleNorm(uplo, [[5.0]], 1, true) == 5.0
  {
    CorrectedIsEntrywiseOneNorm(uplo, [[5.0]], 1);
    assert AbsColumn([[5.0]], 1, 0, 1) == 5.0;
  }
}
