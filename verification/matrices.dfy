/** Dense real matrices, as values (a sequence of rows) and in place (array2),
    with the sub-block views the factorization drivers work through. */
module Matrices {

  /** A matrix value: a sequence of rows. */
  type Mat = seq<seq<real>>

  /** M has h rows of w entries each. */
  predicate IsMat(M: Mat, h: nat, w: nat) {
    |M| == h && forall r :: 0 <= r < h ==> |M[r]| == w
  }

  /** M is an n-by-n matrix. */
  predicate IsSquare(M: Mat, n: nat) {
    IsMat(M, n, n)
  }

  /** The h-by-w matrix of zeros. */
  function Zeros(h: nat, w: nat): (Z: Mat)
    ensures IsMat(Z, h, w)
    ensures forall r, c :: 0 <= r < h && 0 <= c < w ==> Z[r][c] == 0.0
  {
    seq(h, r => seq(w, c => 0.0))
  }

  /** The current contents of an array as a matrix value. */
  ghost function Snapshot(A: array2<real>): (M: Mat)
    reads A
    ensures IsMat(M, A.Length0, A.Length1)
    ensures forall r, c :: 0 <= r < A.Length0 && 0 <= c < A.Length1 ==> M[r][c] == A[r, c]
  {
    seq(A.Length0, r requires 0 <= r < A.Length0 reads A =>
      seq(A.Length1, c requires 0 <= c < A.Length1 reads A => A[r, c]))
  }

  /** An array that holds M entry by entry has M as its snapshot. */
  lemma SnapshotIs(A: array2<real>, M: Mat)
    requires IsMat(M, A.Length0, A.Length1)
    requires forall r, c :: 0 <= r < A.Length0 && 0 <= c < A.Length1 ==> A[r, c] == M[r][c]
    ensures Snapshot(A) == M
  {
    var S := Snapshot(A);
    forall r | 0 <= r < A.Length0
      ensures S[r] == M[r]
    {
      assert |S[r]| == |M[r]|;
    }
  }

  /** Matrices of the same shape that agree entry by entry are equal. */
  lemma MatEq(B: Mat, C: Mat, h: nat, w: nat)
    requires IsMat(B, h, w) && IsMat(C, h, w)
    requires forall r, c :: 0 <= r < h && 0 <= c < w ==> B[r][c] == C[r][c]
    ensures B == C
  {
    forall r | 0 <= r < h
      ensures B[r] == C[r]
    {
      assert |B[r]| == |C[r]|;
    }
  }

  /** The h-by-w sub-block of M whose top-left entry is M[r0][c0]. */
  function Sub(M: Mat, r0: nat, c0: nat, h: nat, w: nat): (B: Mat)
    requires r0 + h <= |M|
    requires forall r :: r0 <= r < r0 + h ==> c0 + w <= |M[r]|
    ensures IsMat(B, h, w)
    ensures forall r, c :: 0 <= r < h && 0 <= c < w ==> B[r][c] == M[r0 + r][c0 + c]
  {
    seq(h, r requires 0 <= r < h => seq(w, c requires 0 <= c < w => M[r0 + r][c0 + c]))
  }

  /** M with the h-by-w block B written over it, top-left corner at (r0, c0). */
  function Put(M: Mat, r0: nat, c0: nat, B: Mat, h: nat, w: nat): (N: Mat)
    requires IsMat(B, h, w) && r0 + h <= |M|
    requires forall r :: r0 <= r < r0 + h ==> c0 + w <= |M[r]|
    ensures |N| == |M| && forall r :: 0 <= r < |M| ==> |N[r]| == |M[r]|
    ensures forall r, c :: 0 <= r < |M| && 0 <= c < |M[r]| ==>
      N[r][c] == if r0 <= r < r0 + h && c0 <= c < c0 + w then B[r - r0][c - c0] else M[r][c]
  {
    seq(|M|, r requires 0 <= r < |M| => seq(|M[r]|, c requires 0 <= c < |M[r]| =>
      if r0 <= r < r0 + h && c0 <= c < c0 + w then B[r - r0][c - c0] else M[r][c]))
  }

  /** Reads the h-by-w view of A at (r0, c0) into a matrix value. */
  function Block(A: array2<real>, r0: nat, c0: nat, h: nat, w: nat): (B: Mat)
    reads A
    requires r0 + h <= A.Length0 && c0 + w <= A.Length1
    ensures B == Sub(Snapshot(A), r0, c0, h, w)
  {
    var B := seq(h, r requires 0 <= r < h reads A =>
      seq(w, c requires 0 <= c < w reads A => A[r0 + r, c0 + c]));
    MatEq(B, Sub(Snapshot(A), r0, c0, h, w), h, w);
    B
  }

  /** Writes the h-by-w block B into the view of A at (r0, c0); nothing outside that
      view changes. */
  method Store(A: array2<real>, r0: nat, c0: nat, B: Mat, h: nat, w: nat)
    requires IsMat(B, h, w) && r0 + h <= A.Length0 && c0 + w <= A.Length1
    modifies A
    ensures Snapshot(A) == Put(old(Snapshot(A)), r0, c0, B, h, w)
  {
    ghost var M := Snapshot(A);
    ghost var N := Put(M, r0, c0, B, h, w);
    for i := 0 to h
      invariant forall r, c :: 0 <= r < A.Length0 && 0 <= c < A.Length1 ==>
        A[r, c] == if r < r0 + i then N[r][c] else M[r][c]
    {
      StoreRow(A, r0, c0, B, h, w, i, M, N);
    }
    SnapshotIs(A, N);
  }

  /** Writes row i of B into the view; the rows of the view before it already hold N. */
  method StoreRow(A: array2<real>, r0: nat, c0: nat, B: Mat, h: nat, w: nat, i: nat, ghost M: Mat, ghost N: Mat)
    requires IsMat(B, h, w) && i < h && r0 + h <= A.Length0 && c0 + w <= A.Length1
    requires IsMat(M, A.Length0, A.Length1) && N == Put(M, r0, c0, B, h, w)
    requires forall r, c :: 0 <= r < A.Length0 && 0 <= c < A.Length1 ==>
      A[r, c] == if r < r0 + i then N[r][c] else M[r][c]
    modifies A
    ensures forall r, c :: 0 <= r < A.Length0 && 0 <= c < A.Length1 ==>
      A[r, c] == if r < r0 + i + 1 then N[r][c] else M[r][c]
  {
    for j := 0 to w
      invariant forall r, c :: 0 <= r < A.Length0 && 0 <= c < A.Length1 ==>
        A[r, c] == if r < r0 + i || (r == r0 + i && c < c0 + j) then N[r][c] else M[r][c]
    {
      A[r0 + i, c0 + j] := B[i][j];
    }
  }
}
