/** ApplyPackedReflectors LLHF, serial overload: applies from the left the product of
    the Householder reflectors stored row-wise along an offset diagonal of H,
    (I - tau_{d-1} v_{d-1}^H v_{d-1}) ... (I - tau_0 v_0^H v_0), to A, a block of nb
    reflectors at a time in compact-WY form. Scalars are real, so the adjoint is the
    transpose and both conjugation choices give the same 1/t. */
module ApplyPackedReflectors {
  import opened Wrappers
  import opened Matrices
  import opened Blocking
  import opened BlasLike

  /** Whether FixDiagonal uses 1/t or 1/conj(t); the same over the reals. */
  datatype Conjugation = Conjugated | Unconjugated

  /** The logic errors LLHF reports. */
  datatype LogicError = HWidthMismatch | TLengthMismatch | NonconformalGemm

  /** Where the diagonal with the given offset starts: row iOff, column jOff. */
  datatype Offsets = Offsets(iOff: nat, jOff: nat)

  /** iOff and jOff of the diagonal `offset` (positive offsets lie above the main one). */
  function OffsetsOf(offset: int): (o: Offsets)
    ensures o.iOff == 0 || o.jOff == 0
    ensures o.jOff == 0 <==> offset <= 0
    ensures o.jOff - o.iOff == offset
  {
    if offset >= 0 then Offsets(0, offset) else Offsets(-offset, 0)
  }

  function Max(a: int, b: int): int {
    if a >= b then a else b
  }

  /** Row r of an h-by-w matrix has an entry on the diagonal `offset`. */
  predicate OnDiagonal(h: nat, w: nat, offset: int, r: int) {
    0 <= r < h && 0 <= r + offset < w
  }

  /** The number of entries of the diagonal `offset` of an h-by-w matrix: the rows
      holding one are exactly [iOff, iOff + d). */
  function DiagonalLength(h: nat, w: nat, offset: int): (d: nat)
    ensures var o := OffsetsOf(offset);
      forall r :: OnDiagonal(h, w, offset, r) <==> (o.iOff <= r < o.iOff + d)
  {
    if offset > 0 then Min(h, Max(w - offset, 0)) else Min(Max(h + offset, 0), w)
  }

  /** The diagonal of length d starting at (iOff, jOff) fits in the h-by-w matrix. */
  lemma DiagonalFits(h: nat, w: nat, offset: int)
    ensures var o := OffsetsOf(offset); var d := DiagonalLength(h, w, offset);
      d == 0 || (o.iOff + d <= h && o.jOff + d <= w)
  {
    var o := OffsetsOf(offset);
    var d := DiagonalLength(h, w, offset);
    if d > 0 {
      var r := o.iOff + d - 1;
      assert OnDiagonal(h, w, offset, r);
    }
  }

  /** The views of step k, for a panel [k, k + nb) inside the diagonal: HPan is rows
      [k+iOff, k+iOff+nb) by columns [0, k+jOff+nb) of H, t1 is t[k, k+nb), and ATop
      is rows [0, k+nb) of A; all lie inside their matrices. */
  lemma ViewsInBounds(hH: nat, wH: nat, offset: int, k: nat, nb: nat)
    requires k + nb <= DiagonalLength(hH, wH, offset) && nb >= 1
    ensures var o := OffsetsOf(offset);
      k + o.iOff + nb <= hH && k + o.jOff + nb <= wH && k + nb <= DiagonalLength(hH, wH, offset)
    ensures offset <= 0 ==> k + nb <= wH
  {
    DiagonalFits(hH, wH, offset);
  }

  /** MakeTrapezoidal(LOWER, M, 0, RIGHT) on an h-by-w matrix with h <= w: the entries
      right of the diagonal that ends in the bottom-right corner become zero. */
  function TrapezoidLowerRight(M: Mat, h: nat, w: nat): (T: Mat)
    requires IsMat(M, h, w) && h <= w
    ensures IsMat(T, h, w)
    ensures forall i, j :: 0 <= i < h && 0 <= j < w ==>
      T[i][j] == if j <= i + (w - h) then M[i][j] else 0.0
  {
    seq(h, i requires 0 <= i < h => seq(w, j requires 0 <= j < w =>
      if j <= i + (w - h) then M[i][j] else 0.0))
  }

  /** SetDiagonal(M, x, 0, RIGHT) on an h-by-w matrix with h <= w: the diagonal that
      ends in the bottom-right corner becomes x. */
  function SetDiagonalRight(M: Mat, h: nat, w: nat, x: real): (T: Mat)
    requires IsMat(M, h, w) && h <= w
    ensures IsMat(T, h, w)
    ensures forall i, j :: 0 <= i < h && 0 <= j < w ==>
      T[i][j] == if j == i + (w - h) then x else M[i][j]
  {
    seq(h, i requires 0 <= i < h => seq(w, j requires 0 <= j < w =>
      if j == i + (w - h) then x else M[i][j]))
  }

  /** HPanCopy of step k: row i is reflector ki + i of H, its entries left of column
      kj + i taken from H, an implicit one in column kj + i and zeros to its right. */
  function Reflectors(HPan: Mat, nb: nat, kj: nat): (V: Mat)
    requires IsMat(HPan, nb, kj + nb)
    ensures IsMat(V, nb, kj + nb)
    ensures forall i, j :: 0 <= i < nb && 0 <= j < kj + nb ==>
      V[i][j] == if j < kj + i then HPan[i][j] else if j == kj + i then 1.0 else 0.0
  {
    SetDiagonalRight(TrapezoidLowerRight(HPan, nb, kj + nb), nb, kj + nb, 1.0)
  }

  /** FixDiagonal(conjugation, t1, S): the diagonal of the nb-by-nb S becomes 1/t1
      (1/conj(t1), the same over the reals). */
  function FixDiagonal(conjugation: Conjugation, t1: seq<real>, S: Mat, nb: nat): (T: Mat)
    requires IsSquare(S, nb) && |t1| == nb && forall i :: 0 <= i < nb ==> t1[i] != 0.0
    ensures IsSquare(T, nb)
  {
    seq(nb, i requires 0 <= i < nb => seq(nb, j requires 0 <= j < nb =>
      if i == j then 1.0 / t1[i] else S[i][j]))
  }

  /** The matrix whose inverse is the centre of the compact-WY form: Herk of the
      reflectors, with the diagonal fixed to 1/t1. */
  function CentreInverse(conjugation: Conjugation, V: Mat, t1: seq<real>, nb: nat, w: nat): (S: Mat)
    requires IsMat(V, nb, w) && |t1| == nb && forall i :: 0 <= i < nb ==> t1[i] != 0.0
    ensures IsSquare(S, nb)
  {
    FixDiagonal(conjugation, t1, HerkLower(V, nb, w), nb)
  }

  /** SInv is lower triangular, holds tril(V V^H) strictly below the diagonal and 1/t1
      on it, and has no zero on its diagonal, so the non-unit Trsm by it is defined. */
  lemma CentreInverseShape(conjugation: Conjugation, V: Mat, t1: seq<real>, nb: nat, w: nat)
    requires IsMat(V, nb, w) && |t1| == nb && forall i :: 0 <= i < nb ==> t1[i] != 0.0
    ensures var S := CentreInverse(conjugation, V, t1, nb, w);
      && (forall i, j :: 0 <= j < i < nb ==> S[i][j] == Dot(V[i], V[j]))
      && (forall i :: 0 <= i < nb ==> S[i][i] * t1[i] == 1.0)
      && (forall i, j :: 0 <= i < j < nb ==> S[i][j] == 0.0)
      && Solvable(S, nb, false)
  {
    var S := CentreInverse(conjugation, V, t1, nb, w);
    forall i | 0 <= i < nb
      ensures S[i][i] * t1[i] == 1.0 && S[i][i] != 0.0
    {
      assert S[i][i] == 1.0 / t1[i];
    }
  }

  /** The update of ATop (h rows) by the nb reflectors V with centre inverse S:
      Z solves tril(S) Z = V ATop, and ATop becomes ATop - V^H Z. */
  function PanelUpdate(ATop: Mat, V: Mat, S: Mat, h: nat, nb: nat, w: nat): (R: Mat)
    requires IsMat(ATop, h, w) && IsMat(V, nb, h) && Solvable(S, nb, false)
    ensures IsMat(R, h, w)
  {
    var Z := ForwardSolve(S, Product(V, ATop, nb, h, w), nb, w, false);
    Minus(ATop, Product(Transpose(V, nb, h), Z, h, nb, w), h, w)
  }

  /** With a single reflector v and scalar tau, the update is the reflection
      (I - tau v^H v) ATop: entry (r, c) loses v[r] * tau * (v . column c of ATop). */
  lemma OneReflector(ATop: Mat, v: seq<real>, tau: real, h: nat, w: nat, r: nat, c: nat)
    requires IsMat(ATop, h, w) && |v| == h && tau != 0.0 && r < h && c < w
    ensures var S := CentreInverse(Unconjugated, [v], [tau], 1, h);
      Solvable(S, 1, false) &&
      PanelUpdate(ATop, [v], S, h, 1, w)[r][c] == ATop[r][c] - v[r] * tau * ColDot(v, ATop, c, h)
  {
    var S := CentreInverse(Unconjugated, [v], [tau], 1, h);
    CentreInverseOfOne(v, tau, h);
    var B := Product([v], ATop, 1, h, w);
    var Z := ForwardSolve(S, B, 1, w, false);
    SolveByOne(tau, B, w, c);
    OuterEntry(v, Z, h, w, r, c);
    var P := Product(Transpose([v], 1, h), Z, h, 1, w);
    var R := Minus(ATop, P, h, w);
    assert R[r][c] + P[r][c] == ATop[r][c];
    assert B[0][c] == ColDot(v, ATop, c, h);
  }

  /** For one reflector, SInv is the 1-by-1 matrix 1/tau. */
  lemma CentreInverseOfOne(v: seq<real>, tau: real, h: nat)
    requires |v| == h && tau != 0.0
    ensures CentreInverse(Unconjugated, [v], [tau], 1, h) == [[1.0 / tau]]
  {
    var S := CentreInverse(Unconjugated, [v], [tau], 1, h);
    assert S[0] == [1.0 / tau];
  }

  /** Solving by the 1-by-1 matrix 1/tau multiplies by tau. */
  lemma SolveByOne(tau: real, B: Mat, w: nat, c: nat)
    requires IsMat(B, 1, w) && tau != 0.0 && c < w
    ensures Solvable([[1.0 / tau]], 1, false)
    ensures ForwardSolve([[1.0 / tau]], B, 1, w, false)[0][c] == tau * B[0][c]
  {
    var Z := ForwardSolve([[1.0 / tau]], B, 1, w, false);
    assert ColDot([1.0 / tau], Z, c, 0) + (1.0 / tau) * Z[0][c] == B[0][c];
    SolveScalar(1.0 / tau, tau, 0.0, Z[0][c], B[0][c]);
  }

  /** Solving x + s z = b for z, where s tau = 1, gives z = tau (b - x). */
  lemma SolveScalar(s: real, tau: real, x: real, z: real, b: real)
    requires s * tau == 1.0 && x + s * z == b
    ensures z == tau * (b - x)
  {
    calc {
      z;
      (s * tau) * z;
      tau * (s * z);
    }
  }

  /** The outer product of the column v^H and the row Z[0]. */
  lemma OuterEntry(v: seq<real>, Z: Mat, h: nat, w: nat, r: nat, c: nat)
    requires |v| == h && IsMat(Z, 1, w) && r < h && c < w
    ensures Product(Transpose([v], 1, h), Z, h, 1, w)[r][c] == v[r] * Z[0][c]
  {
    var VT := Transpose([v], 1, h);
    assert ColDot(VT[r], Z, c, 1) == ColDot(VT[r], Z, c, 0) + VT[r][0] * Z[0][c];
  }

  /** The multiple of v that the reflection (I - tau v^H v) takes from column c of A:
      tau (v . column c of A). */
  function Coef(A: Mat, v: seq<real>, tau: real, h: nat, c: nat): real
    requires |v| >= h && |A| >= h && forall q :: 0 <= q < h ==> c < |A[q]|
  {
    tau * ColDot(v, A, c, h)
  }

  /** The reflection (I - tau v^H v) applied to the h-by-w matrix A: entry (r, c)
      loses v[r] * tau * (v . column c of A). */
  function Reflection(A: Mat, v: seq<real>, tau: real, h: nat, w: nat): (R: Mat)
    requires IsMat(A, h, w) && |v| == h
    ensures IsMat(R, h, w)
  {
    seq(h, r requires 0 <= r < h => seq(w, c requires 0 <= c < w => A[r][c] - v[r] * Coef(A, v, tau, h, c)))
  }

  /** With two reflectors v0 and v1 (rows of V, v0 first) and scalars t0 and t1, the
      compact-WY update is the product of the two reflections, v0's applied first:
      (I - t1 v1^H v1) (I - t0 v0^H v0) ATop. */
  lemma TwoReflectors(ATop: Mat, v0: seq<real>, v1: seq<real>, t0: real, t1: real, h: nat, w: nat)
    requires IsMat(ATop, h, w) && |v0| == h && |v1| == h && t0 != 0.0 && t1 != 0.0
    ensures var S := CentreInverse(Unconjugated, [v0, v1], [t0, t1], 2, h);
      Solvable(S, 2, false) &&
      PanelUpdate(ATop, [v0, v1], S, h, 2, w) == Reflection(Reflection(ATop, v0, t0, h, w), v1, t1, h, w)
  {
    var S := CentreInverse(Unconjugated, [v0, v1], [t0, t1], 2, h);
    CentreInverseShape(Unconjugated, [v0, v1], [t0, t1], 2, h);
    var R := PanelUpdate(ATop, [v0, v1], S, h, 2, w);
    var R2 := Reflection(Reflection(ATop, v0, t0, h, w), v1, t1, h, w);
    forall r, c | 0 <= r < h && 0 <= c < w
      ensures R[r][c] == R2[r][c]
    {
      TwoReflectorsAt(ATop, v0, v1, t0, t1, h, w, r, c);
    }
    MatEq(R, R2, h, w);
  }

  /** Entry (r, c) of TwoReflectors: both sides subtract v0[r] z0 + v1[r] z1 with the
      same coefficients z0 = Coef(ATop, v0, t0, h, c) and z1 = Coef1. */
  lemma TwoReflectorsAt(ATop: Mat, v0: seq<real>, v1: seq<real>, t0: real, t1: real, h: nat, w: nat, r: nat, c: nat)
    requires IsMat(ATop, h, w) && |v0| == h && |v1| == h && t0 != 0.0 && t1 != 0.0 && r < h && c < w
    ensures var S := CentreInverse(Unconjugated, [v0, v1], [t0, t1], 2, h);
      Solvable(S, 2, false) &&
      PanelUpdate(ATop, [v0, v1], S, h, 2, w)[r][c] == Reflection(Reflection(ATop, v0, t0, h, w), v1, t1, h, w)[r][c]
  {
    CompactTwoAt(ATop, v0, v1, t0, t1, h, w, r, c);
    ReflectTwice(ATop, v0, v1, t0, t1, h, w, r, c);
  }

  /** The coefficient of v1: z1 = t1 (v1 . a - z0 (v1 . v0)). */
  function Coef1(ATop: Mat, v0: seq<real>, v1: seq<real>, t0: real, t1: real, h: nat, c: nat): real
    requires |v0| == h && |v1| == h && |ATop| >= h && forall q :: 0 <= q < h ==> c < |ATop[q]|
  {
    t1 * (ColDot(v1, ATop, c, h) - Coef(ATop, v0, t0, h, c) * Dot(v1, v0))
  }

  /** Entry (r, c) of the compact-WY update by v0, v1. */
  lemma CompactTwoAt(ATop: Mat, v0: seq<real>, v1: seq<real>, t0: real, t1: real, h: nat, w: nat, r: nat, c: nat)
    requires IsMat(ATop, h, w) && |v0| == h && |v1| == h && t0 != 0.0 && t1 != 0.0 && r < h && c < w
    ensures var S := CentreInverse(Unconjugated, [v0, v1], [t0, t1], 2, h);
      Solvable(S, 2, false) &&
      PanelUpdate(ATop, [v0, v1], S, h, 2, w)[r][c] ==
        ATop[r][c] - (v0[r] * Coef(ATop, v0, t0, h, c) + v1[r] * Coef1(ATop, v0, v1, t0, t1, h, c))
  {
    var V := [v0, v1];
    var S := CentreInverse(Unconjugated, V, [t0, t1], 2, h);
    CentreCoefs(ATop, v0, v1, t0, t1, h, w, c);
    var Z := ForwardSolve(S, Product(V, ATop, 2, h, w), 2, w, false);
    var P := Product(Transpose(V, 2, h), Z, h, 2, w);
    OuterEntryTwo(v0, v1, Z, h, w, r, c);
    assert PanelUpdate(ATop, V, S, h, 2, w)[r][c] + P[r][c] == ATop[r][c];
  }

  /** Column c of Z = tril(SInv)^-1 (V ATop) for the reflectors v0, v1 holds z0 and z1. */
  lemma CentreCoefs(ATop: Mat, v0: seq<real>, v1: seq<real>, t0: real, t1: real, h: nat, w: nat, c: nat)
    requires IsMat(ATop, h, w) && |v0| == h && |v1| == h && t0 != 0.0 && t1 != 0.0 && c < w
    ensures var S := CentreInverse(Unconjugated, [v0, v1], [t0, t1], 2, h);
      Solvable(S, 2, false) &&
      var Z := ForwardSolve(S, Product([v0, v1], ATop, 2, h, w), 2, w, false);
      Z[0][c] == Coef(ATop, v0, t0, h, c) && Z[1][c] == Coef1(ATop, v0, v1, t0, t1, h, c)
  {
    var V := [v0, v1];
    var S := CentreInverse(Unconjugated, V, [t0, t1], 2, h);
    var B := Product(V, ATop, 2, h, w);
    assert S[1][0] == Dot(v1, v0) && S[0][0] == 1.0 / t0 && S[1][1] == 1.0 / t1;
    assert B[0][c] == ColDot(v0, ATop, c, h) && B[1][c] == ColDot(v1, ATop, c, h);
    SolveTwoByTwo(S, B, w, c, t0, t1, ColDot(v0, ATop, c, h), ColDot(v1, ATop, c, h), Dot(v1, v0));
  }

  /** Forward substitution by a 2-by-2 S with diagonal 1/t0, 1/t1 (its entry above
      the diagonal is not read). */
  lemma SolveTwoByTwo(S: Mat, B: Mat, w: nat, c: nat, t0: real, t1: real, b0: real, b1: real, d: real)
    requires IsSquare(S, 2) && IsMat(B, 2, w) && c < w && t0 != 0.0 && t1 != 0.0
    requires S[0][0] == 1.0 / t0 && S[1][1] == 1.0 / t1
    requires B[0][c] == b0 && B[1][c] == b1 && S[1][0] == d
    ensures Solvable(S, 2, false)
    ensures var Z := ForwardSolve(S, B, 2, w, false);
      && Z[0][c] == t0 * b0
      && Z[1][c] == t1 * (b1 - Z[0][c] * d)
  {
    var Z := ForwardSolve(S, B, 2, w, false);
    var z0, z1 := Z[0][c], Z[1][c];
    assert ColDot(S[0], Z, c, 0) + S[0][0] * z0 == B[0][c];
    SolveScalar(S[0][0], t0, 0.0, z0, B[0][c]);
    assert ColDot(S[1], Z, c, 1) == S[1][0] * z0;
    assert ColDot(S[1], Z, c, 1) + S[1][1] * z1 == B[1][c];
    SolveScalar(S[1][1], t1, S[1][0] * z0, z1, B[1][c]);
  }


  /** Entry (r, c) of V^H Z for the two rows v0, v1 of V. */
  lemma OuterEntryTwo(v0: seq<real>, v1: seq<real>, Z: Mat, h: nat, w: nat, r: nat, c: nat)
    requires |v0| == h && |v1| == h && IsMat(Z, 2, w) && r < h && c < w
    ensures Product(Transpose([v0, v1], 2, h), Z, h, 2, w)[r][c] == v0[r] * Z[0][c] + v1[r] * Z[1][c]
  {
    var VT := Transpose([v0, v1], 2, h);
    assert VT[r][0] == v0[r] && VT[r][1] == v1[r];
    assert ColDot(VT[r], Z, c, 1) == ColDot(VT[r], Z, c, 0) + VT[r][0] * Z[0][c];
    assert ColDot(VT[r], Z, c, 2) == ColDot(VT[r], Z, c, 1) + VT[r][1] * Z[1][c];
  }

  /** Entry (r, c) of the two reflections in turn. */
  lemma ReflectTwice(ATop: Mat, v0: seq<real>, v1: seq<real>, t0: real, t1: real, h: nat, w: nat, r: nat, c: nat)
    requires IsMat(ATop, h, w) && |v0| == h && |v1| == h && r < h && c < w
    ensures Reflection(Reflection(ATop, v0, t0, h, w), v1, t1, h, w)[r][c] ==
      ATop[r][c] - (v0[r] * Coef(ATop, v0, t0, h, c) + v1[r] * Coef1(ATop, v0, v1, t0, t1, h, c))
  {
    ReflectedCoef(ATop, v0, v1, t0, t1, h, w, c);
  }

  /** The second reflection's coefficient t1 (v1 . a'), for column a' of the first
      reflection's result, is Coef1. */
  lemma ReflectedCoef(ATop: Mat, v0: seq<real>, v1: seq<real>, t0: real, t1: real, h: nat, w: nat, c: nat)
    requires IsMat(ATop, h, w) && |v0| == h && |v1| == h && c < w
    ensures Coef(Reflection(ATop, v0, t0, h, w), v1, t1, h, c) == Coef1(ATop, v0, v1, t0, t1, h, c)
  {
    ReflectedColumn(ATop, v0, v1, t0, h, w, c);
  }

  /** v1 . a' for column c of the first reflection's result, in terms of ATop. */
  lemma ReflectedColumn(ATop: Mat, v0: seq<real>, v1: seq<real>, t0: real, h: nat, w: nat, c: nat)
    requires IsMat(ATop, h, w) && |v0| == h && |v1| == h && c < w
    ensures ColDot(v1, Reflection(ATop, v0, t0, h, w), c, h) ==
      ColDot(v1, ATop, c, h) - Coef(ATop, v0, t0, h, c) * Dot(v1, v0)
  {
    ColDotShift(v1, ATop, Reflection(ATop, v0, t0, h, w), v0, Coef(ATop, v0, t0, h, c), c, h);
  }

  /** The new ATop (h rows) of a step whose panel of H is HPan and whose scalars are t1:
      the reflectors are HPanCopy, and SInv is formed from them and t1. */
  function PanelResult(HPan: Mat, t1: seq<real>, ATop: Mat, nb: nat, k: nat, nA: nat): (R: Mat)
    requires IsMat(HPan, nb, k + nb) && IsMat(ATop, k + nb, nA) && |t1| == nb
    requires forall i :: 0 <= i < nb ==> t1[i] != 0.0
    ensures IsMat(R, k + nb, nA)
  {
    var V := Reflectors(HPan, nb, k);
    var S := CentreInverse(Unconjugated, V, t1, nb, k + nb);
    CentreInverseShape(Unconjugated, V, t1, nb, k + nb);
    PanelUpdate(ATop, V, S, k + nb, nb, nA)
  }

  /** The first k + nb rows of a after step k: the panel of rows [ki, ki + nb) and
      columns [0, k + nb) of H, whose unit entries sit in columns [k, k + nb), applied
      to rows [0, k + nb) of a. */
  function UpdatedTop(a: Mat, m: nat, nA: nat, Hm: Mat, hH: nat, t: seq<real>, ki: nat, k: nat, nb: nat): (R: Mat)
    requires IsMat(a, m, nA) && IsMat(Hm, hH, m) && ki + nb <= hH && k + nb <= m && k + nb <= |t|
    requires forall i :: 0 <= i < |t| ==> t[i] != 0.0
    ensures IsMat(R, k + nb, nA)
  {
    PanelResult(Sub(Hm, ki, 0, nb, k + nb), t[k..k + nb], Sub(a, 0, 0, k + nb, nA), nb, k, nA)
  }

  /** a with its first h rows replaced by those of T. */
  function Overwrite(a: Mat, m: nat, nA: nat, T: Mat, h: nat): (b: Mat)
    requires IsMat(a, m, nA) && IsMat(T, h, nA) && h <= m
    ensures IsMat(b, m, nA)
  {
    seq(m, r requires 0 <= r < m => seq(nA, c requires 0 <= c < nA => if r < h then T[r][c] else a[r][c]))
  }

  /** Storing T at the top left of a is overwriting its first rows. */
  lemma OverwriteIsPut(a: Mat, m: nat, nA: nat, T: Mat, h: nat)
    requires IsMat(a, m, nA) && IsMat(T, h, nA) && h <= m
    ensures Put(a, 0, 0, T, h, nA) == Overwrite(a, m, nA, T, h)
  {
    MatEq(Put(a, 0, 0, T, h, nA), Overwrite(a, m, nA, T, h), m, nA);
  }

  /** Step k of LLHF on the m-by-nA matrix a: the first k + nb rows are updated, the
      others are kept. */
  function Step(a: Mat, m: nat, nA: nat, Hm: Mat, hH: nat, t: seq<real>, ki: nat, k: nat, nb: nat): (b: Mat)
    requires IsMat(a, m, nA) && IsMat(Hm, hH, m) && ki + nb <= hH && k + nb <= m && k + nb <= |t|
    requires forall i :: 0 <= i < |t| ==> t[i] != 0.0
    ensures IsMat(b, m, nA)
  {
    seq(m, r requires 0 <= r < m => seq(nA, c requires 0 <= c < nA =>
      if r < k + nb then UpdatedTop(a, m, nA, Hm, hH, t, ki, k, nb)[r][c] else a[r][c]))
  }

  /** The step overwrites the first k + nb rows with the updated ATop. */
  lemma StepIsOverwrite(a: Mat, m: nat, nA: nat, Hm: Mat, hH: nat, t: seq<real>, ki: nat, k: nat, nb: nat)
    requires IsMat(a, m, nA) && IsMat(Hm, hH, m) && ki + nb <= hH && k + nb <= m && k + nb <= |t|
    requires forall i :: 0 <= i < |t| ==> t[i] != 0.0
    ensures Step(a, m, nA, Hm, hH, t, ki, k, nb) == Overwrite(a, m, nA, UpdatedTop(a, m, nA, Hm, hH, t, ki, k, nb), k + nb)
  {
    MatEq(Step(a, m, nA, Hm, hH, t, ki, k, nb), Overwrite(a, m, nA, UpdatedTop(a, m, nA, Hm, hH, t, ki, k, nb), k + nb), m, nA);
  }

  /** The inputs LLHF accepts with a non-positive offset (or an empty diagonal): H has
      as many columns as a has rows, and t one non-zero scalar per diagonal entry. */
  predicate Conforming(a: Mat, m: nat, nA: nat, Hm: Mat, hH: nat, t: seq<real>, offset: int) {
    && IsMat(a, m, nA) && IsMat(Hm, hH, m)
    && |t| == DiagonalLength(hH, m, offset)
    && (offset <= 0 || |t| == 0)
    && forall i :: 0 <= i < |t| ==> t[i] != 0.0
  }

  /** Every panel of ps is non-empty and ends by len. */
  predicate PanelsWithin(ps: seq<Panel>, len: nat) {
    forall i :: 0 <= i < |ps| ==> 1 <= ps[i].nb && ps[i].k + ps[i].nb <= len
  }

  /** The steps of the block loop over the panels ps, in order. */
  function ApplyPanels(a: Mat, m: nat, nA: nat, Hm: Mat, hH: nat, t: seq<real>, offset: int, ps: seq<Panel>): (b: Mat)
    requires Conforming(a, m, nA, Hm, hH, t, offset) && PanelsWithin(ps, |t|)
    ensures IsMat(b, m, nA)
    decreases |ps|
  {
    if ps == [] then a
    else
      var p := ps[0];
      ViewsInBounds(hH, m, offset, p.k, p.nb);
      ApplyPanels(Step(a, m, nA, Hm, hH, t, p.k + OffsetsOf(offset).iOff, p.k, p.nb), m, nA, Hm, hH, t, offset, ps[1..])
  }

  /** LLHF(conjugation, offset, H, t, A) with block size bsize, on matrix values: the
      steps over the panels of `for k = 0; k < diagLength; k += bsize`. */
  function Llhf(a: Mat, m: nat, nA: nat, Hm: Mat, hH: nat, t: seq<real>, offset: int, bsize: nat): (b: Mat)
    requires Conforming(a, m, nA, Hm, hH, t, offset) && bsize >= 1
    ensures IsMat(b, m, nA)
  {
    ApplyPanels(a, m, nA, Hm, hH, t, offset, Panels(|t|, bsize))
  }

  /** Started at k inside the diagonal, the loop does the step at k and then goes on
      from k + bsize. */
  lemma ApplyPanelsUnfold(a: Mat, m: nat, nA: nat, Hm: Mat, hH: nat, t: seq<real>, offset: int, bsize: nat, k: nat)
    requires Conforming(a, m, nA, Hm, hH, t, offset) && bsize >= 1 && k < |t|
    ensures PanelsWithin(PanelsFrom(k, |t|, bsize), |t|) && PanelsWithin(PanelsFrom(k + bsize, |t|, bsize), |t|)
    ensures k + OffsetsOf(offset).iOff + Min(bsize, |t| - k) <= hH && k + Min(bsize, |t| - k) <= m
    ensures var nb := Min(bsize, |t| - k);
      ApplyPanels(a, m, nA, Hm, hH, t, offset, PanelsFrom(k, |t|, bsize)) ==
      ApplyPanels(Step(a, m, nA, Hm, hH, t, k + OffsetsOf(offset).iOff, k, nb), m, nA, Hm, hH, t, offset, PanelsFrom(k + bsize, |t|, bsize))
  {
    ViewsInBounds(hH, m, offset, k, Min(bsize, |t| - k));
    var ps := PanelsFrom(k, |t|, bsize);
    assert ps[1..] == PanelsFrom(k + bsize, |t|, bsize);
  }

  /** Step k changes no row at or below k + nb. */
  lemma StepKeepsRowsBelow(a: Mat, m: nat, nA: nat, Hm: Mat, hH: nat, t: seq<real>, ki: nat, k: nat, nb: nat)
    requires IsMat(a, m, nA) && IsMat(Hm, hH, m) && ki + nb <= hH && k + nb <= m && k + nb <= |t|
    requires forall i :: 0 <= i < |t| ==> t[i] != 0.0
    ensures forall r :: k + nb <= r < m ==> Step(a, m, nA, Hm, hH, t, ki, k, nb)[r] == a[r]
  {
    var b := Step(a, m, nA, Hm, hH, t, ki, k, nb);
    forall r | k + nb <= r < m
      ensures b[r] == a[r]
    {
      assert |b[r]| == |a[r]|;
    }
  }

  /** The steps over ps change no row at or below the diagonal length. */
  lemma {:induction false} ApplyPanelsKeepsRowsBelow(a: Mat, m: nat, nA: nat, Hm: Mat, hH: nat, t: seq<real>, offset: int, ps: seq<Panel>)
    requires Conforming(a, m, nA, Hm, hH, t, offset) && PanelsWithin(ps, |t|)
    ensures forall r :: |t| <= r < m ==> ApplyPanels(a, m, nA, Hm, hH, t, offset, ps)[r] == a[r]
    decreases |ps|
  {
    if ps != [] {
      var p := ps[0];
      ViewsInBounds(hH, m, offset, p.k, p.nb);
      var ki := p.k + OffsetsOf(offset).iOff;
      var a' := Step(a, m, nA, Hm, hH, t, ki, p.k, p.nb);
      StepKeepsRowsBelow(a, m, nA, Hm, hH, t, ki, p.k, p.nb);
      ApplyPanelsKeepsRowsBelow(a', m, nA, Hm, hH, t, offset, ps[1..]);
    }
  }

  /** LLHF leaves every row of A from the diagonal length on as it was. */
  lemma LlhfKeepsRowsBelow(a: Mat, m: nat, nA: nat, Hm: Mat, hH: nat, t: seq<real>, offset: int, bsize: nat)
    requires Conforming(a, m, nA, Hm, hH, t, offset) && bsize >= 1
    ensures forall r :: |t| <= r < m ==> Llhf(a, m, nA, Hm, hH, t, offset, bsize)[r] == a[r]
  {
    ApplyPanelsKeepsRowsBelow(a, m, nA, Hm, hH, t, offset, Panels(|t|, bsize));
  }

  /** V is HPanCopy of the panel HPan of step k: row i is reflector i, with H's
      entries left of column k + i, an implicit one in column k + i and zeros to
      its right. */
  predicate IsReflectorPanel(V: Mat, HPan: Mat, nb: nat, k: nat) {
    && IsMat(V, nb, k + nb) && IsMat(HPan, nb, k + nb)
    && forall i, j :: 0 <= i < nb && 0 <= j < k + nb ==>
         V[i][j] == if j < k + i then HPan[i][j] else if j == k + i then 1.0 else 0.0
  }

  /** S is the inverse of the compact-WY centre of the reflectors V with scalars t1:
      tril(V V^H) strictly below the diagonal, 1/t1 on it and zeros above it. */
  predicate IsCentreInverse(S: Mat, V: Mat, t1: seq<real>, nb: nat, w: nat) {
    && IsSquare(S, nb) && IsMat(V, nb, w) && |t1| == nb
    && (forall i, j :: 0 <= j < i < nb ==> S[i][j] == Dot(V[i], V[j]))
    && (forall i :: 0 <= i < nb ==> S[i][i] * t1[i] == 1.0)
    && (forall i, j :: 0 <= i < j < nb ==> S[i][j] == 0.0)
  }

  /** Z solves tril(S) Z = V ATop, row by row. */
  predicate SolvesCentre(Z: Mat, S: Mat, V: Mat, ATop: Mat, nb: nat, h: nat, nA: nat) {
    && IsMat(Z, nb, nA) && IsSquare(S, nb) && IsMat(V, nb, h) && IsMat(ATop, h, nA)
    && forall i, c :: 0 <= i < nb && 0 <= c < nA ==>
         ColDot(S[i], Z, c, i) + S[i][i] * Z[i][c] == ColDot(V[i], ATop, c, h)
  }

  /** top is ATop - V^H Z. */
  predicate Reflected(top: Mat, V: Mat, Z: Mat, ATop: Mat, nb: nat, h: nat, nA: nat) {
    && IsMat(top, h, nA) && IsMat(V, nb, h) && IsMat(Z, nb, nA) && IsMat(ATop, h, nA)
    && forall r, c :: 0 <= r < h && 0 <= c < nA ==>
         top[r][c] + ColDot(Transpose(V, nb, h)[r], Z, c, nb) == ATop[r][c]
  }

  /** Forms HPanCopy and SInv from the panel HPan of H and the scalars t1 and computes
      the new ATop: Z := HPanCopy ATop, Z := tril(SInv)^-1 Z, ATop - HPanCopy^H Z. */
  method PanelTop(conjugation: Conjugation, HPan: Mat, t1: seq<real>, ATop: Mat, nb: nat, k: nat, nA: nat)
    returns (V: Mat, SInv: Mat, Z: Mat, top: Mat)
    requires IsMat(HPan, nb, k + nb) && IsMat(ATop, k + nb, nA) && |t1| == nb
    requires forall i :: 0 <= i < nb ==> t1[i] != 0.0
    ensures IsReflectorPanel(V, HPan, nb, k)
    ensures IsCentreInverse(SInv, V, t1, nb, k + nb)
    ensures SolvesCentre(Z, SInv, V, ATop, nb, k + nb, nA)
    ensures Reflected(top, V, Z, ATop, nb, k + nb, nA)
    ensures top == PanelResult(HPan, t1, ATop, nb, k, nA)
  {
    V, SInv := FormCentre(conjugation, HPan, t1, nb, k);
    Z, top := ApplyCentre(V, SInv, ATop, nb, k + nb, nA);
  }

  /** HPanCopy := HPan made trapezoidal with a unit diagonal on the right, then
      SInv := Herk of it with its diagonal fixed to 1/t1. */
  method FormCentre(conjugation: Conjugation, HPan: Mat, t1: seq<real>, nb: nat, k: nat)
    returns (V: Mat, SInv: Mat)
    requires IsMat(HPan, nb, k + nb) && |t1| == nb
    requires forall i :: 0 <= i < nb ==> t1[i] != 0.0
    ensures IsReflectorPanel(V, HPan, nb, k)
    ensures IsCentreInverse(SInv, V, t1, nb, k + nb)
    ensures V == Reflectors(HPan, nb, k) && SInv == CentreInverse(Unconjugated, V, t1, nb, k + nb)
    ensures Solvable(SInv, nb, false)
  {
    V := Reflectors(HPan, nb, k);
    SInv := HerkLower(V, nb, k + nb);
    SInv := FixDiagonal(conjugation, t1, SInv, nb);
    assert SInv == CentreInverse(Unconjugated, V, t1, nb, k + nb);
    CentreInverseShape(conjugation, V, t1, nb, k + nb);
  }

  /** Z := V ATop, Z := tril(SInv)^-1 Z, then ATop - V^H Z. */
  method ApplyCentre(V: Mat, SInv: Mat, ATop: Mat, nb: nat, h: nat, nA: nat) returns (Z: Mat, top: Mat)
    requires IsMat(V, nb, h) && Solvable(SInv, nb, false) && IsMat(ATop, h, nA)
    ensures SolvesCentre(Z, SInv, V, ATop, nb, h, nA)
    ensures Reflected(top, V, Z, ATop, nb, h, nA)
    ensures top == PanelUpdate(ATop, V, SInv, h, nb, nA)
  {
    var B := Product(V, ATop, nb, h, nA);
    Z := ForwardSolve(SInv, B, nb, nA, false);
    forall i, c | 0 <= i < nb && 0 <= c < nA
      ensures ColDot(SInv[i], Z, c, i) + SInv[i][i] * Z[i][c] == ColDot(V[i], ATop, c, h)
    {
      assert B[i][c] == ColDot(V[i], ATop, c, h);
    }
    var P := Product(Transpose(V, nb, h), Z, h, nb, nA);
    top := Minus(ATop, P, h, nA);
    forall r, c | 0 <= r < h && 0 <= c < nA
      ensures top[r][c] + ColDot(Transpose(V, nb, h)[r], Z, c, nb) == ATop[r][c]
    {
      assert top[r][c] + P[r][c] == ATop[r][c];
    }
  }

  /** Takes the views HPan, t1 and ATop of step k and computes the new ATop. */
  method StepTop(conjugation: Conjugation, iOff: nat, H: array2<real>, t: array<real>, A: array2<real>, k: nat, nb: nat)
    returns (top: Mat)
    requires H.Length1 == A.Length0
    requires k + iOff + nb <= H.Length0 && k + nb <= A.Length0 && k + nb <= t.Length
    requires forall i :: 0 <= i < t.Length ==> t[i] != 0.0
    ensures top == UpdatedTop(Snapshot(A), A.Length0, A.Length1, Snapshot(H), H.Length0, t[..], k + iOff, k, nb)
  {
    var HPan := Block(H, k + iOff, 0, nb, k + nb);
    var t1 := t[k..k + nb];
    assert t1 == t[..][k..k + nb];
    var ATop := Block(A, 0, 0, k + nb, A.Length1);
    var V, SInv, Z;
    V, SInv, Z, top := PanelTop(conjugation, HPan, t1, ATop, nb, k, A.Length1);
  }

  /** Writes the h-row T over the first h rows of A. */
  method StoreTop(A: array2<real>, T: Mat, h: nat)
    requires IsMat(T, h, A.Length1) && h <= A.Length0
    modifies A
    ensures Snapshot(A) == Overwrite(old(Snapshot(A)), A.Length0, A.Length1, T, h)
  {
    ghost var a := Snapshot(A);
    Store(A, 0, 0, T, h, A.Length1);
    OverwriteIsPut(a, A.Length0, A.Length1, T, h);
  }

  /** The body of the block loop at k, for a conforming offset: the new ATop is written
      over the first k + nb rows of A. */
  method ApplyBlock(conjugation: Conjugation, iOff: nat, H: array2<real>, t: array<real>, A: array2<real>, k: nat, nb: nat)
    requires H != A && H.Length1 == A.Length0
    requires k + iOff + nb <= H.Length0 && k + nb <= A.Length0 && k + nb <= t.Length
    requires forall i :: 0 <= i < t.Length ==> t[i] != 0.0
    modifies A
    ensures Snapshot(A) == Step(old(Snapshot(A)), A.Length0, A.Length1, Snapshot(H), H.Length0, t[..], k + iOff, k, nb)
  {
    ghost var a := Snapshot(A);
    var top := StepTop(conjugation, iOff, H, t, A, k, nb);
    StoreTop(A, top, k + nb);
    StepIsOverwrite(a, A.Length0, A.Length1, Snapshot(H), H.Length0, t[..], k + iOff, k, nb);
  }

  /** LLHF(conjugation, offset, H, t, A) with block size bsize. H's width must match A's
      height and t must have one scalar per entry of H's diagonal `offset`; a positive
      offset with a non-empty diagonal makes the first Gemm nonconformal. On any error
      A is left as it was; H and t are only read. */
  method LLHF(conjugation: Conjugation, offset: int, H: array2<real>, t: array<real>, A: array2<real>, bsize: nat)
    returns (res: Outcome<LogicError>)
    requires bsize >= 1 && H != A
    requires forall i :: 0 <= i < t.Length ==> t[i] != 0.0
    modifies A
    ensures res == Fail(HWidthMismatch) <==> H.Length1 != A.Length0
    ensures res == Fail(TLengthMismatch) <==>
      H.Length1 == A.Length0 && t.Length != DiagonalLength(H.Length0, H.Length1, offset)
    ensures res == Fail(NonconformalGemm) <==>
      H.Length1 == A.Length0 && t.Length == DiagonalLength(H.Length0, H.Length1, offset) && t.Length > 0 && offset > 0
    ensures res.Fail? ==> Snapshot(A) == old(Snapshot(A))
    ensures res.Pass? ==>
      Conforming(old(Snapshot(A)), A.Length0, A.Length1, Snapshot(H), H.Length0, t[..], offset) &&
      Snapshot(A) == Llhf(old(Snapshot(A)), A.Length0, A.Length1, Snapshot(H), H.Length0, t[..], offset, bsize)
  {
    if H.Length1 != A.Length0 {
      return Fail(HWidthMismatch);
    }
    var nA := A.Length1;
    var diagLength := DiagonalLength(H.Length0, H.Length1, offset);
    if t.Length != diagLength {
      return Fail(TLengthMismatch);
    }
    var jOff := OffsetsOf(offset).jOff;
    var k := 0;
    if diagLength > 0 && k + jOff + Min(bsize, diagLength - k) != k + Min(bsize, diagLength - k) {
      return Fail(NonconformalGemm);
    }
    BlockLoop(conjugation, offset, H, t, A, bsize);
    res := Pass;
  }

  /** From the matrix a, the steps over the panels that remain from k reach goal. */
  predicate Remaining(a: Mat, m: nat, nA: nat, Hm: Mat, hH: nat, t: seq<real>, offset: int, bsize: nat, k: nat, goal: Mat) {
    && bsize >= 1
    && Conforming(a, m, nA, Hm, hH, t, offset)
    && PanelsWithin(PanelsFrom(k, |t|, bsize), |t|)
    && ApplyPanels(a, m, nA, Hm, hH, t, offset, PanelsFrom(k, |t|, bsize)) == goal
  }

  /** The block loop of LLHF on conforming arguments. */
  method BlockLoop(conjugation: Conjugation, offset: int, H: array2<real>, t: array<real>, A: array2<real>, bsize: nat)
    requires bsize >= 1 && H != A && H.Length1 == A.Length0
    requires Conforming(Snapshot(A), A.Length0, A.Length1, Snapshot(H), H.Length0, t[..], offset)
    modifies A
    ensures Snapshot(A) == Llhf(old(Snapshot(A)), A.Length0, A.Length1, Snapshot(H), H.Length0, t[..], offset, bsize)
  {
    ghost var goal := Llhf(Snapshot(A), A.Length0, A.Length1, Snapshot(H), H.Length0, t[..], offset, bsize);
    var k := 0;
    while k < t.Length
      invariant Remaining(Snapshot(A), A.Length0, A.Length1, Snapshot(H), H.Length0, t[..], offset, bsize, k, goal)
      decreases t.Length - k
    {
      BlockStep(conjugation, offset, H, t, A, bsize, k, goal);
      k := k + bsize;
    }
    RemainingDone(Snapshot(A), A.Length0, A.Length1, Snapshot(H), H.Length0, t[..], offset, bsize, k, goal);
  }

  /** One turn of the block loop: the step at k, after which the panels from
      k + bsize reach the same goal. */
  method BlockStep(conjugation: Conjugation, offset: int, H: array2<real>, t: array<real>, A: array2<real>, bsize: nat,
                   k: nat, ghost goal: Mat)
    requires H != A && H.Length1 == A.Length0 && k < t.Length
    requires Remaining(Snapshot(A), A.Length0, A.Length1, Snapshot(H), H.Length0, t[..], offset, bsize, k, goal)
    modifies A
    ensures Remaining(Snapshot(A), A.Length0, A.Length1, Snapshot(H), H.Length0, t[..], offset, bsize, k + bsize, goal)
  {
    var nb := Min(bsize, t.Length - k);
    ViewsInBounds(H.Length0, H.Length1, offset, k, nb);
    ApplyPanelsUnfold(Snapshot(A), A.Length0, A.Length1, Snapshot(H), H.Length0, t[..], offset, bsize, k);
    ApplyBlock(conjugation, OffsetsOf(offset).iOff, H, t, A, k, nb);
  }

  /** Past the last panel, the matrix reached is the goal. */
  lemma RemainingDone(a: Mat, m: nat, nA: nat, Hm: Mat, hH: nat, t: seq<real>, offset: int, bsize: nat, k: nat, goal: Mat)
    requires Remaining(a, m, nA, Hm, hH, t, offset, bsize, k, goal) && k >= |t|
    ensures a == goal
  {
    assert PanelsFrom(k, |t|, bsize) == [];
  }
}
