/** Regularized LDL^H factorization without pivoting (RegularizedVar3): the unblocked
    kernel, which works column by column in place, and the serial blocked driver,
    which runs the kernel on diagonal panels and updates the trailing block with
    Trsm, DiagonalSolve and Trrk. Scalars are real, so conjugation is the identity. */
module LDL {
  import opened Wrappers
  import opened Matrices
  import opened Blocking
  import opened BlasLike

  /** The logic errors the factorization reports. */
  datatype LogicError = NotSquare | PivSignNotConforming

  /** What the factorization has produced so far: the matrix, the regularization
      vector and, for each processed column, the pivot that was read from the
      diagonal when that column was processed (the last is bookkeeping of this
      model; the routine itself does not keep it). */
  datatype LdlState = LdlState(a: Mat, reg: seq<real>, piv: seq<real>)

  /** The state holds an n-by-n matrix and vectors of at least n entries. */
  predicate Shaped(st: LdlState, n: nat) {
    IsSquare(st.a, n) && n <= |st.reg| && |st.piv| == |st.reg|
  }

  /** The state a factorization starts from. */
  function Init(a: Mat, reg: seq<real>): LdlState {
    LdlState(a, reg, seq(|reg|, _ => 0.0))
  }

  /** The parameters make every pivot division well defined. */
  predicate Regularizable(pivTol: real, regMag: real) {
    pivTol >= 0.0 && regMag != 0.0
  }

  /** The signs are non-zero on [lo, hi). */
  predicate SignsFit(signs: seq<int>, lo: nat, hi: nat) {
    hi <= |signs| && forall j :: lo <= j < hi ==> signs[j] != 0
  }

  /** A pivot alpha that should have the given sign is unsafe when sign * alpha <= pivTol. */
  predicate Unsafe(alpha: real, sign: int, pivTol: real) {
    (sign as real) * alpha <= pivTol
  }

  /** The amount added to an unsafe pivot; zero for a safe one. */
  function Perturbation(alpha: real, sign: int, pivTol: real, regMag: real): real {
    if Unsafe(alpha, sign, pivTol) then (sign as real) * regMag - alpha else 0.0
  }

  /** The pivot the kernel divides by: sign * regMag for an unsafe pivot, else alpha. */
  function RegularizedPivot(alpha: real, sign: int, pivTol: real, regMag: real): (d: real)
    requires Regularizable(pivTol, regMag) && sign != 0
    ensures d != 0.0
    ensures d == alpha + Perturbation(alpha, sign, pivTol, regMag)
  {
    if Unsafe(alpha, sign, pivTol) then (sign as real) * regMag else alpha
  }

  /** Entry (r, c) after column j of the panel [.., hi) is processed with pivot d. */
  function EliminatedEntry(a: Mat, n: nat, j: nat, hi: nat, d: real, r: nat, c: nat): real
    requires IsSquare(a, n) && j < hi <= n && r < n && c < n && d != 0.0
  {
    if r == j && c == j then d
    else if j < c <= r < hi then a[r][c] - a[r][j] * (a[c][j] / d)
    else if c == j && j < r < hi then a[r][j] / d
    else a[r][c]
  }

  /** Column j of the panel ending at hi, processed with pivot d. */
  function Eliminate(a: Mat, n: nat, j: nat, hi: nat, d: real): (b: Mat)
    requires IsSquare(a, n) && j < hi <= n && d != 0.0
    ensures IsSquare(b, n)
    ensures forall r, c :: 0 <= r < n && 0 <= c < n ==> b[r][c] == EliminatedEntry(a, n, j, hi, d, r, c)
  {
    seq(n, r requires 0 <= r < n => seq(n, c requires 0 <= c < n => EliminatedEntry(a, n, j, hi, d, r, c)))
  }

  /** Processing column j with pivot d puts d on the diagonal, makes the sub-column
      l21 = a21 / d, takes l21 * d * l21^H off the lower triangle of the trailing
      block of the panel, and changes nothing else. */
  lemma EliminateEffect(a: Mat, n: nat, j: nat, hi: nat, d: real)
    requires IsSquare(a, n) && j < hi <= n && d != 0.0
    ensures Eliminate(a, n, j, hi, d)[j][j] == d
    ensures forall r :: j < r < hi ==> Eliminate(a, n, j, hi, d)[r][j] * d == a[r][j]
    ensures forall r, c :: j < c <= r < hi ==>
      Eliminate(a, n, j, hi, d)[r][c] == a[r][c] - Eliminate(a, n, j, hi, d)[r][j] * d * Eliminate(a, n, j, hi, d)[c][j]
    ensures forall r, c :: 0 <= r < n && 0 <= c < n && !(j <= c <= r < hi) ==> Eliminate(a, n, j, hi, d)[r][c] == a[r][c]
  {
    EliminateScales(a, n, j, hi, d);
    EliminateRankOne(a, n, j, hi, d);
  }

  /** The sub-column of column j is divided by the pivot d. */
  lemma EliminateScales(a: Mat, n: nat, j: nat, hi: nat, d: real)
    requires IsSquare(a, n) && j < hi <= n && d != 0.0
    ensures forall r :: j < r < hi ==> Eliminate(a, n, j, hi, d)[r][j] * d == a[r][j]
  {
    var b := Eliminate(a, n, j, hi, d);
    forall r | j < r < hi
      ensures b[r][j] * d == a[r][j]
    {
      Unscale(a[r][j], d, b[r][j]);
    }
  }

  /** The trailing block of the panel loses l21 * d * l21^H on and below its diagonal. */
  lemma EliminateRankOne(a: Mat, n: nat, j: nat, hi: nat, d: real)
    requires IsSquare(a, n) && j < hi <= n && d != 0.0
    ensures forall r, c :: j < c <= r < hi ==>
      Eliminate(a, n, j, hi, d)[r][c] == a[r][c] - Eliminate(a, n, j, hi, d)[r][j] * d * Eliminate(a, n, j, hi, d)[c][j]
  {
    var b := Eliminate(a, n, j, hi, d);
    forall r, c | j < c <= r < hi
      ensures b[r][c] == a[r][c] - b[r][j] * d * b[c][j]
    {
      var x, y := a[r][j], a[c][j];
      assert b[r][c] == a[r][c] - x * (y / d);
      RankOneTerm(x, y, d, b[r][j], b[c][j]);
    }
  }

  /** With p == x / d and q == y / d, x * (y / d) == p * d * q. */
  lemma RankOneTerm(x: real, y: real, d: real, p: real, q: real)
    requires d != 0.0 && p == x / d && q == y / d
    ensures x * (y / d) == p * d * q
  {
    assert p * d == x;
  }

  /** Processes column j of the panel ending at hi with the required sign. */
  function Column(st: LdlState, n: nat, j: nat, hi: nat, sign: int, pivTol: real, regMag: real): (st': LdlState)
    requires Shaped(st, n) && j < hi <= n && sign != 0 && Regularizable(pivTol, regMag)
    ensures Shaped(st', n) && |st'.reg| == |st.reg|
  {
    var alpha := st.a[j][j];
    LdlState(Eliminate(st.a, n, j, hi, RegularizedPivot(alpha, sign, pivTol, regMag)),
             st.reg[j := Perturbation(alpha, sign, pivTol, regMag)],
             st.piv[j := alpha])
  }

  /** The kernel on the panel [lo, hi) of an n-by-n matrix after its columns lo .. m-1. */
  function Sweep(st: LdlState, n: nat, signs: seq<int>, lo: nat, m: nat, hi: nat, pivTol: real, regMag: real): (st': LdlState)
    requires Shaped(st, n) && lo <= m <= hi <= n && SignsFit(signs, lo, hi) && Regularizable(pivTol, regMag)
    ensures Shaped(st', n) && |st'.reg| == |st.reg|
    decreases m
  {
    if m == lo then st
    else Column(Sweep(st, n, signs, lo, m - 1, hi, pivTol, regMag), n, m - 1, hi, signs[m - 1], pivTol, regMag)
  }

  /** The kernel writes only the lower triangle of its panel, and only the entries of
      reg at the columns it has processed. */
  lemma {:induction false} SweepFootprint(st: LdlState, n: nat, signs: seq<int>, lo: nat, m: nat, hi: nat, pivTol: real, regMag: real)
    requires Shaped(st, n) && lo <= m <= hi <= n && SignsFit(signs, lo, hi) && Regularizable(pivTol, regMag)
    ensures var st' := Sweep(st, n, signs, lo, m, hi, pivTol, regMag);
      (forall r, c :: 0 <= r < n && 0 <= c < n && !(lo <= c <= r < hi) ==> st'.a[r][c] == st.a[r][c]) &&
      (forall i :: 0 <= i < |st.reg| && !(lo <= i < m) ==> st'.reg[i] == st.reg[i] && st'.piv[i] == st.piv[i])
    decreases m
  {
    if m > lo {
      SweepFootprint(st, n, signs, lo, m - 1, hi, pivTol, regMag);
    }
  }

  /** Once column j is processed, the columns processed before it keep their values. */
  lemma {:induction false} SweepColumnsSettle(st: LdlState, n: nat, signs: seq<int>, lo: nat, m: nat, hi: nat, pivTol: real, regMag: real, c: nat)
    requires Shaped(st, n) && lo <= c < m <= hi <= n && SignsFit(signs, lo, hi) && Regularizable(pivTol, regMag)
    ensures forall r :: 0 <= r < n ==>
      Sweep(st, n, signs, lo, m, hi, pivTol, regMag).a[r][c] == Sweep(st, n, signs, lo, c + 1, hi, pivTol, regMag).a[r][c]
    ensures Sweep(st, n, signs, lo, m, hi, pivTol, regMag).reg[c] == Sweep(st, n, signs, lo, c + 1, hi, pivTol, regMag).reg[c]
    ensures Sweep(st, n, signs, lo, m, hi, pivTol, regMag).piv[c] == Sweep(st, n, signs, lo, c + 1, hi, pivTol, regMag).piv[c]
    decreases m
  {
    if m > c + 1 {
      SweepColumnsSettle(st, n, signs, lo, m - 1, hi, pivTol, regMag, c);
      var S := Sweep(st, n, signs, lo, m - 1, hi, pivTol, regMag);
      var d := RegularizedPivot(S.a[m - 1][m - 1], signs[m - 1], pivTol, regMag);
      assert Sweep(st, n, signs, lo, m, hi, pivTol, regMag).a == Eliminate(S.a, n, m - 1, hi, d);
      EliminateEffect(S.a, n, m - 1, hi, d);
    }
  }

  /** For every processed column j, piv[j] is the diagonal entry as it stood just
      before column j was processed, reg[j] is its perturbation and the diagonal now
      holds the regularized pivot piv[j] + reg[j]. */
  lemma SweepPivots(st: LdlState, n: nat, signs: seq<int>, lo: nat, m: nat, hi: nat, pivTol: real, regMag: real)
    requires Shaped(st, n) && lo <= m <= hi <= n && SignsFit(signs, lo, hi) && Regularizable(pivTol, regMag)
    ensures var st' := Sweep(st, n, signs, lo, m, hi, pivTol, regMag);
      forall j :: lo <= j < m ==>
        st'.piv[j] == Sweep(st, n, signs, lo, j, hi, pivTol, regMag).a[j][j] &&
        st'.reg[j] == Perturbation(st'.piv[j], signs[j], pivTol, regMag) &&
        st'.a[j][j] == RegularizedPivot(st'.piv[j], signs[j], pivTol, regMag)
  {
    forall j | lo <= j < m
      ensures var st' := Sweep(st, n, signs, lo, m, hi, pivTol, regMag);
        st'.piv[j] == Sweep(st, n, signs, lo, j, hi, pivTol, regMag).a[j][j] &&
        st'.reg[j] == Perturbation(st'.piv[j], signs[j], pivTol, regMag) &&
        st'.a[j][j] == RegularizedPivot(st'.piv[j], signs[j], pivTol, regMag)
    {
      SweepColumnsSettle(st, n, signs, lo, m, hi, pivTol, regMag, j);
    }
  }

  /** Every column the kernel has processed has a non-zero pivot on the diagonal. */
  lemma SweepDiagonalNonzero(st: LdlState, n: nat, signs: seq<int>, lo: nat, m: nat, hi: nat, pivTol: real, regMag: real)
    requires Shaped(st, n) && lo <= m <= hi <= n && SignsFit(signs, lo, hi) && Regularizable(pivTol, regMag)
    ensures forall j :: lo <= j < m ==> Sweep(st, n, signs, lo, m, hi, pivTol, regMag).a[j][j] != 0.0
  {
    SweepPivots(st, n, signs, lo, m, hi, pivTol, regMag);
  }

  /** The result of the kernel does not depend on the pivots recorded before it runs. */
  lemma {:induction false} SweepIgnoresPivots(a: Mat, reg: seq<real>, p1: seq<real>, p2: seq<real>, n: nat, signs: seq<int>, lo: nat, m: nat, hi: nat, pivTol: real, regMag: real)
    requires Shaped(LdlState(a, reg, p1), n) && Shaped(LdlState(a, reg, p2), n)
    requires lo <= m <= hi <= n && SignsFit(signs, lo, hi) && Regularizable(pivTol, regMag)
    ensures Sweep(LdlState(a, reg, p1), n, signs, lo, m, hi, pivTol, regMag).a == Sweep(LdlState(a, reg, p2), n, signs, lo, m, hi, pivTol, regMag).a
    ensures Sweep(LdlState(a, reg, p1), n, signs, lo, m, hi, pivTol, regMag).reg == Sweep(LdlState(a, reg, p2), n, signs, lo, m, hi, pivTol, regMag).reg
    decreases m
  {
    if m > lo {
      SweepIgnoresPivots(a, reg, p1, p2, n, signs, lo, m - 1, hi, pivTol, regMag);
    }
  }

  /** Column 0 of the pivot-sign matrix (empty when it has no column). */
  ghost function Signs(pivSign: array2<int>): (signs: seq<int>)
    reads pivSign
    ensures |signs| == if pivSign.Length1 == 0 then 0 else pivSign.Length0
    ensures forall j :: 0 <= j < |signs| ==> signs[j] == pivSign[j, 0]
  {
    if pivSign.Length1 == 0 then []
    else seq(pivSign.Length0, j requires 0 <= j < pivSign.Length0 reads pivSign => pivSign[j, 0])
  }

  /** Entry (r, c) while column j is being processed with pivot d: the trailing update
      is done for the columns before K and, in column K, for the rows before I. */
  ghost function Updating(P: Mat, n: nat, j: nat, hi: nat, d: real, K: nat, I: nat, r: nat, c: nat): real
    requires IsSquare(P, n) && j < hi <= n && r < n && c < n && d != 0.0
  {
    if r == j && c == j then d
    else if j < c <= r < hi && (c < K || (c == K && r < I)) then P[r][c] - P[r][j] * (P[c][j] / d)
    else P[r][c]
  }

  /** Entry (r, c) once the trailing update is done and the rows of a21 before I are scaled. */
  ghost function Scaling(P: Mat, n: nat, j: nat, hi: nat, d: real, I: nat, r: nat, c: nat): real
    requires IsSquare(P, n) && j < hi <= n && r < n && c < n && d != 0.0
  {
    if c == j && j < r < I then P[r][j] / d else Updating(P, n, j, hi, d, hi, hi, r, c)
  }

  /** The body of the kernel's loop for column j once its pivot d is known: d goes on
      the diagonal, A22 := A22 - a21 (a21 / d)^H on and below the diagonal of the
      panel's trailing block, then a21 := a21 / d. */
  method EliminateInPlace(A: array2<real>, j: nat, hi: nat, d: real)
    requires A.Length0 == A.Length1 && j < hi <= A.Length0 && d != 0.0
    modifies A
    ensures Snapshot(A) == Eliminate(old(Snapshot(A)), A.Length0, j, hi, d)
  {
    var n := A.Length0;
    ghost var P := Snapshot(A);
    var a21Height := hi - (j + 1);
    A[j, j] := d;
    for k := 0 to a21Height
      invariant forall r, c :: 0 <= r < n && 0 <= c < n ==>
        A[r, c] == Updating(P, n, j, hi, d, j + 1 + k, j + 1 + k, r, c)
    {
      UpdateColumn(A, j, hi, d, k, P);
    }
    ScaleColumn(A, j, hi, d, P);
    SnapshotIs(A, Eliminate(P, n, j, hi, d));
  }

  /** Column j + 1 + k of the panel's trailing block loses a21 times its own entry of
      (a21 / d)^H, on and below the diagonal: with beta = a21[k] / d, entry i of the
      column becomes A[i, j+1+k] - a21[i] * beta, and no other entry changes. */
  method UpdateColumn(A: array2<real>, j: nat, hi: nat, d: real, k: nat, ghost P: Mat)
    requires A.Length0 == A.Length1 && j + 1 + k < hi <= A.Length0 && d != 0.0 && IsSquare(P, A.Length0)
    requires forall r, c :: 0 <= r < A.Length0 && 0 <= c < A.Length0 ==>
      A[r, c] == Updating(P, A.Length0, j, hi, d, j + 1 + k, j + 1 + k, r, c)
    modifies A
    ensures forall r, c :: 0 <= r < A.Length0 && 0 <= c < A.Length0 ==>
      A[r, c] == if c == j + 1 + k && c <= r < hi then old(A[r, c]) - old(A[r, j]) * (old(A[c, j]) / d) else old(A[r, c])
    ensures forall r, c :: 0 <= r < A.Length0 && 0 <= c < A.Length0 ==>
      A[r, c] == Updating(P, A.Length0, j, hi, d, j + 2 + k, j + 2 + k, r, c)
  {
    var n := A.Length0;
    var a21Height := hi - (j + 1);
    var beta := A[j + 1 + k, j] / d;
    for i := k to a21Height
      invariant forall r, c :: 0 <= r < n && 0 <= c < n ==>
        A[r, c] == Updating(P, n, j, hi, d, j + 1 + k, j + 1 + i, r, c)
    {
      A[j + 1 + i, j + 1 + k] := A[j + 1 + i, j + 1 + k] - A[j + 1 + i, j] * beta;
    }
  }

  /** a21 := a21 / d, once the trailing block is updated. */
  method ScaleColumn(A: array2<real>, j: nat, hi: nat, d: real, ghost P: Mat)
    requires A.Length0 == A.Length1 && j < hi <= A.Length0 && d != 0.0 && IsSquare(P, A.Length0)
    requires forall r, c :: 0 <= r < A.Length0 && 0 <= c < A.Length0 ==>
      A[r, c] == Updating(P, A.Length0, j, hi, d, hi, hi, r, c)
    modifies A
    ensures forall r, c :: 0 <= r < A.Length0 && 0 <= c < A.Length0 ==>
      A[r, c] == EliminatedEntry(P, A.Length0, j, hi, d, r, c)
  {
    var n := A.Length0;
    var a21Height := hi - (j + 1);
    for i := 0 to a21Height
      invariant forall r, c :: 0 <= r < n && 0 <= c < n ==>
        A[r, c] == Scaling(P, n, j, hi, d, j + 1 + i, r, c)
    {
      A[j + 1 + i, j] := A[j + 1 + i, j] / d;
    }
  }

  /** Zeros( reg, n, 1 ) on the view reg[lo .. hi). */
  method ZeroRange(reg: array<real>, lo: nat, hi: nat)
    requires lo <= hi <= reg.Length
    modifies reg
    ensures Pending(reg[..], old(reg[..]), lo, hi)
  {
    for i := lo to hi
      invariant forall q :: 0 <= q < reg.Length ==> reg[q] == if lo <= q < i then 0.0 else old(reg[q])
    {
      reg[i] := 0.0;
    }
  }

  /** One pass of the kernel's loop: reads the pivot alpha11 = A[j, j]; when it is
      unsafe for the required sign, records reg[j] = sign * regMag - alpha11 and pivots
      on sign * regMag instead; then eliminates column j. reg[j] is zero on entry. */
  method KernelColumn(A: array2<real>, reg: array<real>, j: nat, hi: nat, sign: int, pivTol: real, regMag: real)
    requires A.Length0 == A.Length1 && j < hi <= A.Length0 && j < reg.Length && reg[j] == 0.0
    requires sign != 0 && Regularizable(pivTol, regMag)
    modifies A, reg
    ensures var alpha := old(A[j, j]);
      && Snapshot(A) == Eliminate(old(Snapshot(A)), A.Length0, j, hi, RegularizedPivot(alpha, sign, pivTol, regMag))
      && reg[..] == old(reg[..])[j := Perturbation(alpha, sign, pivTol, regMag)]
  {
    var alpha11 := A[j, j];
    if (sign as real) * alpha11 <= pivTol {
      reg[j] := (sign as real) * regMag - alpha11;
      alpha11 := (sign as real) * regMag;
    }
    EliminateInPlace(A, j, hi, alpha11);
  }

  /** RegularizedVar3Unb on the diagonal view A[off .. off+nb, off .. off+nb) of the
      square A, with the views pivSign[off .. off+nb, 0] and reg[off .. off+nb): the
      view of A and the view of reg end up as the kernel's specification says, and
      nothing outside the two views changes. */
  method RegularizedVar3UnbOnView(A: array2<real>, off: nat, nb: nat, pivTol: real, regMag: real,
                                  pivSign: array2<int>, reg: array<real>)
    requires A.Length0 == A.Length1 && off + nb <= A.Length0
    requires off + nb <= pivSign.Length0 && 1 <= pivSign.Length1 && A.Length0 <= reg.Length
    requires Regularizable(pivTol, regMag)
    requires forall j :: off <= j < off + nb ==> pivSign[j, 0] != 0
    modifies A, reg
    ensures var st := Sweep(Init(old(Snapshot(A)), old(reg[..])), A.Length0, Signs(pivSign), off, off + nb, off + nb, pivTol, regMag);
      Snapshot(A) == st.a && reg[..] == st.reg
  {
    var n := A.Length0;
    var hi := off + nb;
    ghost var S0 := Init(Snapshot(A), reg[..]);
    ghost var signs := Signs(pivSign);
    ZeroRange(reg, off, hi);
    KernelLoop(A, reg, off, hi, pivTol, regMag, pivSign, signs, S0);
    PendingDone(reg[..], Sweep(S0, n, signs, off, hi, hi, pivTol, regMag).reg, hi);
  }

  /** The kernel's loop over the columns [off, hi), with reg[off .. hi) zeroed. */
  method KernelLoop(A: array2<real>, reg: array<real>, off: nat, hi: nat, pivTol: real, regMag: real,
                    pivSign: array2<int>, ghost signs: seq<int>, ghost S0: LdlState)
    requires A.Length0 == A.Length1 && off <= hi <= A.Length0 && hi <= pivSign.Length0 && 1 <= pivSign.Length1
    requires signs == Signs(pivSign)
    requires Shaped(S0, A.Length0) && Regularizable(pivTol, regMag) && SignsFit(signs, off, hi)
    requires Snapshot(A) == S0.a && Pending(reg[..], S0.reg, off, hi)
    modifies A, reg
    ensures Snapshot(A) == Sweep(S0, A.Length0, signs, off, hi, hi, pivTol, regMag).a
    ensures Pending(reg[..], Sweep(S0, A.Length0, signs, off, hi, hi, pivTol, regMag).reg, hi, hi)
  {
    for j := off to hi
      invariant Snapshot(A) == Sweep(S0, A.Length0, signs, off, j, hi, pivTol, regMag).a
      invariant Pending(reg[..], Sweep(S0, A.Length0, signs, off, j, hi, pivTol, regMag).reg, j, hi)
    {
      SweepStep(A, reg, off, j, hi, pivTol, regMag, pivSign, signs, S0);
    }
  }

  /** With no entry left pending, r is the target. */
  lemma PendingDone(r: seq<real>, target: seq<real>, hi: nat)
    requires Pending(r, target, hi, hi)
    ensures r == target
  {
  }

  /** r is the sequence target with the entries [j, hi) still zero. */
  predicate Pending(r: seq<real>, target: seq<real>, j: nat, hi: nat) {
    |r| == |target| && forall q :: 0 <= q < |r| ==> r[q] == if j <= q < hi then 0.0 else target[q]
  }

  /** Column j of the kernel's loop on the panel [off, hi), as the specification's Sweep
      takes it from column j to column j + 1. */
  method SweepStep(A: array2<real>, reg: array<real>, off: nat, j: nat, hi: nat, pivTol: real, regMag: real,
                   pivSign: array2<int>, ghost signs: seq<int>, ghost S0: LdlState)
    requires A.Length0 == A.Length1 && off <= j < hi <= A.Length0 && hi <= pivSign.Length0 && 1 <= pivSign.Length1
    requires signs == Signs(pivSign)
    requires Shaped(S0, A.Length0) && Regularizable(pivTol, regMag) && SignsFit(signs, off, hi)
    requires Snapshot(A) == Sweep(S0, A.Length0, signs, off, j, hi, pivTol, regMag).a
    requires Pending(reg[..], Sweep(S0, A.Length0, signs, off, j, hi, pivTol, regMag).reg, j, hi)
    modifies A, reg
    ensures Snapshot(A) == Sweep(S0, A.Length0, signs, off, j + 1, hi, pivTol, regMag).a
    ensures Pending(reg[..], Sweep(S0, A.Length0, signs, off, j + 1, hi, pivTol, regMag).reg, j + 1, hi)
  {
    ghost var P := Sweep(S0, A.Length0, signs, off, j, hi, pivTol, regMag);
    assert reg[j] == reg[..][j];
    KernelColumn(A, reg, j, hi, pivSign[j, 0], pivTol, regMag);
    assert Sweep(S0, A.Length0, signs, off, j + 1, hi, pivTol, regMag) == Column(P, A.Length0, j, hi, signs[j], pivTol, regMag);
  }

  /** RegularizedVar3Unb(A, pivTol, regMag, pivSign, reg): a non-square A or a pivSign
      that is not an n-by-1 column is a logic error and nothing changes; otherwise reg
      is resized to n zeros and the kernel runs over all of A. */
  method RegularizedVar3Unb(A: array2<real>, pivTol: real, regMag: real, pivSign: array2<int>)
    returns (res: Result<array<real>, LogicError>)
    requires Regularizable(pivTol, regMag)
    requires forall j :: 0 <= j < pivSign.Length0 && 1 <= pivSign.Length1 ==> pivSign[j, 0] != 0
    modifies A
    ensures A.Length0 != A.Length1 <==> res == Failure(NotSquare)
    ensures A.Length0 == A.Length1 && (pivSign.Length0 != A.Length0 || pivSign.Length1 != 1) <==>
      res == Failure(PivSignNotConforming)
    ensures res.Failure? ==> Snapshot(A) == old(Snapshot(A))
    ensures res.Success? ==> fresh(res.value) && res.value.Length == A.Length0
    ensures res.Success? ==>
      var st := Sweep(Init(old(Snapshot(A)), seq(A.Length0, _ => 0.0)), A.Length0, Signs(pivSign), 0, A.Length0, A.Length0, pivTol, regMag);
      Snapshot(A) == st.a && res.value[..] == st.reg
  {
    if A.Length0 != A.Length1 {
      return Failure(NotSquare);
    }
    if pivSign.Length0 != A.Length0 || pivSign.Length1 != 1 {
      return Failure(PivSignNotConforming);
    }
    var n := A.Length0;
    var reg := new real[n](_ => 0.0);
    assert reg[..] == seq(n, _ => 0.0);
    RegularizedVar3UnbOnView(A, 0, n, pivTol, regMag, pivSign, reg);
    return Success(reg);
  }

  /** The signs fit every panel that ends by n. */
  predicate PanelsFit(ps: seq<Panel>, n: nat) {
    forall i :: 0 <= i < |ps| ==> ps[i].k + ps[i].nb <= n
  }

  /** The diagonal of an nb-by-nb matrix (GetDiagonal). */
  function Diagonal(M: Mat, nb: nat): (d: seq<real>)
    requires IsSquare(M, nb)
    ensures |d| == nb && forall i :: 0 <= i < nb ==> d[i] == M[i][i]
  {
    seq(nb, i requires 0 <= i < nb => M[i][i])
  }

  /** The panel's diagonal entries are non-zero, so the update can divide by them. */
  predicate PivotsNonzero(a: Mat, n: nat, k: nat, nb: nat)
    requires IsSquare(a, n) && k + nb <= n
  {
    forall j :: k <= j < k + nb ==> a[j][j] != 0.0
  }

  /** The nb-by-nb block has no zero on its diagonal. */
  predicate DiagonalNonzero(A11: Mat, nb: nat)
    requires IsSquare(A11, nb)
  {
    forall j :: 0 <= j < nb ==> A11[j][j] != 0.0
  }

  /** L21 = S21 diag(d1)^-1 with S21 = A21 tril1(A11)^-H and d1 the diagonal of A11:
      the outputs of Trsm(RIGHT, LOWER, ADJOINT, UNIT) and then DiagonalSolve. */
  function ScaledPanel(A11: Mat, A21: Mat, nb: nat, m: nat): (L21: Mat)
    requires IsSquare(A11, nb) && IsMat(A21, m, nb) && DiagonalNonzero(A11, nb)
    ensures IsMat(L21, m, nb)
  {
    DiagonalSolveRight(Diagonal(A11, nb), TrsmRightLowerAdjointUnit(A11, A21, nb, m), m, nb)
  }

  /** A22 - S21 L21^H on and below the diagonal of A22: the output of Trrk. */
  function SchurBlock(A11: Mat, A21: Mat, A22: Mat, nb: nat, m: nat): (C: Mat)
    requires IsSquare(A11, nb) && IsMat(A21, m, nb) && IsSquare(A22, m) && DiagonalNonzero(A11, nb)
    ensures IsSquare(C, m)
  {
    TrrkLower(A22, TrsmRightLowerAdjointUnit(A11, A21, nb, m), ScaledPanel(A11, A21, nb, m), m, nb)
  }

  /** The diagonal block of a panel whose pivots are non-zero. */
  lemma PanelDiagonalNonzero(a: Mat, n: nat, k: nat, nb: nat)
    requires IsSquare(a, n) && k + nb <= n && PivotsNonzero(a, n, k, nb)
    ensures DiagonalNonzero(Sub(a, k, k, nb, nb), nb)
  {
    var A11 := Sub(a, k, k, nb, nb);
    assert forall j :: 0 <= j < nb ==> A11[j][j] == a[k + j][k + j];
  }

  /** The new A21 of the panel [k, k + nb). */
  function Scaled21(a: Mat, n: nat, k: nat, nb: nat): (L21: Mat)
    requires IsSquare(a, n) && k + nb <= n && PivotsNonzero(a, n, k, nb)
    ensures IsMat(L21, n - (k + nb), nb)
  {
    var m := n - (k + nb);
    PanelDiagonalNonzero(a, n, k, nb);
    ScaledPanel(Sub(a, k, k, nb, nb), Sub(a, k + nb, k, m, nb), nb, m)
  }

  /** The new A22 of the panel [k, k + nb). */
  function Schur22(a: Mat, n: nat, k: nat, nb: nat): (C: Mat)
    requires IsSquare(a, n) && k + nb <= n && PivotsNonzero(a, n, k, nb)
    ensures IsSquare(C, n - (k + nb))
  {
    var m := n - (k + nb);
    PanelDiagonalNonzero(a, n, k, nb);
    SchurBlock(Sub(a, k, k, nb, nb), Sub(a, k + nb, k, m, nb), Sub(a, k + nb, k + nb, m, m), nb, m)
  }

  /** a with L in place of A21 and C in place of A22, for the panel [k, k + nb). */
  function Assemble(a: Mat, n: nat, k: nat, nb: nat, L: Mat, C: Mat): (b: Mat)
    requires IsSquare(a, n) && k + nb <= n && IsMat(L, n - (k + nb), nb) && IsSquare(C, n - (k + nb))
    ensures IsSquare(b, n)
  {
    seq(n, r requires 0 <= r < n => seq(n, c requires 0 <= c < n =>
      if k + nb <= r && k <= c < k + nb then L[r - (k + nb)][c - k]
      else if k + nb <= r && k + nb <= c then C[r - (k + nb)][c - (k + nb)]
      else a[r][c]))
  }

  /** The two write-backs of the driver, A21 := L and A22 := C, assemble the update. */
  lemma AssembleIsStores(a: Mat, n: nat, k: nat, nb: nat, L: Mat, C: Mat)
    requires IsSquare(a, n) && k + nb <= n && IsMat(L, n - (k + nb), nb) && IsSquare(C, n - (k + nb))
    ensures Put(Put(a, k + nb, k, L, n - (k + nb), nb), k + nb, k + nb, C, n - (k + nb), n - (k + nb)) == Assemble(a, n, k, nb, L, C)
  {
    var m := n - (k + nb);
    var b1 := Put(a, k + nb, k, L, m, nb);
    var b := Put(b1, k + nb, k + nb, C, m, m);
    var e := Assemble(a, n, k, nb, L, C);
    forall r, c | 0 <= r < n && 0 <= c < n
      ensures b[r][c] == e[r][c]
    {
      var x := e[r][c];
      if k + nb <= r && k + nb <= c {
        assert x == C[r - (k + nb)][c - (k + nb)];
        assert b[r][c] == x;
      } else if k + nb <= r && k <= c {
        assert x == L[r - (k + nb)][c - k];
        assert b1[r][c] == x;
        assert b[r][c] == b1[r][c];
      } else {
        assert x == a[r][c];
        assert b1[r][c] == x;
        assert b[r][c] == b1[r][c];
      }
    }
    MatEq(b, e, n, n);
  }

  /** The update after the kernel has run on the panel [k, k + nb): A21 becomes L21,
      A22 becomes Schur22, and nothing else changes. The update divides by the
      panel's pivots, which the kernel has made non-zero; were one of them zero, the
      matrix would be left as it is. */
  function TrailingUpdate(a: Mat, n: nat, k: nat, nb: nat): (b: Mat)
    requires IsSquare(a, n) && k + nb <= n
    ensures IsSquare(b, n)
  {
    seq(n, r => seq(n, c => UpdatedEntry(a, n, k, nb, r, c)))
  }

  /** Entry (r, c) of TrailingUpdate (zero outside the matrix). */
  function UpdatedEntry(a: Mat, n: nat, k: nat, nb: nat, r: int, c: int): real
    requires IsSquare(a, n) && k + nb <= n
  {
    if !(0 <= r < n && 0 <= c < n) then 0.0
    else if !PivotsNonzero(a, n, k, nb) then a[r][c]
    else if k + nb <= r && k <= c < k + nb then Scaled21(a, n, k, nb)[r - (k + nb)][c - k]
    else if k + nb <= r && k + nb <= c then Schur22(a, n, k, nb)[r - (k + nb)][c - (k + nb)]
    else a[r][c]
  }

  /** The update is a with Scaled21 and Schur22 in place of A21 and A22. */
  lemma TrailingUpdateIsAssemble(a: Mat, n: nat, k: nat, nb: nat)
    requires IsSquare(a, n) && k + nb <= n && PivotsNonzero(a, n, k, nb)
    ensures TrailingUpdate(a, n, k, nb) == Assemble(a, n, k, nb, Scaled21(a, n, k, nb), Schur22(a, n, k, nb))
  {
    MatEq(TrailingUpdate(a, n, k, nb), Assemble(a, n, k, nb, Scaled21(a, n, k, nb), Schur22(a, n, k, nb)), n, n);
  }

  /** The update writes only A21 and the lower triangle of A22. */
  lemma TrailingUpdateFootprint(a: Mat, n: nat, k: nat, nb: nat)
    requires IsSquare(a, n) && k + nb <= n && PivotsNonzero(a, n, k, nb)
    ensures forall r, c :: 0 <= r < n && 0 <= c < n && !(k + nb <= r && k <= c <= r) ==>
      TrailingUpdate(a, n, k, nb)[r][c] == a[r][c]
  {
    var m := n - (k + nb);
    var C := Schur22(a, n, k, nb);
    var A22 := Sub(a, k + nb, k + nb, m, m);
    assert forall r, c :: 0 <= r < c < m ==> C[r][c] == A22[r][c];
  }

  /** One pass of the blocked driver over the panel p: the kernel on A11, then the
      update of A21 and A22. */
  function PanelStep(st: LdlState, n: nat, p: Panel, signs: seq<int>, pivTol: real, regMag: real): (st': LdlState)
    requires Shaped(st, n) && p.k + p.nb <= n && SignsFit(signs, 0, n) && Regularizable(pivTol, regMag)
    ensures Shaped(st', n) && |st'.reg| == |st.reg|
  {
    var s1 := Sweep(st, n, signs, p.k, p.k + p.nb, p.k + p.nb, pivTol, regMag);
    LdlState(TrailingUpdate(s1.a, n, p.k, p.nb), s1.reg, s1.piv)
  }

  /** The blocked driver over the panels ps, in order. */
  function RunPanels(st: LdlState, n: nat, ps: seq<Panel>, signs: seq<int>, pivTol: real, regMag: real): (st': LdlState)
    requires Shaped(st, n) && PanelsFit(ps, n) && SignsFit(signs, 0, n) && Regularizable(pivTol, regMag)
    ensures Shaped(st', n) && |st'.reg| == |st.reg|
    decreases |ps|
  {
    if ps == [] then st
    else RunPanels(PanelStep(st, n, ps[0], signs, pivTol, regMag), n, ps[1..], signs, pivTol, regMag)
  }

  /** RegularizedVar3 on an n-by-n matrix a and a vector reg of at least n entries,
      with block size bsize. */
  function Factor(a: Mat, reg: seq<real>, n: nat, signs: seq<int>, pivTol: real, regMag: real, bsize: nat): (st': LdlState)
    requires IsSquare(a, n) && n <= |reg| && SignsFit(signs, 0, n) && Regularizable(pivTol, regMag) && bsize >= 1
    ensures Shaped(st', n) && |st'.reg| == |reg|
  {
    RunPanels(Init(a, reg), n, Panels(n, bsize), signs, pivTol, regMag)
  }

  /** A pass over a panel writes only entries on or below the diagonal in the columns
      from the panel on, and only the entries of reg inside the panel. */
  lemma PanelStepFootprint(st: LdlState, n: nat, p: Panel, signs: seq<int>, pivTol: real, regMag: real)
    requires Shaped(st, n) && p.k + p.nb <= n && SignsFit(signs, 0, n) && Regularizable(pivTol, regMag)
    ensures var st' := PanelStep(st, n, p, signs, pivTol, regMag);
      (forall r, c :: 0 <= r < n && 0 <= c < n && !(p.k <= c <= r) ==> st'.a[r][c] == st.a[r][c]) &&
      (forall i :: 0 <= i < |st.reg| && !Contains(p, i) ==> st'.reg[i] == st.reg[i] && st'.piv[i] == st.piv[i])
  {
    var s1 := Sweep(st, n, signs, p.k, p.k + p.nb, p.k + p.nb, pivTol, regMag);
    SweepFootprint(st, n, signs, p.k, p.k + p.nb, p.k + p.nb, pivTol, regMag);
    SweepDiagonalNonzero(st, n, signs, p.k, p.k + p.nb, p.k + p.nb, pivTol, regMag);
    TrailingUpdateFootprint(s1.a, n, p.k, p.nb);
  }

  /** Within its own panel, a pass leaves exactly what the kernel produced: the
      pivot, the perturbation and the regularized diagonal entry of each column j. */
  lemma PanelStepPivot(st: LdlState, n: nat, p: Panel, signs: seq<int>, pivTol: real, regMag: real, j: nat)
    requires Shaped(st, n) && p.k + p.nb <= n && SignsFit(signs, 0, n) && Regularizable(pivTol, regMag)
    requires p.k <= j < p.k + p.nb
    ensures var st' := PanelStep(st, n, p, signs, pivTol, regMag);
      && st'.piv[j] == Sweep(st, n, signs, p.k, j, p.k + p.nb, pivTol, regMag).a[j][j]
      && st'.reg[j] == Perturbation(st'.piv[j], signs[j], pivTol, regMag)
      && st'.a[j][j] == RegularizedPivot(st'.piv[j], signs[j], pivTol, regMag)
  {
    var hi := p.k + p.nb;
    var s1 := Sweep(st, n, signs, p.k, hi, hi, pivTol, regMag);
    SweepDiagonalNonzero(st, n, signs, p.k, hi, hi, pivTol, regMag);
    TrailingUpdateFootprint(s1.a, n, p.k, p.nb);
    SweepColumnsSettle(st, n, signs, p.k, hi, hi, pivTol, regMag, j);
  }

  /** The blocked driver never writes an entry strictly above the diagonal. */
  lemma {:induction false} RunPanelsKeepUpper(st: LdlState, n: nat, ps: seq<Panel>, signs: seq<int>, pivTol: real, regMag: real)
    requires Shaped(st, n) && PanelsFit(ps, n) && SignsFit(signs, 0, n) && Regularizable(pivTol, regMag)
    ensures forall r, c :: 0 <= r < c < n ==> RunPanels(st, n, ps, signs, pivTol, regMag).a[r][c] == st.a[r][c]
    decreases |ps|
  {
    if ps != [] {
      PanelStepFootprint(st, n, ps[0], signs, pivTol, regMag);
      RunPanelsKeepUpper(PanelStep(st, n, ps[0], signs, pivTol, regMag), n, ps[1..], signs, pivTol, regMag);
    }
  }

  /** The panels visited from k fit in [0, n). */
  lemma PanelsFromFit(k: nat, n: nat, bsize: nat)
    requires bsize >= 1
    ensures PanelsFit(PanelsFrom(k, n, bsize), n)
  {
  }

  /** The state of the blocked driver running the panels ps just before it processes
      column j: the pivot it reads for column j is this state's diagonal entry. */
  function AtColumn(st: LdlState, n: nat, ps: seq<Panel>, signs: seq<int>, pivTol: real, regMag: real, j: nat): (st': LdlState)
    requires Shaped(st, n) && PanelsFit(ps, n) && SignsFit(signs, 0, n) && Regularizable(pivTol, regMag)
    ensures Shaped(st', n)
    decreases |ps|
  {
    if ps == [] then st
    else if Contains(ps[0], j) then Sweep(st, n, signs, ps[0].k, j, ps[0].k + ps[0].nb, pivTol, regMag)
    else AtColumn(PanelStep(st, n, ps[0], signs, pivTol, regMag), n, ps[1..], signs, pivTol, regMag, j)
  }

  /** After the blocked driver, a column j of one of its panels has reg[j] equal to the
      perturbation of the pivot read for it, and the regularized pivot on the diagonal. */
  lemma {:induction false} RunPanelsPivot(st: LdlState, n: nat, ps: seq<Panel>, signs: seq<int>, pivTol: real, regMag: real, j: nat)
    requires Shaped(st, n) && PanelsFit(ps, n) && Ordered(ps) && SignsFit(signs, 0, n) && Regularizable(pivTol, regMag)
    requires InSomePanel(ps, j)
    ensures var st' := RunPanels(st, n, ps, signs, pivTol, regMag);
      && st'.piv[j] == AtColumn(st, n, ps, signs, pivTol, regMag, j).a[j][j]
      && st'.reg[j] == Perturbation(st'.piv[j], signs[j], pivTol, regMag)
      && st'.a[j][j] == RegularizedPivot(st'.piv[j], signs[j], pivTol, regMag)
    decreases |ps|
  {
    var s1 := PanelStep(st, n, ps[0], signs, pivTol, regMag);
    if Contains(ps[0], j) {
      RunPanelsPivotFirst(st, n, ps, signs, pivTol, regMag, j);
    } else {
      var i :| 0 <= i < |ps| && Contains(ps[i], j);
      assert Contains(ps[1..][i - 1], j);
      assert AtColumn(st, n, ps, signs, pivTol, regMag, j) == AtColumn(s1, n, ps[1..], signs, pivTol, regMag, j);
      assert RunPanels(st, n, ps, signs, pivTol, regMag) == RunPanels(s1, n, ps[1..], signs, pivTol, regMag);
      RunPanelsPivot(s1, n, ps[1..], signs, pivTol, regMag, j);
    }
  }

  /** The case of RunPanelsPivot where j lies in the first panel. */
  lemma RunPanelsPivotFirst(st: LdlState, n: nat, ps: seq<Panel>, signs: seq<int>, pivTol: real, regMag: real, j: nat)
    requires Shaped(st, n) && PanelsFit(ps, n) && Ordered(ps) && SignsFit(signs, 0, n) && Regularizable(pivTol, regMag)
    requires ps != [] && Contains(ps[0], j)
    ensures var st' := RunPanels(st, n, ps, signs, pivTol, regMag);
      && st'.piv[j] == AtColumn(st, n, ps, signs, pivTol, regMag, j).a[j][j]
      && st'.reg[j] == Perturbation(st'.piv[j], signs[j], pivTol, regMag)
      && st'.a[j][j] == RegularizedPivot(st'.piv[j], signs[j], pivTol, regMag)
  {
    var s1 := PanelStep(st, n, ps[0], signs, pivTol, regMag);
    var fin := RunPanels(s1, n, ps[1..], signs, pivTol, regMag);
    assert RunPanels(st, n, ps, signs, pivTol, regMag) == fin;
    var before := Sweep(st, n, signs, ps[0].k, j, ps[0].k + ps[0].nb, pivTol, regMag);
    assert AtColumn(st, n, ps, signs, pivTol, regMag, j) == before;
    PanelStepPivot(st, n, ps[0], signs, pivTol, regMag, j);
    RunPanelsLaterColumn(s1, n, ps[1..], ps[0].k + ps[0].nb, signs, pivTol, regMag, j);
  }

  /** Panels that start after column j leave its pivot, reg entry and diagonal entry. */
  lemma RunPanelsLaterColumn(st: LdlState, n: nat, ps: seq<Panel>, k: nat, signs: seq<int>, pivTol: real, regMag: real, j: nat)
    requires Shaped(st, n) && PanelsFit(ps, n) && SignsFit(signs, 0, n) && Regularizable(pivTol, regMag)
    requires forall i :: 0 <= i < |ps| ==> k <= ps[i].k
    requires j < k && j < n
    ensures var st' := RunPanels(st, n, ps, signs, pivTol, regMag);
      st'.piv[j] == st.piv[j] && st'.reg[j] == st.reg[j] && st'.a[j][j] == st.a[j][j]
  {
    RunPanelsLaterPanels(st, n, ps, k, signs, pivTol, regMag);
  }


  /** RegularizedVar3 leaves, in every column j, reg[j] equal to the perturbation of
      the pivot read for column j, and the regularized pivot on the diagonal: when
      sign * pivot <= pivTol, reg[j] = sign * regMag - pivot and the diagonal holds
      sign * regMag; otherwise reg[j] = 0 and the diagonal holds the pivot. Above the
      diagonal nothing changes. */
  lemma FactorPivots(a: Mat, reg: seq<real>, n: nat, signs: seq<int>, pivTol: real, regMag: real, bsize: nat)
    requires IsSquare(a, n) && n <= |reg| && SignsFit(signs, 0, n) && Regularizable(pivTol, regMag) && bsize >= 1
    ensures var st' := Factor(a, reg, n, signs, pivTol, regMag, bsize);
      forall j :: 0 <= j < n ==>
        var alpha := AtColumn(Init(a, reg), n, Panels(n, bsize), signs, pivTol, regMag, j).a[j][j];
        && st'.piv[j] == alpha
        && (Unsafe(alpha, signs[j], pivTol) ==>
              st'.reg[j] == (signs[j] as real) * regMag - alpha && st'.a[j][j] == (signs[j] as real) * regMag)
        && (!Unsafe(alpha, signs[j], pivTol) ==> st'.reg[j] == 0.0 && st'.a[j][j] == alpha)
        && st'.a[j][j] == alpha + st'.reg[j]
    ensures var st' := Factor(a, reg, n, signs, pivTol, regMag, bsize);
      forall r, c :: 0 <= r < c < n ==> st'.a[r][c] == a[r][c]
  {
    PanelsFromFit(0, n, bsize);
    PanelsFromOrdered(0, n, bsize);
    PanelsCover(n, bsize);
    forall j | 0 <= j < n
      ensures var st' := Factor(a, reg, n, signs, pivTol, regMag, bsize);
        var alpha := AtColumn(Init(a, reg), n, Panels(n, bsize), signs, pivTol, regMag, j).a[j][j];
        && st'.piv[j] == alpha
        && (Unsafe(alpha, signs[j], pivTol) ==>
              st'.reg[j] == (signs[j] as real) * regMag - alpha && st'.a[j][j] == (signs[j] as real) * regMag)
        && (!Unsafe(alpha, signs[j], pivTol) ==> st'.reg[j] == 0.0 && st'.a[j][j] == alpha)
        && st'.a[j][j] == alpha + st'.reg[j]
    {
      RunPanelsPivot(Init(a, reg), n, Panels(n, bsize), signs, pivTol, regMag, j);
    }
    RunPanelsKeepUpper(Init(a, reg), n, Panels(n, bsize), signs, pivTol, regMag);
  }

  /** Panels that start at k or later leave the columns before k, and the entries of
      reg and piv outside [k, n), as they were. */
  lemma {:induction false} RunPanelsLaterPanels(st: LdlState, n: nat, ps: seq<Panel>, k: nat, signs: seq<int>, pivTol: real, regMag: real)
    requires Shaped(st, n) && PanelsFit(ps, n) && SignsFit(signs, 0, n) && Regularizable(pivTol, regMag)
    requires forall i :: 0 <= i < |ps| ==> k <= ps[i].k
    ensures var st' := RunPanels(st, n, ps, signs, pivTol, regMag);
      (forall r, c :: 0 <= r < n && 0 <= c < n && c < k ==> st'.a[r][c] == st.a[r][c]) &&
      (forall i :: 0 <= i < |st.reg| && (i < k || n <= i) ==> st'.reg[i] == st.reg[i] && st'.piv[i] == st.piv[i])
    decreases |ps|
  {
    if ps != [] {
      PanelStepFootprint(st, n, ps[0], signs, pivTol, regMag);
      RunPanelsLaterPanels(PanelStep(st, n, ps[0], signs, pivTol, regMag), n, ps[1..], k, signs, pivTol, regMag);
    }
  }

  /** Started at k < n, the driver does the panel at k and then goes on from k + bsize. */
  lemma RunPanelsUnfold(st: LdlState, n: nat, k: nat, bsize: nat, signs: seq<int>, pivTol: real, regMag: real)
    requires Shaped(st, n) && bsize >= 1 && SignsFit(signs, 0, n) && Regularizable(pivTol, regMag) && k < n
    ensures PanelsFit(PanelsFrom(k, n, bsize), n) && PanelsFit(PanelsFrom(k + bsize, n, bsize), n)
    ensures RunPanels(st, n, PanelsFrom(k, n, bsize), signs, pivTol, regMag) ==
      RunPanels(PanelStep(st, n, Panel(k, Min(bsize, n - k)), signs, pivTol, regMag), n, PanelsFrom(k + bsize, n, bsize), signs, pivTol, regMag)
  {
    PanelsFromFit(k, n, bsize);
    PanelsFromFit(k + bsize, n, bsize);
    var ps := PanelsFrom(k, n, bsize);
    assert ps[1..] == PanelsFrom(k + bsize, n, bsize);
  }

  /** The two write-backs A21 := L and A22 := C. */
  method StoreUpdate(A: array2<real>, k: nat, nb: nat, L: Mat, C: Mat)
    requires A.Length0 == A.Length1 && k + nb <= A.Length0
    requires IsMat(L, A.Length0 - (k + nb), nb) && IsSquare(C, A.Length0 - (k + nb))
    modifies A
    ensures Snapshot(A) == Assemble(old(Snapshot(A)), A.Length0, k, nb, L, C)
  {
    ghost var a := Snapshot(A);
    var m := A.Length0 - (k + nb);
    Store(A, k + nb, k, L, m, nb);
    Store(A, k + nb, k + nb, C, m, m);
    AssembleIsStores(a, A.Length0, k, nb, L, C);
  }

  /** The trailing update of the blocked driver for the panel [k, k + nb): the panel's
      diagonal block solves and scales the column block below it, whose product then
      updates the lower triangle of the trailing block; the result is TrailingUpdate. */
  method TrailingUpdateInPlace(A: array2<real>, k: nat, nb: nat)
    requires A.Length0 == A.Length1 && k + nb <= A.Length0
    requires PivotsNonzero(Snapshot(A), A.Length0, k, nb)
    modifies A
    ensures Snapshot(A) == TrailingUpdate(old(Snapshot(A)), A.Length0, k, nb)
  {
    ghost var a := Snapshot(A);
    var L21, C := TrailingBlocks(A, k, nb);
    StoreUpdate(A, k, nb, L21, C);
    TrailingUpdateIsAssemble(a, A.Length0, k, nb);
  }

  /** The new A21 and A22 of the panel [k, k + nb), read from the views A11, A21 and
      A22 of A. */
  method TrailingBlocks(A: array2<real>, k: nat, nb: nat) returns (L21: Mat, C: Mat)
    requires A.Length0 == A.Length1 && k + nb <= A.Length0
    requires PivotsNonzero(Snapshot(A), A.Length0, k, nb)
    ensures L21 == Scaled21(Snapshot(A), A.Length0, k, nb)
    ensures C == Schur22(Snapshot(A), A.Length0, k, nb)
  {
    ghost var a := Snapshot(A);
    var n := A.Length0;
    PanelDiagonalNonzero(a, n, k, nb);
    var m := n - (k + nb);
    var A11 := Block(A, k, k, nb, nb);
    var A21 := Block(A, k + nb, k, m, nb);
    var A22 := Block(A, k + nb, k + nb, m, m);
    var S21;
    S21, L21, C := UpdateBlocks(A11, A21, A22, nb, m);
    assert L21 == Scaled21(a, n, k, nb);
    assert C == Schur22(a, n, k, nb);
  }

  /** The blocks the trailing update computes from A11, A21 and A22: S21 solves
      S21 tril1(A11)^H = A21, L21 solves L21 diag(A11) = S21, and C is A22 - S21 L21^H
      on and below the diagonal of A22 and A22 above it. */
  predicate SolvesTrailing(S21: Mat, L21: Mat, C: Mat, A11: Mat, A21: Mat, A22: Mat, nb: nat, m: nat) {
    && IsSquare(A11, nb) && IsMat(A21, m, nb) && IsSquare(A22, m)
    && IsMat(S21, m, nb) && IsMat(L21, m, nb) && IsSquare(C, m)
    && (forall r, c :: 0 <= r < m && 0 <= c < nb ==> RowDot(S21[r], A11[c], c) + S21[r][c] == A21[r][c])
    && (forall r, c :: 0 <= r < m && 0 <= c < nb ==> L21[r][c] * A11[c][c] == S21[r][c])
    && (forall r, c :: 0 <= c <= r < m ==> C[r][c] + Dot(S21[r], L21[c]) == A22[r][c])
    && (forall r, c :: 0 <= r < c < m ==> C[r][c] == A22[r][c])
  }

  /** Trsm, DiagonalSolve and Trrk on the views: S21 := A21 tril1(A11)^-H,
      L21 := S21 diag(A11)^-1, and A22 - S21 L21^H on and below the diagonal of A22. */
  method UpdateBlocks(A11: Mat, A21: Mat, A22: Mat, nb: nat, m: nat) returns (S21: Mat, L21: Mat, C: Mat)
    requires IsSquare(A11, nb) && IsMat(A21, m, nb) && IsSquare(A22, m) && DiagonalNonzero(A11, nb)
    ensures SolvesTrailing(S21, L21, C, A11, A21, A22, nb, m)
    ensures L21 == ScaledPanel(A11, A21, nb, m) && C == SchurBlock(A11, A21, A22, nb, m)
  {
    var d1 := Diagonal(A11, nb);
    S21 := TrsmRightLowerAdjointUnit(A11, A21, nb, m);
    L21 := DiagonalSolveRight(d1, S21, m, nb);
    forall r, c | 0 <= r < m && 0 <= c < nb
      ensures L21[r][c] * A11[c][c] == S21[r][c]
    {
      assert d1[c] == A11[c][c];
    }
    C := TrrkLower(A22, S21, L21, m, nb);
  }

  /** One iteration of the blocked driver: the kernel on the panel [k, k + nb), then
      the update of the blocks below and to the right of it. piv stands for the
      pivots recorded so far, which the pass does not read. */
  method PanelPass(A: array2<real>, k: nat, nb: nat, pivTol: real, regMag: real,
                   pivSign: array2<int>, reg: array<real>, ghost piv: seq<real>)
    requires A.Length0 == A.Length1 && k + nb <= A.Length0
    requires k + nb <= pivSign.Length0 && 1 <= pivSign.Length1 && A.Length0 <= reg.Length
    requires |piv| == reg.Length && SignsFit(Signs(pivSign), 0, A.Length0)
    requires Regularizable(pivTol, regMag)
    modifies A, reg
    ensures var st := PanelStep(LdlState(old(Snapshot(A)), old(reg[..]), piv), A.Length0, Panel(k, nb), Signs(pivSign), pivTol, regMag);
      Snapshot(A) == st.a && reg[..] == st.reg
  {
    ghost var a := Snapshot(A);
    PanelStepFromInit(LdlState(a, reg[..], piv), A.Length0, k, nb, Signs(pivSign), pivTol, regMag);
    RegularizedVar3UnbOnView(A, k, nb, pivTol, regMag, pivSign, reg);
    TrailingUpdateInPlace(A, k, nb);
  }

  /** A pass over a panel does not depend on the pivots recorded before it: it is the
      kernel run from Init, followed by the update. */
  lemma PanelStepFromInit(st: LdlState, n: nat, k: nat, nb: nat, signs: seq<int>, pivTol: real, regMag: real)
    requires Shaped(st, n) && k + nb <= n && SignsFit(signs, 0, n) && Regularizable(pivTol, regMag)
    ensures var w := Sweep(Init(st.a, st.reg), n, signs, k, k + nb, k + nb, pivTol, regMag);
      && PivotsNonzero(w.a, n, k, nb)
      && PanelStep(st, n, Panel(k, nb), signs, pivTol, regMag).a == TrailingUpdate(w.a, n, k, nb)
      && PanelStep(st, n, Panel(k, nb), signs, pivTol, regMag).reg == w.reg
  {
    SweepIgnoresPivots(st.a, st.reg, st.piv, Init(st.a, st.reg).piv, n, signs, k, k + nb, k + nb, pivTol, regMag);
    SweepDiagonalNonzero(st, n, signs, k, k + nb, k + nb, pivTol, regMag);
  }

  /** The blocked driver's loop, at k with the state st, goes on to end in goal. */
  predicate Reaches(st: LdlState, n: nat, k: nat, bsize: nat, signs: seq<int>, pivTol: real, regMag: real, goal: LdlState) {
    && Shaped(st, n) && bsize >= 1 && SignsFit(signs, 0, n) && Regularizable(pivTol, regMag)
    && RunPanels(st, n, PanelsFrom(k, n, bsize), signs, pivTol, regMag) == goal
  }

  /** The array A and the vector reg hold the state st. */
  ghost predicate Holds(A: array2<real>, reg: array<real>, st: LdlState)
    reads A, reg
  {
    st.a == Snapshot(A) && st.reg == reg[..] && |st.piv| == reg.Length
  }

  /** One turn of the blocked driver's loop at k: the pass over the panel at k takes
      the array from the state cur to the next one, from which the remaining turns
      reach the same end. */
  method DriverStep(A: array2<real>, k: nat, bsize: nat, pivTol: real, regMag: real,
                    pivSign: array2<int>, reg: array<real>, ghost signs: seq<int>, ghost cur: LdlState, ghost goal: LdlState)
    returns (ghost next: LdlState)
    requires A.Length0 == A.Length1 && k < A.Length0 && bsize >= 1
    requires A.Length0 <= pivSign.Length0 && 1 <= pivSign.Length1 && A.Length0 <= reg.Length
    requires Holds(A, reg, cur)
    requires signs == Signs(pivSign) && SignsFit(signs, 0, A.Length0) && Regularizable(pivTol, regMag)
    modifies A, reg
    requires Reaches(cur, A.Length0, k, bsize, signs, pivTol, regMag, goal)
    ensures Holds(A, reg, next)
    ensures Reaches(next, A.Length0, k + bsize, bsize, signs, pivTol, regMag, goal)
  {
    var n := A.Length0;
    var nb := Min(bsize, n - k);
    next := PanelStep(cur, n, Panel(k, nb), signs, pivTol, regMag);
    RunPanelsUnfold(cur, n, k, bsize, signs, pivTol, regMag);
    PanelPass(A, k, nb, pivTol, regMag, pivSign, reg, cur.piv);
  }

  /** The panel loop of the blocked driver on a square A: from the state the array
      starts in, the passes over the panels reach goal, and the loop leaves A and reg
      holding it. */
  method PanelLoop(A: array2<real>, pivTol: real, regMag: real, pivSign: array2<int>, reg: array<real>, bsize: nat,
                   ghost signs: seq<int>, ghost goal: LdlState)
    requires bsize >= 1 && Regularizable(pivTol, regMag) && A.Length0 == A.Length1
    requires A.Length0 <= pivSign.Length0 && (A.Length0 > 0 ==> 1 <= pivSign.Length1) && A.Length0 <= reg.Length
    requires signs == Signs(pivSign) && SignsFit(signs, 0, A.Length0)
    requires Reaches(Init(Snapshot(A), reg[..]), A.Length0, 0, bsize, signs, pivTol, regMag, goal)
    modifies A, reg
    ensures Snapshot(A) == goal.a && reg[..] == goal.reg
  {
    var n := A.Length0;
    ghost var cur := Init(Snapshot(A), reg[..]);
    var k := 0;
    while k < n
      invariant Holds(A, reg, cur)
      invariant Reaches(cur, n, k, bsize, signs, pivTol, regMag, goal)
      decreases n - k
    {
      cur := DriverStep(A, k, bsize, pivTol, regMag, pivSign, reg, signs, cur, goal);
      k := k + bsize;
    }
    ReachesDone(cur, n, k, bsize, signs, pivTol, regMag, goal);
  }

  /** Past the last panel, the state reached is the goal. */
  lemma ReachesDone(st: LdlState, n: nat, k: nat, bsize: nat, signs: seq<int>, pivTol: real, regMag: real, goal: LdlState)
    requires Reaches(st, n, k, bsize, signs, pivTol, regMag, goal) && k >= n
    ensures st == goal
  {
    assert PanelsFrom(k, n, bsize) == [];
  }

  /** RegularizedVar3(A, pivTol, regMag, pivSign, reg) with block size bsize: a
      non-square A is a logic error and nothing changes; otherwise A and reg end up as
      Factor says. pivSign and reg must cover the n columns. */
  method RegularizedVar3(A: array2<real>, pivTol: real, regMag: real, pivSign: array2<int>, reg: array<real>, bsize: nat)
    returns (res: Outcome<LogicError>)
    requires bsize >= 1 && Regularizable(pivTol, regMag)
    requires A.Length0 == A.Length1 ==>
      && A.Length0 <= pivSign.Length0 && (A.Length0 > 0 ==> 1 <= pivSign.Length1) && A.Length0 <= reg.Length
      && forall j :: 0 <= j < A.Length0 ==> pivSign[j, 0] != 0
    modifies A, reg
    ensures res == Fail(NotSquare) <==> A.Length0 != A.Length1
    ensures res.Fail? ==> Snapshot(A) == old(Snapshot(A)) && reg[..] == old(reg[..])
    ensures res.Pass? ==>
      var st := Factor(old(Snapshot(A)), old(reg[..]), A.Length0, Signs(pivSign), pivTol, regMag, bsize);
      Snapshot(A) == st.a && reg[..] == st.reg
  {
    if A.Length0 != A.Length1 {
      return Fail(NotSquare);
    }
    ghost var goal := Factor(Snapshot(A), reg[..], A.Length0, Signs(pivSign), pivTol, regMag, bsize);
    PanelLoop(A, pivTol, regMag, pivSign, reg, bsize, Signs(pivSign), goal);
    res := Pass;
  }
}
