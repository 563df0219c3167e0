# Regularized LDL, packed reflectors and the Hermitian entrywise one-norm (Elemental, serial)

This project models three serial kernels of Elemental's dense linear algebra:

- **RegularizedVar3Unb / RegularizedVar3**: an LDL^H factorization without pivoting.
  Each pivot must have a prescribed sign. When `sign * pivot <= pivTol`, the pivot is
  replaced by `sign * regMag` and the difference is recorded in `reg`. The unblocked
  kernel works column by column on an `array2`. The blocked driver runs that kernel on
  each diagonal panel. It then updates the blocks below and to the right of the panel
  with Trsm, DiagonalSolve and Trrk.
- **LLHF**: applies, from the left, Householder reflectors stored row-wise along an
  offset diagonal of `H` (the `LLHF` variant of ApplyPackedReflectors). It works one
  block of reflectors at a time in compact-WY form. `SInv` is `tril(V V^H)` with `1/t`
  on its diagonal. Each step computes `ATop := ATop - V^H (tril(SInv)^-1 (V ATop))`.
- **HermitianEntrywiseOneNorm**: the entrywise one-norm of a Hermitian matrix, read from
  one triangle.

Scalars are `real`, so conjugation is the identity and the adjoint is the transpose.
Matrices the routines update in place are `array2<real>`. `Matrices.Snapshot` gives
their contents as a value (`seq<seq<real>>`). A view `A(ind1, ind2)` is an array plus
an offset and an extent. `Matrices.Block` reads a view; `Matrices.Store` writes one back
and changes nothing else.

BLAS-like primitives are functions on matrix values (module `BlasLike`). Their
contracts state what they solve or compute. A routine's loop is a `while` loop with
invariants, proved against a specification function. For LDL the specification is:

- `LDL.Sweep`: the kernel over a panel, column by column;
- `LDL.PanelStep`: the kernel on a panel, then the trailing update;
- `LDL.Factor`: `PanelStep` over the panels of `for k = 0; k < n; k += bsize`.

For LLHF the specification is `ApplyPackedReflectors.Llhf`: `Step` folded over the
panels of `for k = 0; k < diagLength; k += bsize` (`Blocking.Panels`). For the norm it is
`HermitianNorm.TriangleNorm`.

The LDL state also records, for each column, the pivot read from the diagonal just
before that column was processed (`piv`). The routine does not keep this value. The
model uses it to state what ends up in `reg` and on the diagonal.

- Each reflector is a row of `H`: `HPan` takes rows `[ki, ki+nb)` (LLHF.hpp:67, 70).
- The test `sign * alpha11 <= pivTol` (RegularizedVar3.hpp:42) is non-strict, so a zero
  pivot with `sign = 1` and `pivTol >= 0` is regularized.

## Model

| member | source | states |
|---|---|---|
| `Blocking.PanelsFrom` | src/lapack_like/factor/dense/LDL/RegularizedVar3.hpp:82-84 | the loop from k visits no panel iff k >= n; the first panel starts at k; every panel has width Min(bsize, n - k) >= 1 and ends by n |
| `Blocking.PanelsFromOrdered` | src/lapack_like/factor/dense/LDL/RegularizedVar3.hpp:82 | each panel of the loop ends before the next one starts |
| `Blocking.PanelsPartition` | src/lapack_like/factor/dense/LDL/RegularizedVar3.hpp:82-87 | every column in [k, n) lies in exactly one panel of the loop |
| `Blocking.PanelsCover` | include/elemental/lapack-like/ApplyPackedReflectors/LLHF.hpp:64-66 | the panels of `for k = 0; k < len; k += bsize`, over which `Llhf` folds its steps, cover [0, len), and no index lies in two of them |
| `BlasLike.ForwardSolve` | include/elemental/lapack-like/ApplyPackedReflectors/LLHF.hpp:81 | the result X satisfies every row of tril(L) X = B, using L's own diagonal (non-unit) or an implicit one (unit); L's strictly upper part is not read |
| `BlasLike.TrsmRightLowerAdjointUnit` | src/lapack_like/factor/dense/LDL/RegularizedVar3.hpp:98 | the result X satisfies X tril1(A11)^H = A21 entry by entry |
| `BlasLike.DiagonalSolveRight` | src/lapack_like/factor/dense/LDL/RegularizedVar3.hpp:100 | the result X satisfies X diag(d1) = S21 entry by entry |
| `BlasLike.TrrkLower` | src/lapack_like/factor/dense/LDL/RegularizedVar3.hpp:101 | on and below the diagonal the result plus S21 L21^H is A22; strictly above the diagonal A22 is unchanged |
| `BlasLike.HerkLower` | include/elemental/lapack-like/ApplyPackedReflectors/LLHF.hpp:77 | SInv holds V V^H on and below the diagonal and zeros above it |
| `LDL.RegularizedPivot` | src/lapack_like/factor/dense/LDL/RegularizedVar3.hpp:40-47 | the pivot the kernel divides by is non-zero, and equals the pivot read plus the amount recorded in reg[j] |
| `LDL.EliminateEffect` | src/lapack_like/factor/dense/LDL/RegularizedVar3.hpp:47-62 | processing column j with pivot d puts d on the diagonal and makes l21 = a21 / d. The lower triangle of the panel's trailing block loses l21 d l21^H. Nothing else changes, including everything strictly above the diagonal |
| `LDL.SweepFootprint` | src/lapack_like/factor/dense/LDL/RegularizedVar3.hpp:36-63 | the kernel writes only the lower triangle of its panel, and writes reg only at the columns it has processed |
| `LDL.SweepColumnsSettle` | src/lapack_like/factor/dense/LDL/RegularizedVar3.hpp:36-63 | once column c is processed, later columns leave column c, reg[c] and the recorded pivot as they were |
| `LDL.SweepPivots` | src/lapack_like/factor/dense/LDL/RegularizedVar3.hpp:40-47 | for every processed column j, reg[j] is the perturbation of the pivot read for it and the diagonal holds the regularized pivot |
| `LDL.SweepDiagonalNonzero` | src/lapack_like/factor/dense/LDL/RegularizedVar3.hpp:45-47 | after the kernel, every diagonal entry of the panel is non-zero, so the blocked update can divide by it |
| `LDL.EliminateInPlace` | src/lapack_like/factor/dense/LDL/RegularizedVar3.hpp:47-62 | the in-place loops leave A equal to Eliminate of its old contents |
| `LDL.UpdateColumn` | src/lapack_like/factor/dense/LDL/RegularizedVar3.hpp:52-58 | one pass of the outer update loop: with c = j+1+k, each entry (r, c) with c <= r < hi becomes A[r][c] - A[r][j] (A[c][j] / alpha11), from the values before the pass, and every other entry is unchanged; this keeps A on the path from the old matrix to Eliminate |
| `LDL.ScaleColumn` | src/lapack_like/factor/dense/LDL/RegularizedVar3.hpp:60-62 | a21 := a21 / alpha11, once A22 is updated |
| `LDL.ZeroRange` | src/lapack_like/factor/dense/LDL/RegularizedVar3.hpp:32 | reg is zero on the view and unchanged elsewhere |
| `LDL.KernelColumn` | src/lapack_like/factor/dense/LDL/RegularizedVar3.hpp:38-62 | one column: A becomes Eliminate with the regularized pivot, and reg[j] becomes the perturbation; no other entry of reg changes |
| `LDL.SweepStep` | src/lapack_like/factor/dense/LDL/RegularizedVar3.hpp:36-63 | one turn of the kernel's loop takes A and reg from Sweep at column j to Sweep at column j + 1 |
| `LDL.KernelLoop` | src/lapack_like/factor/dense/LDL/RegularizedVar3.hpp:36-63 | from reg zeroed on the panel, the kernel's loop leaves A and reg equal to Sweep over the whole panel |
| `LDL.RegularizedVar3UnbOnView` | src/lapack_like/factor/dense/LDL/RegularizedVar3.hpp:93-96 | the kernel on the views A11, pivSign1 and reg1: A and reg end as Sweep over the panel says, and nothing outside the views changes |
| `LDL.RegularizedVar3Unb` | src/lapack_like/factor/dense/LDL/RegularizedVar3.hpp:17-64 | a non-square A, and a pivSign that is not n-by-1, are each a logic error iff they occur, and A is then unchanged; otherwise reg is a fresh vector of length n, and A and reg are the kernel's result from reg = 0 |
| `LDL.PanelDiagonalNonzero` | src/lapack_like/factor/dense/LDL/RegularizedVar3.hpp:97-100 | non-zero pivots of the panel give A11 a non-zero diagonal d1, so DiagonalSolve is defined |
| `LDL.AssembleIsStores` | src/lapack_like/factor/dense/LDL/RegularizedVar3.hpp:89-91 | writing L21 through the view A21 and then C through A22 gives the matrix with exactly those two blocks replaced |
| `LDL.TrailingUpdateFootprint` | src/lapack_like/factor/dense/LDL/RegularizedVar3.hpp:98-101 | the update writes only A21 and the lower triangle of A22 |
| `LDL.UpdateBlocks` | src/lapack_like/factor/dense/LDL/RegularizedVar3.hpp:97-101 | S21 tril1(A11)^H = A21 and L21 diag(A11) = S21 entry by entry; C + S21 L21^H = A22 on and below the diagonal and C = A22 above it |
| `LDL.StoreUpdate` | src/lapack_like/factor/dense/LDL/RegularizedVar3.hpp:100-101 | the two write-backs leave A as Assemble of its old contents |
| `LDL.TrailingUpdateInPlace` | src/lapack_like/factor/dense/LDL/RegularizedVar3.hpp:97-101 | the in-place update leaves A equal to TrailingUpdate of its old contents |
| `LDL.PanelStepFootprint` | src/lapack_like/factor/dense/LDL/RegularizedVar3.hpp:84-101 | a pass over a panel writes only entries on or below the diagonal, in the columns from the panel on, and writes reg only inside the panel |
| `LDL.PanelStepPivot` | src/lapack_like/factor/dense/LDL/RegularizedVar3.hpp:96-101 | within its panel, the pass leaves each column's pivot, perturbation and regularized diagonal entry as the kernel produced them; the update does not touch them |
| `LDL.RunPanelsKeepUpper` | src/lapack_like/factor/dense/LDL/RegularizedVar3.hpp:82-102 | the blocked driver never writes an entry strictly above the diagonal |
| `LDL.RunPanelsLaterPanels` | src/lapack_like/factor/dense/LDL/RegularizedVar3.hpp:82-102 | panels starting at k or later leave the columns before k, and reg outside [k, n), unchanged |
| `LDL.RunPanelsPivot` | src/lapack_like/factor/dense/LDL/RegularizedVar3.hpp:82-102 | for a column j in one of the panels, the driver ends with reg[j] equal to the perturbation of the pivot read for j, and the regularized pivot on the diagonal |
| `LDL.FactorPivots` | src/lapack_like/factor/dense/LDL/RegularizedVar3.hpp:67-103 | after RegularizedVar3, every column j with an unsafe pivot alpha has reg[j] = sign*regMag - alpha and diagonal sign*regMag. Every column with a safe pivot has reg[j] = 0 and diagonal alpha. The diagonal is alpha + reg[j], and nothing strictly above the diagonal changes |
| `LDL.PanelPass` | src/lapack_like/factor/dense/LDL/RegularizedVar3.hpp:84-101 | one iteration of the driver's loop leaves A and reg as PanelStep of their old values |
| `LDL.DriverStep` | src/lapack_like/factor/dense/LDL/RegularizedVar3.hpp:82-102 | one turn of the loop moves A and reg to the next state, from which the remaining panels reach the same end |
| `LDL.PanelLoop` | src/lapack_like/factor/dense/LDL/RegularizedVar3.hpp:82-102 | the loop leaves A and reg holding the state the panels reach from the initial one |
| `LDL.ReachesDone` | src/lapack_like/factor/dense/LDL/RegularizedVar3.hpp:82 | once k >= n no panel remains, and the state reached is the end state |
| `LDL.RegularizedVar3` | src/lapack_like/factor/dense/LDL/RegularizedVar3.hpp:67-103 | a non-square A is a logic error iff it occurs, and A and reg are then unchanged; otherwise A and reg end as Factor says |
| `ApplyPackedReflectors.OffsetsOf` | include/elemental/lapack-like/ApplyPackedReflectors/LLHF.hpp:60-61 | one of iOff and jOff is zero, jOff - iOff = offset, and jOff = 0 iff offset <= 0 |
| `ApplyPackedReflectors.DiagonalLength` | include/elemental/lapack-like/ApplyPackedReflectors/LLHF.hpp:53 | the rows holding an entry of the diagonal `offset` are exactly [iOff, iOff + diagLength) |
| `ApplyPackedReflectors.DiagonalFits` | include/elemental/lapack-like/ApplyPackedReflectors/LLHF.hpp:53 | a non-empty diagonal of length d starting at (iOff, jOff) fits in H |
| `ApplyPackedReflectors.ViewsInBounds` | include/elemental/lapack-like/ApplyPackedReflectors/LLHF.hpp:66-72 | for a panel inside the diagonal, HPan, t1 and ATop lie inside H, t and A; with offset <= 0, HPan's width k + nb fits A's height |
| `ApplyPackedReflectors.Reflectors` | include/elemental/lapack-like/ApplyPackedReflectors/LLHF.hpp:74-76 | row i of HPanCopy is reflector ki + i: H's entries left of column kj + i, a one at kj + i, zeros to its right |
| `ApplyPackedReflectors.CentreInverseShape` | include/elemental/lapack-like/ApplyPackedReflectors/LLHF.hpp:33-38 | SInv is lower triangular, holds tril(V V^H) strictly below the diagonal and 1/t on it, and has no zero on its diagonal |
| `ApplyPackedReflectors.OneReflector` | include/elemental/lapack-like/ApplyPackedReflectors/LLHF.hpp:24-31 | with one reflector v and scalar tau the update is (I - tau v^H v) ATop: entry (r, c) loses v[r] tau (v . column c) |
| `ApplyPackedReflectors.TwoReflectors` | include/elemental/lapack-like/ApplyPackedReflectors/LLHF.hpp:24-38 | with two reflectors v0, v1 and scalars t0, t1, the compact-WY update with SInv = tril(V V^H), 1/t on the diagonal, equals (I - t1 v1^H v1)(I - t0 v0^H v0) ATop, v0's reflection applied first |
| `ApplyPackedReflectors.PanelTop` | include/elemental/lapack-like/ApplyPackedReflectors/LLHF.hpp:74-82 | row i of V is HPan left of column k+i, a one at k+i and zeros right of it; SInv is tril(V V^H) below the diagonal, 1/t1 on it and 0 above it; Z solves tril(SInv) Z = V ATop; the new ATop plus V^H Z is the old ATop |
| `ApplyPackedReflectors.StoreTop` | include/elemental/lapack-like/ApplyPackedReflectors/LLHF.hpp:82 | writing through the view ATop replaces the first k + nb rows of A and nothing else |
| `ApplyPackedReflectors.ApplyBlock` | include/elemental/lapack-like/ApplyPackedReflectors/LLHF.hpp:66-82 | one iteration leaves A equal to Step of its old contents; H and t are only read |
| `ApplyPackedReflectors.StepKeepsRowsBelow` | include/elemental/lapack-like/ApplyPackedReflectors/LLHF.hpp:71 | step k changes no row at or below k + nb |
| `ApplyPackedReflectors.LlhfKeepsRowsBelow` | include/elemental/lapack-like/ApplyPackedReflectors/LLHF.hpp:63-83 | LLHF changes no row of A at or below the diagonal length |
| `ApplyPackedReflectors.BlockLoop` | include/elemental/lapack-like/ApplyPackedReflectors/LLHF.hpp:63-83 | the block loop leaves A equal to Llhf of its old contents, the fold of Step over the panels of the loop |
| `ApplyPackedReflectors.LLHF` | include/elemental/lapack-like/ApplyPackedReflectors/LLHF.hpp:41-84 | each of the three errors occurs iff its condition holds: H's width differs from A's height; t's length differs from the diagonal length; or a positive offset with a non-empty diagonal makes the first Gemm nonconformal. On an error A is unchanged; otherwise A ends as Llhf says |
| `HermitianNorm.SumColumn` | include/elemental/lapack-like/HermitianNorm/EntrywiseOne.hpp:33-40 | the inner loop adds the visits of rows [lo, hi) of column j |
| `HermitianNorm.SumTriangle` | include/elemental/lapack-like/HermitianNorm/EntrywiseOne.hpp:26-56 | the two loops compute TriangleNorm of A, for UPPER and for LOWER |
| `HermitianNorm.HermitianEntrywiseOneNorm` | include/elemental/lapack-like/HermitianNorm/EntrywiseOne.hpp:15-61 | a non-square A is the logic error iff it occurs; otherwise the result is the weighted sum over the strict triangle `uplo` |
| `HermitianNorm.TinyNormIsZero` | include/elemental/lapack-like/HermitianNorm/EntrywiseOne.hpp:29-56 | for n <= 1 the norm as written is 0 |
| `HermitianNorm.NormIgnoresOtherTriangle` | include/elemental/lapack-like/HermitianNorm/EntrywiseOne.hpp:29-56 | the norm depends only on the magnitudes of the entries in the triangle `uplo` |
| `HermitianNorm.UpperEqualsLower` | include/elemental/lapack-like/HermitianNorm/EntrywiseOne.hpp:29-56 | when the magnitudes mirror each other, as a Hermitian matrix's do, UPPER and LOWER give the same norm |
| `HermitianNorm.AsWrittenMissesDiagonal` | include/elemental/lapack-like/HermitianNorm/EntrywiseOne.hpp:33-39 | for a Hermitian matrix, the norm as written plus the diagonal's magnitudes is the entrywise one-norm |
| `HermitianNorm.AsWrittenCounterexample` | include/elemental/lapack-like/HermitianNorm/EntrywiseOne.hpp:33-39 | for the 1-by-1 matrix [5] the norm as written is 0; its entrywise one-norm, and the corrected norm, are 5 |
| `HermitianNorm.HermitianEntrywiseOneNormCorrected` | include/elemental/lapack-like/HermitianNorm/EntrywiseOne.hpp:81-97 | as the norm, with the diagonal counted once, as the distributed overload does |
| `HermitianNorm.CorrectedIsEntrywiseOneNorm` | include/elemental/lapack-like/HermitianNorm/EntrywiseOne.hpp:15-61 | for a Hermitian matrix the corrected norm is the sum of the magnitudes of all entries, whichever triangle it reads |

## Left out

- Floating point: scalars are exact `real`s, so rounding, overflow and NaN are not modelled.
- Complex scalars: `Conj`, `RealPart` and the conjugation flag of LLHF have no effect over the reals.
- The distributed overloads of all three routines (RegularizedVar3.hpp:105 onwards, LLHF.hpp:86 onwards, EntrywiseOne.hpp:63-123): they need MPI, process grids and redistribution.
- The BLAS implementations behind Gemm, Trsm, Herk, Trrk and DiagonalSolve. Each is a function whose contract states what it computes.
- `Blocksize()` is a global setting; here it is the parameter `bsize >= 1`.
- `Matrix::DiagonalLength`, which LLHF.hpp:53 calls, is defined outside the modelled files. `ApplyPackedReflectors.DiagonalLength` restates Elemental's formula for the length of the diagonal `offset`, with a positive offset above the main diagonal.
- `examples/lapack-like/RealSymmetricFunction.cpp` is not part of this model.
- ApplyPackedReflectors.TwoReflectors: the compact-WY identity is proved for one reflector (`OneReflector`) and for two; for blocks of three or more reflectors it is not stated.
- The reconstruction property L D L^H = A + diag(reg) of the blocked factorization, and its independence of the block size, are not stated.
- `LDL.TrailingUpdate` leaves the matrix unchanged if a panel pivot were zero. The kernel never leaves a zero pivot, so this case never happens after `LDL.Sweep`.
- LDL.RegularizedVar3Unb: requires pivTol >= 0, regMag != 0 and non-zero signs. The source does not check these, but without them the kernel may divide by zero.
- LDL.RegularizedVar3: requires the same as RegularizedVar3Unb, plus pivSign and reg covering the n columns. Out-of-range views are an error in the source's debug builds, not a result.
- ApplyPackedReflectors.LLHF: requires H and A to be different arrays, and t to have no zero entry, since SInv's diagonal is 1/t. The source does not check either.
- ApplyPackedReflectors.LLHF: the nonconformal first Gemm is a debug-build check inside Gemm. It is modelled as an error returned before A is written; in a release build the source would read out of bounds instead.
- ApplyPackedReflectors.LLHF: `t` is a vector (`array<real>`), not a one-column matrix, so its width is not checked.

## Findings

| source | as written | input that shows it | evidently intended | confidence | as-written member | corrected member |
|---|---|---|---|---|---|---|
| include/elemental/lapack-like/HermitianNorm/EntrywiseOne.hpp:33-39, 47-53 | the loops run `i < j` (UPPER) and `i = j+1 ..` (LOWER), so the `i == j` branch is dead and the diagonal is never counted | the 1-by-1 matrix [5] gives 0, not 5 | count each diagonal entry once, as the distributed overload (lines 86-94) does | not executed | `HermitianNorm.AsWrittenCounterexample` | `HermitianNorm.CorrectedIsEntrywiseOneNorm` |
