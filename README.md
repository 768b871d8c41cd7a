# Lattice minimization and grid indexing in JDFTx, modelled in Dafny

This project models two parts of JDFTx.

The first is the lattice (strain) minimizer, `LatticeMinimizer`. It minimizes the energy of a periodic cell over the strain of its lattice vectors `R`. The strain is restricted to the span of an orthonormal basis. The basis is built from six symmetric generator strains: those that would move a fixed axis are skipped, the rest are summed over the point group and orthonormalized. When the symmetry matrices form a group, every basis element is proved to be left unchanged by every symmetry. When no symmetry matrix links a fixed axis with a free one, no basis element moves a fixed axis. The generic minimizer drives it through `step`, `compute`, `constrain`, `precondition`, `report` and `restore`.

The second is the index arithmetic of `GridInfo`:
- the wrapping of negative reciprocal-lattice coordinates;
- the row-major linear indices into the real-space box and the full and half reciprocal boxes;
- the box sizes `nr` and `nG`.

Files:

- `wrappers.dfy`: the `Option` and `Result` datatypes.
- `matrix3.dfy` (module `Matrix3`):
  - Real matrices (`matrix3<double>`) are nine real entries in row-major order.
  - Integer matrices (`matrix3<int>`) are a nine-field datatype.
  - The inner product `dot(x, y) = trace(x * ~y)` and `axpy` are here, with their algebra.
  - So are the determinant and adjugate of integer matrices, with the proof that `det(m) * adjugate(m)` is the inverse of `m` when `|det(m)| = 1`.
- `strain_space.dfy` (module `StrainSpace`):
  - the projection `Sum s * dot(s, d)` that `constrain` computes;
  - the combination `Sum c[i] * s[i]` that `compute` assembles the gradient with;
  - their algebra for an orthonormal basis: idempotence, coordinates, linearity, and the span.
- `strain_basis.dfy` (module `StrainBasis`): the constructor's basis builder.
  - It checks that the move scales are commensurate with the symmetries.
  - It fixes axes and enumerates six generators, skipping some of them.
  - It symmetrizes each generator over the point group using integer arithmetic. When the symmetry matrices form a group, the sum commutes with every one of them.
  - It runs modified Gram-Schmidt with a norm threshold.
  - It fails when the basis comes out empty.
- `lattice_minimizer.dfy` (module `Lattice`):
  - the class `LatticeMinimizer`, with fields `strain` and `R` that the methods update in place;
  - the four-point central difference and its exactness for polynomials of degree at most four;
  - the strain guard of `compute`;
  - the preconditioner.
- `grid_info.dfy` (module `GridIndex`): `wrapGcoords`, `fullRindex`, `fullGindex`, `halfGindex`, `nr` and `nG`.

Arithmetic on doubles is modelled by exact real arithmetic, and `int` by unbounded integers.

The collaborators the minimizer calls are parameters of the model (the `Lattice.Env` datatype and the `nrm2` argument):
- `sqrt` and `nrm2`;
- the energy after `updateLatticeDependent`, with or without the nested ionic minimization.

Their properties are stated as predicates (`Lattice.IsSqrt`, `StrainBasis.IsNorm`) wherever a proof needs them.

`die` is modelled as a `Failure` result.
- The constructor becomes `LatticeMinimizer.Create`. It runs `BuildStrainBasis` and, on success, builds the object.
- Its `NotCommensurate` failure carries the two axes the source reports. They are the axes of the first linking entry in the scan order, and their move scales differ.

Notes on behaviour. The model follows the code in each case:
- **`centralDifference` does not relax the ions.** It calls only `updateLatticeDependent` before each of its four energy reads (jdftx/electronic/LatticeMinimizer.cpp:148-162). It does not run the ionic minimizer at each probe. The model therefore uses a separate energy function, `latticeEnergy`, for the probes. `compute` uses it too for the energy it returns after a gradient, which it reads after the same plain update at the restored R (lines 126-130).
- **Basis elements are not claimed to be symmetric.** The symmetrized generator `Sum det(m) adjugate(m) * s * m` is not in general a symmetric matrix, because the symmetry matrices are in lattice coordinates and need not be orthogonal. The model proves that the basis elements have unit norm and are mutually orthogonal. For a group of symmetry matrices, it also proves that each element x satisfies `m * x = x * m`, that is `m^-1 x m = x`, for every symmetry m. It does not claim that x equals its transpose.
- **The threshold compares a norm, not a squared norm.** The threshold constant `symmThresholdSq` is compared against the norm `nrm2(strain)` (line 79).
- **Truncation is not checked against the symmetries.** The constructor compares only the move scales of the axes a symmetry matrix links (jdftx/electronic/LatticeMinimizer.cpp:39-47). It never compares their truncation flags. Take the identity and the matrix that swaps axes 0 and 2 as the symmetries, equal move scales, and Coulomb truncation along axis 2 only. The scales are then commensurate and generator 0 is not skipped. Yet its summand for the swap is the unit strain of axis 2, so the symmetrized generator `diag(1, 0, 1)` moves the truncated axis. The model proves the skip test only under a premise (`StrainBasis.BasisFreeOnly`): if every symmetry matrix links fixed axes only with fixed axes, no basis element has a non-zero entry in the row or column of a fixed axis. Without truncation, commensurate move scales already give that premise (`StrainBasis.CommensurateKeepsApart`).
- **Strain stays in the span only under constrained steps.** The strain lies in the span of the basis only while every step direction has been constrained (`Lattice.StepStaysInSpan`, `Lattice.ZeroInSpan`). `step` itself does not project.

## Model

| member | source | states |
|---|---|---|
| Matrix3.DotIsTrace | jdftx/electronic/LatticeMinimizer.cpp:27 | the entrywise inner product `Dot` equals `trace(x * ~y)` |
| Matrix3.DotSymmetric | jdftx/electronic/LatticeMinimizer.cpp:27 | dot is symmetric |
| Matrix3.DotAddRight | jdftx/electronic/LatticeMinimizer.cpp:27 | dot distributes over a sum |
| Matrix3.DotScaleRight | jdftx/electronic/LatticeMinimizer.cpp:27 | dot(x, c y) = c dot(x, y) |
| Matrix3.DotSelfNonNegative | jdftx/electronic/LatticeMinimizer.cpp:27 | dot(x, x) >= 0, so nrm2 is well defined |
| Matrix3.Axpy | jdftx/electronic/LatticeMinimizer.cpp:26 | `y += alpha * x`: the new y minus the old y is alpha x |
| Matrix3.DotAxpy | jdftx/electronic/LatticeMinimizer.cpp:26-27 | after axpy every inner product moves linearly: dot(z, y + alpha x) = dot(z, y) + alpha dot(z, x) |
| Matrix3.AdjugateLeft | jdftx/electronic/LatticeMinimizer.cpp:71 | adjugate(m) * m = det(m) * identity |
| Matrix3.AdjugateRight | jdftx/electronic/LatticeMinimizer.cpp:71 | m * adjugate(m) = det(m) * identity |
| Matrix3.UnimodularInverse | jdftx/electronic/LatticeMinimizer.cpp:71 | when det(m) is 1 or -1, `det(m) * adjugate(m)` is the two-sided integer inverse of m |
| Matrix3.IMulAssoc | jdftx/electronic/LatticeMinimizer.cpp:72 | the integer product `mInv * s * m` is associative |
| StrainBasis.CheckCommensurate | jdftx/electronic/LatticeMinimizer.cpp:39-47 | the scan finds a conflict exactly when some symmetry matrix links axes i, j (m(i,j) != 0) whose move scales differ; the conflict it returns is the first such entry in the m, i, j order of the loops |
| StrainBasis.FixedAxes | jdftx/electronic/LatticeMinimizer.cpp:50-52 | axis k is fixed iff its move scale is 0 or it is truncated |
| StrainBasis.Generator | jdftx/electronic/LatticeMinimizer.cpp:57-65 | every generator is a symmetric integer matrix |
| StrainBasis.GeneratorEntries | jdftx/electronic/LatticeMinimizer.cpp:57-65 | generator k has `s(k,k) = 1` for k < 3 and `s(i,j) = s(j,i) = 1` with i = (k+1)%3, j = (k+2)%3 otherwise, all other entries zero |
| StrainBasis.SkippedIffAltersFixed | jdftx/electronic/LatticeMinimizer.cpp:58-67 | generator k is skipped exactly when it alters (has a non-zero row for) a fixed axis |
| StrainBasis.Symmetrize | jdftx/electronic/LatticeMinimizer.cpp:69-73 | the loop leaves `sSym` equal to the sum of `det(m) adjugate(m) * s * m` over the symmetry matrices in order; when they form a group, `sSym` commutes with every one of them |
| StrainBasis.ConjugateIntertwines | jdftx/electronic/LatticeMinimizer.cpp:71-72 | for a unimodular m each summand c satisfies m * c = s * m, i.e. c is m^-1 s m |
| StrainBasis.InverseOfProduct | jdftx/electronic/LatticeMinimizer.cpp:71 | for unimodular m, g and m g, the inverse `det * adjugate` of m g is g^-1 m^-1 |
| StrainBasis.ConjugateOfProduct | jdftx/electronic/LatticeMinimizer.cpp:71-72 | the summand for m g is the summand for m conjugated by g |
| StrainBasis.SymSumRightTimes | jdftx/electronic/LatticeMinimizer.cpp:69-73 | summing over the matrices m g instead of m gives g^-1 sSym g |
| StrainBasis.SymSumRemove | jdftx/electronic/LatticeMinimizer.cpp:69-73 | the sum equals the sum without the k-th matrix plus its summand |
| StrainBasis.SymSumReorder | jdftx/electronic/LatticeMinimizer.cpp:69-73 | the sum over a repetition-free list depends only on which matrices it holds, not their order |
| StrainBasis.RightTimesPermutes | jdftx/electronic/LatticeMinimizer.cpp:69-73 | in a group, m -> m g is a repetition-free list of group elements |
| StrainBasis.SymSumInvariant | jdftx/electronic/LatticeMinimizer.cpp:54-73 | in a group, the symmetrized generator commutes with every symmetry matrix g, i.e. g^-1 sSym g = sSym |
| Matrix3.ToRealMul | jdftx/electronic/LatticeMinimizer.cpp:75 | converting integer matrices to reals commutes with the product |
| StrainBasis.SymmetrizedInvariant | jdftx/electronic/LatticeMinimizer.cpp:69-75 | in a group, the converted candidate `matrix3<>(sSym)` commutes with every symmetry matrix |
| StrainBasis.InvariantSubScale | jdftx/electronic/LatticeMinimizer.cpp:77 | `x - c y` is invariant under a symmetry when x and y are |
| StrainBasis.OrthogonalizedInvariant | jdftx/electronic/LatticeMinimizer.cpp:76-77 | the subtraction loop keeps a candidate invariant when the earlier basis elements are |
| StrainBasis.ExtendInvariant | jdftx/electronic/LatticeMinimizer.cpp:75-80 | one loop iteration keeps every basis element invariant under every symmetry |
| StrainBasis.BasisInvariant | jdftx/electronic/LatticeMinimizer.cpp:54-81 | in a group, every element of the built basis is left unchanged by every symmetry: the basis is commensurate with the symmetries |
| StrainBasis.Orthogonalize | jdftx/electronic/LatticeMinimizer.cpp:75-77 | the subtraction loop computes the modified Gram-Schmidt residual `Orthogonalized` |
| StrainBasis.OrthogonalizedIsResidual | jdftx/electronic/LatticeMinimizer.cpp:76-77 | against an orthonormal basis the residual is c minus its projection on the basis |
| StrainBasis.OrthogonalizedOrthogonal | jdftx/electronic/LatticeMinimizer.cpp:76-77 | after the subtraction loop the candidate is orthogonal to every earlier basis element |
| StrainBasis.AcceptKeepsOrthonormal | jdftx/electronic/LatticeMinimizer.cpp:78-80 | appending the candidate times the reciprocal of its norm keeps the basis orthonormal |
| StrainBasis.ExtendOrthonormal | jdftx/electronic/LatticeMinimizer.cpp:75-80 | one loop iteration (reject below the threshold, else append the normalized candidate) keeps the basis orthonormal |
| StrainBasis.BasisSize | jdftx/electronic/LatticeMinimizer.cpp:55-81 | after k generators the basis has at most k elements, so at most six |
| StrainBasis.BasisOrthonormal | jdftx/electronic/LatticeMinimizer.cpp:55-81 | the built basis is orthonormal under dot |
| StrainBasis.AllFixedEmpty | jdftx/electronic/LatticeMinimizer.cpp:50-67 | when all three axes are fixed every generator is skipped and the basis is empty |
| StrainBasis.GeneratorFreeOnly | jdftx/electronic/LatticeMinimizer.cpp:57-66 | a generator that is not skipped has zero rows and columns for every fixed axis |
| StrainBasis.InverseKeepsApart | jdftx/electronic/LatticeMinimizer.cpp:71 | when m links fixed axes only with fixed axes, so does `mInv = det(m) * adjugate(m)` |
| Matrix3.IMulEntry | jdftx/electronic/LatticeMinimizer.cpp:72 | entry (i, j) of an integer product is row i times column j |
| StrainBasis.MulLeftFreeOnly | jdftx/electronic/LatticeMinimizer.cpp:72 | `mInv * s` keeps the fixed rows and columns of s zero |
| StrainBasis.MulRightFreeOnly | jdftx/electronic/LatticeMinimizer.cpp:72 | `(mInv * s) * m` keeps them zero too |
| StrainBasis.ConjugateFreeOnly | jdftx/electronic/LatticeMinimizer.cpp:71-72 | each summand `mInv * s * m` of a free-only generator is free-only |
| StrainBasis.SymSumFreeOnly | jdftx/electronic/LatticeMinimizer.cpp:69-73 | so is the symmetrized generator `sSym` |
| StrainBasis.ToRealFreeOnly | jdftx/electronic/LatticeMinimizer.cpp:75 | converting `sSym` to a real matrix keeps its zero rows and columns |
| StrainBasis.FreeOnlySubScale | jdftx/electronic/LatticeMinimizer.cpp:77 | `strain - sPrev * c` is free-only when strain and sPrev are |
| StrainBasis.OrthogonalizedFreeOnly | jdftx/electronic/LatticeMinimizer.cpp:76-77 | the subtraction loop keeps a free-only candidate free-only against a free-only basis |
| StrainBasis.ExtendFreeOnly | jdftx/electronic/LatticeMinimizer.cpp:75-80 | one loop iteration keeps every basis element free-only |
| StrainBasis.BasisFreeOnly | jdftx/electronic/LatticeMinimizer.cpp:54-81 | when every symmetry matrix links fixed axes only with fixed axes, no element of the built basis has a non-zero entry in the row or column of a fixed axis |
| StrainBasis.CommensurateKeepsApart | jdftx/electronic/LatticeMinimizer.cpp:39-52 | without truncation, commensurate move scales make every symmetry matrix link fixed axes only with fixed axes |
| StrainBasis.BuildStrainBasis | jdftx/electronic/LatticeMinimizer.cpp:38-84 | fails with NotCommensurate iff the scales are not commensurate with the symmetries; a NotCommensurate failure names the axes of the first conflict; otherwise fails with AllConstrained iff the basis the generator loop builds is empty, and else returns that basis. For a group of symmetry matrices the basis is invariant under all of them. When the symmetry matrices link fixed axes only with fixed axes, no basis element moves a fixed axis |
| StrainSpace.DotCombination | jdftx/electronic/LatticeMinimizer.cpp:124-125 | against an orthonormal basis the i-th coordinate of Sum c[k] b[k] is c[i] |
| StrainSpace.ProjectIsCombination | jdftx/electronic/LatticeMinimizer.cpp:183-184 | the projection is the combination of the coordinates dot(s, dir) |
| StrainSpace.ProjectIdempotent | jdftx/electronic/LatticeMinimizer.cpp:181-186 | constraining twice is constraining once |
| StrainSpace.ProjectFixesCombination | jdftx/electronic/LatticeMinimizer.cpp:181-186 | constrain leaves every combination of the basis unchanged |
| StrainSpace.ResidualOrthogonal | jdftx/electronic/LatticeMinimizer.cpp:181-186 | what constrain removes is orthogonal to every basis element |
| StrainSpace.ProjectLinear | jdftx/electronic/LatticeMinimizer.cpp:181-186 | constrain is linear: P(x + s y) = P(x) + s P(y) |
| StrainSpace.SpanClosed | jdftx/electronic/LatticeMinimizer.cpp:97-99 | a step from the span along a direction in the span stays in the span |
| StrainSpace.InSpanIffCombination | jdftx/electronic/LatticeMinimizer.cpp:181-186 | a matrix is unchanged by constrain iff it is a combination of the basis |
| Lattice.LatticeMinimizer.constructor | jdftx/electronic/LatticeMinimizer.cpp:34-95 | Rorig and R are the current lattice, the strain is zero, h = 1e-5 |
| Lattice.LatticeMinimizer.Create | jdftx/electronic/LatticeMinimizer.cpp:34-95 | the constructor: the same failures as the basis builder; on success a fresh minimizer at zero strain with 1 to 6 basis elements, which satisfies `Valid()` (orthonormal basis, h = 1e-5) for a true norm, has an invariant basis for a group of symmetries, and has no basis element that moves a fixed axis when the symmetries link fixed axes only with fixed axes |
| Lattice.LatticeMinimizer.Step | jdftx/electronic/LatticeMinimizer.cpp:97-99 | `strain += alpha * dir` and R is unchanged |
| Lattice.StepStaysInSpan | jdftx/electronic/LatticeMinimizer.cpp:97-99 | a step along a constrained direction keeps the strain in the span |
| Lattice.ZeroInSpan | jdftx/electronic/LatticeMinimizer.cpp:198-199 | the zero strain lies in the span of any basis |
| Lattice.LatticeMinimizer.Compute | jdftx/electronic/LatticeMinimizer.cpp:101-131 | strain never changes; over the limit: NaN, no gradient, R unchanged; otherwise R = Rorig + Rorig strain. Without a gradient the energy is the relaxed energy there. With one, the gradient is Sum stress[i] basis[i], R is restored and the energy is the one read after the plain `updateLatticeDependent` at that R |
| Lattice.GuardIffSquared | jdftx/electronic/LatticeMinimizer.cpp:104 | for a true square root the guard `sqrt(dot(strain, strain)) > maxAllowedStrain` holds iff dot(strain, strain) > maxAllowedStrain^2 |
| Lattice.LatticeMinimizer.AssembleGradient | jdftx/electronic/LatticeMinimizer.cpp:122-125 | the gradient loop computes the combination of the basis with the stresses |
| Lattice.GradientCoordinates | jdftx/electronic/LatticeMinimizer.cpp:120-127 | the gradient lies in the span and its coordinate along basis element i is stress[i] |
| Lattice.LatticeMinimizer.CalculateStress | jdftx/electronic/LatticeMinimizer.cpp:133-143 | stress[i] is the central difference along basis element i; strain unchanged; R left at the last probe |
| Lattice.LatticeMinimizer.CentralDifference | jdftx/electronic/LatticeMinimizer.cpp:145-165 | the result is the stencil over the energies at strain + t direction for t = -2h, -h, h, 2h; strain unchanged; R left at t = 2h |
| Lattice.StencilExact | jdftx/electronic/LatticeMinimizer.cpp:164 | `(1/(12h)) (E(-2h) - 8E(-h) + 8E(h) - E(2h))` is exactly b for E(t) = a + bt + ct^2 + dt^3 + et^4 |
| Lattice.DerivativeExact | jdftx/electronic/LatticeMinimizer.cpp:145-164 | when the energy along the direction is a polynomial of degree at most four (linear and quadratic included), centralDifference returns its exact derivative |
| Lattice.LatticeMinimizer.Precondition | jdftx/electronic/LatticeMinimizer.cpp:167-169 | entry (i,j) of `Diag(s) grad Diag(s)` is s[i] grad(i,j) s[j] |
| Lattice.DiagConjugateEntries | jdftx/electronic/LatticeMinimizer.cpp:168 | the same entrywise formula for any vector and matrix |
| Lattice.PreconditionSymmetric | jdftx/electronic/LatticeMinimizer.cpp:167-169 | preconditioning keeps a symmetric gradient symmetric |
| Lattice.PreconditionFixesAxis | jdftx/electronic/LatticeMinimizer.cpp:167-169 | on an axis with move scale 0 the preconditioned gradient has a zero row and column |
| Lattice.LatticeMinimizer.Report | jdftx/electronic/LatticeMinimizer.cpp:171-179 | report never asks the driver to stop |
| Lattice.LatticeMinimizer.Constrain | jdftx/electronic/LatticeMinimizer.cpp:181-186 | the loop result is the projection Sum s dot(s, dir) over the basis; for an orthonormal basis the result is already constrained, so constraining it again changes nothing |
| Lattice.LatticeMinimizer.Restore | jdftx/electronic/LatticeMinimizer.cpp:198-202 | strain becomes the zero matrix and R exactly Rorig |
| Lattice.LatticeAtZero | jdftx/electronic/LatticeMinimizer.cpp:112 | at zero strain `Rorig + Rorig * strain` is Rorig, so restore puts R where compute at zero strain would |
| GridIndex.WrapGcoords | jdftx/core/GridInfo.h:127-133 | the loop adds S[k] to each negative component and leaves the others |
| GridIndex.WrappedCongruent | jdftx/core/GridInfo.h:127-133 | non-negative components are unchanged and every component stays congruent modulo S[k] |
| GridIndex.WrappedInBox | jdftx/core/GridInfo.h:127-133 | components in [-S[k], S[k]) wrap into [0, S[k]) |
| GridIndex.WrappedIdempotent | jdftx/core/GridInfo.h:127-133 | wrapping is idempotent for components not below -S[k] |
| GridIndex.FullRindexBounds | jdftx/core/GridInfo.h:134-136 | inside the box fullRindex lies in [0, nr) with nr = S0 S1 S2 |
| GridIndex.FullRindexInjective | jdftx/core/GridInfo.h:134-136 | distinct points of the box have distinct fullRindex |
| GridIndex.FullRindexRoundTrip | jdftx/core/GridInfo.h:134-136 | every index in [0, nr) is fullRindex of a point of the box (the decoded digits) |
| GridIndex.FullGindex | jdftx/core/GridInfo.h:137-139 | fullGindex is fullRindex of the wrapped coordinates |
| GridIndex.FullGindexBounds | jdftx/core/GridInfo.h:137-139 | for -S[k] <= iG[k] < S[k] fullGindex lies in [0, nr) |
| GridIndex.HalfGindex | jdftx/core/GridInfo.h:140-143 | halfGindex is the stride-(S2/2+1) index of the wrapped coordinates, with C's truncating `/` |
| GridIndex.HalfIndexBounds | jdftx/core/GridInfo.h:140-143 | in the half box the index lies in [0, nG) with nG = S0 S1 (S2/2+1) |
| GridIndex.HalfGindexBounds | jdftx/core/GridInfo.h:140-143 | for -S[k] <= iG[k] < S[k] on every axis, halfGindex lies in [0, nG) whenever the wrapped last coordinate is at most S2/2 |
| GridIndex.HalfIndexInjective | jdftx/core/GridInfo.h:140-143 | distinct points of the half box have distinct indices |
| GridIndex.HalfIndexRoundTrip | jdftx/core/GridInfo.h:140-143 | every index in [0, nG) is the index of a point of the half box |
| GridIndex.HalfBoxSize | jdftx/core/GridInfo.h:99-100 | nG <= nr <= 2 nG |

## Left out

- Logging, printing, `e.dump` and `e.gInfo.printLattice` in the constructor, `compute`, `calculateStress` and `report`: these are I/O. `report` is modelled only by its return value.
- `randomize` (jdftx/electronic/LatticeMinimizer.cpp:29) draws from a random number generator, so it is not modelled.
- `clone` (line 28) copies a value, which is the identity on values.
- `updateLatticeDependent` (jdftx/electronic/LatticeMinimizer.cpp:188-196) and the `IonicMinimizer` are external collaborators. Their combined effect is the abstract energy functions of `Lattice.Env`.
  - The ionic positions they change are not part of the model.
  - `e.gInfo.R` is the field `R` of the minimizer.
- `NAN` returned by `compute` is the `NotANumber` value of `Lattice.Energy`; IEEE NaN arithmetic is not modelled.
- Floating point: real arithmetic is exact in the model, so rounding in the stencil, the Gram-Schmidt loop and the norm test is not modelled.
- `sqrt` and `nrm2`: these are abstract functions. Where a property needs them, `IsSqrt` and `IsNorm` say they are the exact square root and the Frobenius norm.
- StrainBasis.BuildStrainBasis: requires a positive threshold. `symmThresholdSq`, like `maxAllowedStrain`, is a constant declared in a header that is not part of this model. A positive threshold is what keeps `1/strainNorm` defined.
- Lattice.LatticeMinimizer.Create: takes the symmetry matrices, move scales, truncation flags and lattice vectors as parameters instead of reading them from `Everything`. It sets `e.latticeMinParams.nDim` nowhere.
- StrainBasis.BasisInvariant: assumes the symmetry matrices form a group (`IsGroup`: unimodular, closed under products, no repeats). That is what the symmetry analysis supplies, but the code computing it is not part of this model.
- GridIndex.FullRindexBounds: uses unbounded integers. The source's 32-bit `int` would overflow for boxes of more than 2^31 - 1 points. The same holds for `nr`, `nG`, `fullGindex` and `halfGindex`.
- The rest of jdftx/core/GridInfo.h (FFT plans, `initialize`, `update`, `setLatticeVectors`, lattice matrices) is not part of this model. It is either declared without bodies or plumbing for the FFT libraries.
- jdftx/electronic/SpeciesInfo_internal.h is not part of this model. It holds floating-point kernels (structure factors, spherical harmonics, splines) over libraries that are not shown.
