/**
 * `LatticeMinimizer`: minimization of the energy over the strain of the
 * lattice vectors R. The state is the current strain (a 3x3 matrix, which
 * stays in the span of the orthonormal strain basis as long as every step
 * direction has been constrained) and the lattice vectors
 * `R = Rorig + Rorig * strain`; the generic minimizer drives it through
 * `step`, `compute`, `constrain`, `precondition`, `report` and `restore`.
 */
module Lattice {
  import opened Wrappers
  import opened Matrix3
  import opened StrainSpace
  import opened StrainBasis

  /** The energy `compute` returns: a double that is NaN when the strain is too large. */
  datatype Energy = NotANumber | Finite(value: real)

  /**
   * The collaborators the minimizer calls but that are not part of this
   * model, as functions of the lattice vectors R:
   * - `sqrt`, the square root of the C library;
   * - `relaxedEnergy`, `relevantFreeEnergy` after `updateLatticeDependent`
   *   and an ionic minimization at R;
   * - `latticeEnergy`, `relevantFreeEnergy` after `updateLatticeDependent`
   *   alone (the ions stay where the last ionic minimization left them).
   */
  datatype Env = Env(sqrt: real -> real, relaxedEnergy: Mat3 -> real, latticeEnergy: Mat3 -> real)

  /** The step size of the finite-difference stress, `h = 1e-5`. */
  const StrainStep: real := 0.00001

  // ---------------------------------------------------------------------------
  // The lattice vectors at a strain

  /** `Rorig + Rorig * strain`: the lattice vectors at the given strain. */
  function LatticeAt(Rorig: Mat3, strain: Mat3): Mat3
  {
    Add(Rorig, Mul(Rorig, strain))
  }

  /** At zero strain the lattice vectors are the original ones. */
  lemma LatticeAtZero(Rorig: Mat3)
    ensures LatticeAt(Rorig, Zero()) == Rorig
  {
    var L := LatticeAt(Rorig, Zero());
    forall k | 0 <= k < 9
      ensures L[k] == Rorig[k]
    {
      assert Mul(Rorig, Zero())[k] == 0.0;
    }
  }

  // ---------------------------------------------------------------------------
  // The four-point central difference

  /** `(1/(12h)) * (En2h - 8 Enh + 8 Eph - Ep2h)`. */
  function Stencil(en2h: real, enh: real, eph: real, ep2h: real, h: real): real
    requires h != 0.0
  {
    (1.0 / (12.0 * h)) * (en2h - 8.0 * enh + 8.0 * eph - ep2h)
  }

  /** The polynomial a + b t + c t^2 + d t^3 + e t^4, in Horner form. */
  function Quartic(a: real, b: real, c: real, d: real, e: real, t: real): real
  {
    a + t * (b + t * (c + t * (d + t * e)))
  }

  lemma Expand(a: real, b: real, c: real, d: real, e: real, t: real)
    ensures Quartic(a, b, c, d, e, t) == a + t * b + (t * t) * c + (t * t * t) * d + (t * t * t * t) * e
  {
  }

  lemma Numerator(a: real, b: real, c: real, d: real, e: real, h: real)
    ensures Quartic(a, b, c, d, e, -2.0 * h) - 8.0 * Quartic(a, b, c, d, e, -h)
          + 8.0 * Quartic(a, b, c, d, e, h) - Quartic(a, b, c, d, e, 2.0 * h) == 12.0 * h * b
  {
    Expand(a, b, c, d, e, -2.0 * h);
    Expand(a, b, c, d, e, -h);
    Expand(a, b, c, d, e, h);
    Expand(a, b, c, d, e, 2.0 * h);
  }

  lemma StencilOf(en2h: real, enh: real, eph: real, ep2h: real, h: real, b: real)
    requires h != 0.0 && en2h - 8.0 * enh + 8.0 * eph - ep2h == 12.0 * h * b
    ensures Stencil(en2h, enh, eph, ep2h, h) == b
  {
  }

  /**
   * The stencil is exact for polynomials of degree at most four: applied to
   * the values of a + b t + c t^2 + d t^3 + e t^4 at t = -2h, -h, h, 2h it
   * gives the derivative b at t = 0.
   */
  lemma StencilExact(a: real, b: real, c: real, d: real, e: real, h: real)
    requires h != 0.0
    ensures Stencil(Quartic(a, b, c, d, e, -2.0 * h), Quartic(a, b, c, d, e, -h),
                    Quartic(a, b, c, d, e, h), Quartic(a, b, c, d, e, 2.0 * h), h) == b
  {
    Numerator(a, b, c, d, e, h);
    StencilOf(Quartic(a, b, c, d, e, -2.0 * h), Quartic(a, b, c, d, e, -h),
              Quartic(a, b, c, d, e, h), Quartic(a, b, c, d, e, 2.0 * h), h, b);
  }

  /** The energy at the lattice vectors of strain + t * direction. */
  function ProbeEnergy(env: Env, Rorig: Mat3, strain: Mat3, direction: Mat3, t: real): real
  {
    env.latticeEnergy(LatticeAt(Rorig, Add(strain, Scale(t, direction))))
  }

  /** What `centralDifference(direction)` returns at the given strain. */
  function Derivative(env: Env, Rorig: Mat3, strain: Mat3, direction: Mat3, h: real): real
    requires h != 0.0
  {
    Stencil(ProbeEnergy(env, Rorig, strain, direction, -2.0 * h), ProbeEnergy(env, Rorig, strain, direction, -h),
            ProbeEnergy(env, Rorig, strain, direction, h), ProbeEnergy(env, Rorig, strain, direction, 2.0 * h), h)
  }

  /**
   * When the energy along the line strain + t * direction is a polynomial of
   * degree at most four in t (in particular when it is linear or quadratic),
   * the central difference is its exact derivative at t = 0.
   */
  lemma DerivativeExact(env: Env, Rorig: Mat3, strain: Mat3, direction: Mat3, h: real,
                        a: real, b: real, c: real, d: real, e: real)
    requires h != 0.0
    requires forall t :: ProbeEnergy(env, Rorig, strain, direction, t) == Quartic(a, b, c, d, e, t)
    ensures Derivative(env, Rorig, strain, direction, h) == b
  {
    StencilExact(a, b, c, d, e, h);
  }

  /** The stress vector: the central difference along each basis element in turn. */
  function Stresses(env: Env, Rorig: Mat3, strain: Mat3, basis: seq<Mat3>, h: real): seq<real>
    requires h != 0.0
  {
    seq(|basis|, i requires 0 <= i < |basis| => Derivative(env, Rorig, strain, basis[i], h))
  }

  // ---------------------------------------------------------------------------
  // The strain-magnitude guard of compute

  function SqrtOf(sqrt: real -> real, v: real): real
  {
    sqrt(v)
  }

  /** `sqrt` is the non-negative square root on the non-negative reals. */
  ghost predicate IsSqrt(sqrt: real -> real)
  {
    forall v {:trigger SqrtOf(sqrt, v)} :: 0.0 <= v ==> 0.0 <= SqrtOf(sqrt, v) && SqrtOf(sqrt, v) * SqrtOf(sqrt, v) == v
  }

  lemma PositiveProduct(x: real, y: real)
    requires 0.0 < x && 0.0 < y
    ensures 0.0 < x * y
  {
  }

  lemma SquareMonotone(a: real, b: real)
    requires 0.0 <= a && 0.0 <= b
    ensures a > b <==> a * a > b * b
  {
    if a > b {
      PositiveProduct(a - b, a + b);
      assert a * a - b * b == (a - b) * (a + b);
    } else {
      assert a * a <= a * b <= b * b;
    }
  }

  /** The guard `sqrt(dot(strain, strain)) > maxAllowedStrain` compares squared magnitudes. */
  lemma GuardIffSquared(env: Env, strain: Mat3, maxAllowedStrain: real)
    requires IsSqrt(env.sqrt) && 0.0 <= maxAllowedStrain
    ensures env.sqrt(Dot(strain, strain)) > maxAllowedStrain <==> Dot(strain, strain) > maxAllowedStrain * maxAllowedStrain
  {
    DotSelfNonNegative(strain);
    assert SqrtOf(env.sqrt, Dot(strain, strain)) == env.sqrt(Dot(strain, strain));
    SquareMonotone(env.sqrt(Dot(strain, strain)), maxAllowedStrain);
  }

  // ---------------------------------------------------------------------------
  // The minimizer

  class LatticeMinimizer {
    /** The lattice vectors when the minimizer was created. */
    const Rorig: Mat3
    /** The orthonormal strain directions the minimization is restricted to. */
    const strainBasis: seq<Mat3>
    /** `lattMoveScale`: the per-axis preconditioning factors. */
    const moveScale: Vec3
    const maxAllowedStrain: real
    const h: real
    /** The current strain. */
    var strain: Mat3
    /** The current lattice vectors, `e.gInfo.R`. */
    var R: Mat3

    /**
     * What the constructor establishes: an orthonormal basis of one to six
     * strains and the step size h = 1e-5.
     */
    ghost predicate Valid()
    {
      Orthonormal(strainBasis) && 0 < |strainBasis| <= 6 && h == StrainStep
    }

    /** The fields the constructor leaves behind, given the basis it built. */
    constructor(R0: Mat3, basis: seq<Mat3>, scale: Vec3, maxStrain: real)
      ensures Rorig == R0 && R == R0 && strainBasis == basis && moveScale == scale
      ensures maxAllowedStrain == maxStrain && h == StrainStep && strain == Zero()
    {
      Rorig := R0;
      R := R0;
      strainBasis := basis;
      moveScale := scale;
      maxAllowedStrain := maxStrain;
      h := StrainStep;
      strain := Zero();
    }

    /**
     * The constructor: build the strain basis (stopping on the two fatal
     * configurations) and start at zero strain from the current lattice.
     */
    static method Create(R0: Mat3, sym: seq<IMat3>, scale: Vec3, truncated: Flags3, threshold: real,
                         nrm2: Mat3 -> real, maxStrain: real)
      returns (r: Result<LatticeMinimizer, ConfigError>)
      requires threshold > 0.0
      ensures r.Failure? && r.error.NotCommensurate? <==> !Commensurate(sym, scale)
      ensures r.Failure? && r.error.NotCommensurate? ==>
        exists n :: FirstConflict(sym, scale, Conflict(n, r.error.i, r.error.j))
      ensures Commensurate(sym, scale) ==>
        var fixed := FixedFlags(scale, truncated);
        var b := BasisUpTo(sym, fixed, threshold, nrm2, 6);
        (r.Failure? <==> b == []) &&
        (r.Success? ==> fresh(r.value) && r.value.strainBasis == b && r.value.Rorig == R0 && r.value.R == R0 &&
                        r.value.strain == Zero() && r.value.h == StrainStep &&
                        r.value.moveScale == scale && r.value.maxAllowedStrain == maxStrain)
      ensures r.Success? ==> 0 < |r.value.strainBasis| <= 6
      ensures r.Success? && IsNorm(nrm2) ==> r.value.Valid()
      ensures r.Success? && IsGroup(sym) ==> AllInvariant(sym, r.value.strainBasis)
      ensures r.Success? && AllKeepApart(FixedFlags(scale, truncated), sym) ==>
        forall i :: 0 <= i < |r.value.strainBasis| ==> FreeOnly(FixedFlags(scale, truncated), r.value.strainBasis[i])
    {
      var basis := BuildStrainBasis(sym, scale, truncated, threshold, nrm2);
      if basis.Failure? {
        return Failure(basis.error);
      }
      ghost var fixed := FixedFlags(scale, truncated);
      BasisSize(sym, fixed, threshold, nrm2, 6);
      if IsNorm(nrm2) {
        BasisOrthonormal(sym, fixed, threshold, nrm2, 6);
      }
      var m := new LatticeMinimizer(R0, basis.value, scale, maxStrain);
      return Success(m);
    }

    /** `step(dir, alpha)`: `strain += alpha * dir`; nothing else changes. */
    method Step(dir: Mat3, alpha: real)
      modifies this
      ensures strain == Axpy(alpha, dir, old(strain))
      ensures R == old(R)
    {
      strain := Axpy(alpha, dir, strain);
    }

    /**
     * `centralDifference(direction)`: the energies at strain + t * direction
     * for t = -2h, -h, h, 2h combined by the stencil; R is left at the last
     * probe.
     */
    method CentralDifference(env: Env, direction: Mat3) returns (d: real)
      requires h == StrainStep
      modifies this
      ensures d == Derivative(env, Rorig, strain, direction, h)
      ensures strain == old(strain)
      ensures R == LatticeAt(Rorig, Add(strain, Scale(2.0 * h, direction)))
    {
      R := LatticeAt(Rorig, Add(strain, Scale(-2.0 * h, direction)));
      var en2h := env.latticeEnergy(R);
      R := LatticeAt(Rorig, Add(strain, Scale(-h, direction)));
      var enh := env.latticeEnergy(R);
      R := LatticeAt(Rorig, Add(strain, Scale(h, direction)));
      var eph := env.latticeEnergy(R);
      R := LatticeAt(Rorig, Add(strain, Scale(2.0 * h, direction)));
      var ep2h := env.latticeEnergy(R);
      d := (1.0 / (12.0 * h)) * (en2h - 8.0 * enh + 8.0 * eph - ep2h);
    }

    /** `calculateStress()`: the central difference along each basis element. */
    method CalculateStress(env: Env) returns (stress: seq<real>)
      requires h == StrainStep
      modifies this
      ensures stress == Stresses(env, Rorig, strain, strainBasis, h)
      ensures strain == old(strain)
      ensures R == if strainBasis == [] then old(R)
                   else LatticeAt(Rorig, Add(strain, Scale(2.0 * h, strainBasis[|strainBasis| - 1])))
    {
      stress := seq(|strainBasis|, i => 0.0);
      var i := 0;
      while i < |strainBasis|
        invariant 0 <= i <= |strainBasis| && |stress| == |strainBasis|
        invariant strain == old(strain)
        invariant forall j :: 0 <= j < i ==> stress[j] == Derivative(env, Rorig, strain, strainBasis[j], h)
        invariant R == if i == 0 then old(R) else LatticeAt(Rorig, Add(strain, Scale(2.0 * h, strainBasis[i - 1])))
      {
        var d := CentralDifference(env, strainBasis[i]);
        stress := stress[i := d];
        i := i + 1;
      }
    }

    /**
     * `compute(grad)`: when the strain is too large, NaN and no change at all.
     * Otherwise R = Rorig + Rorig * strain and the relaxed energy there. When
     * the gradient is asked for, it is Sum stress[i] * strainBasis[i], R is put
     * back at the current strain with `updateLatticeDependent` alone, and the
     * energy returned is the one read after that update. The strain itself
     * never changes.
     */
    method Compute(env: Env, wantGradient: bool) returns (E: Energy, grad: Option<Mat3>)
      requires h == StrainStep
      modifies this
      ensures strain == old(strain)
      ensures env.sqrt(Dot(strain, strain)) > maxAllowedStrain ==> E == NotANumber && grad == None && R == old(R)
      ensures env.sqrt(Dot(strain, strain)) <= maxAllowedStrain ==>
        R == LatticeAt(Rorig, strain) &&
        E == Finite(if wantGradient then env.latticeEnergy(LatticeAt(Rorig, strain))
                    else env.relaxedEnergy(LatticeAt(Rorig, strain))) &&
        (grad.Some? <==> wantGradient) &&
        (wantGradient ==> grad.value == Combination(strainBasis, Stresses(env, Rorig, strain, strainBasis, h)))
    {
      if env.sqrt(Dot(strain, strain)) > maxAllowedStrain {
        return NotANumber, None;
      }
      R := LatticeAt(Rorig, strain);
      var energy := env.relaxedEnergy(R);
      grad := None;
      if wantGradient {
        var stress := CalculateStress(env);
        var g := AssembleGradient(stress);
        grad := Some(g);
        R := LatticeAt(Rorig, strain);
        energy := env.latticeEnergy(R);
      }
      E := Finite(energy);
    }

    /** The gradient loop of compute: `*grad += stress[i] * strainBasis[i]` from zero. */
    method AssembleGradient(stress: seq<real>) returns (g: Mat3)
      requires |stress| == |strainBasis|
      ensures g == Combination(strainBasis, stress)
    {
      g := Zero();
      var i := 0;
      while i < |strainBasis|
        invariant 0 <= i <= |strainBasis|
        invariant g == Combination(strainBasis[..i], stress[..i])
      {
        assert strainBasis[..i + 1][..i] == strainBasis[..i];
        assert stress[..i + 1][..i] == stress[..i];
        g := Add(g, Scale(stress[i], strainBasis[i]));
        i := i + 1;
      }
      assert strainBasis[..i] == strainBasis && stress[..i] == stress;
    }

    /** `precondition(grad)`: `Diag(lattMoveScale) * grad * Diag(lattMoveScale)`. */
    function Precondition(grad: Mat3): (r: Mat3)
      ensures ScaledEntries(moveScale, grad, r)
    {
      DiagConjugateEntries(moveScale, grad);
      Mul(Mul(Diag(moveScale), grad), Diag(moveScale))
    }

    /** `report(iter)` only prints and dumps; it never asks the minimizer to stop. */
    method Report(iter: int) returns (stop: bool)
      ensures !stop
    {
      stop := false;
    }

    /** `constrain(dir)`: the new value of dir, the sum of s * dot(s, dir) over the basis. */
    method Constrain(dir: Mat3) returns (result: Mat3)
      ensures result == Project(strainBasis, dir)
      ensures Valid() ==> Project(strainBasis, result) == result
    {
      result := Zero();
      var i := 0;
      while i < |strainBasis|
        invariant 0 <= i <= |strainBasis|
        invariant result == Project(strainBasis[..i], dir)
      {
        assert strainBasis[..i + 1][..i] == strainBasis[..i];
        result := Add(result, Scale(Dot(strainBasis[i], dir), strainBasis[i]));
        i := i + 1;
      }
      assert strainBasis[..i] == strainBasis;
      if Valid() {
        ProjectIdempotent(strainBasis, dir);
      }
    }

    /** `restore()`: `strain *= 0` and R back to the original lattice vectors. */
    method Restore()
      modifies this
      ensures strain == Zero() && R == Rorig
    {
      strain := Scale(0.0, strain);
      assert strain == Zero() by {
        forall k | 0 <= k < 9
          ensures strain[k] == Zero()[k]
        {
        }
      }
      R := Rorig;
    }
  }

  // ---------------------------------------------------------------------------
  // What the minimizer's operations guarantee together

  /** A step from a strain in the span along a constrained direction stays in the span. */
  lemma StepStaysInSpan(b: seq<Mat3>, strain: Mat3, dir: Mat3, alpha: real)
    requires InSpan(b, strain) && InSpan(b, dir)
    ensures InSpan(b, Axpy(alpha, dir, strain))
  {
    SpanClosed(b, strain, alpha, dir);
  }

  /**
   * The gradient compute assembles lies in the span of the basis and its
   * coordinate along each basis element is that element's stress.
   */
  lemma GradientCoordinates(b: seq<Mat3>, stress: seq<real>)
    requires Orthonormal(b) && |stress| == |b|
    ensures InSpan(b, Combination(b, stress))
    ensures forall i :: 0 <= i < |b| ==> Dot(b[i], Combination(b, stress)) == stress[i]
  {
    ProjectFixesCombination(b, stress);
    forall i | 0 <= i < |b|
      ensures Dot(b[i], Combination(b, stress)) == stress[i]
    {
      DotCombination(b, stress, i);
    }
  }

  /** Zero strain is in the span of any basis, so the strain stays there under constrained steps. */
  lemma ZeroInSpan(b: seq<Mat3>)
    ensures InSpan(b, Zero())
  {
    ZeroProject(b);
  }

  lemma {:induction false} ZeroProject(b: seq<Mat3>)
    ensures Project(b, Zero()) == Zero()
    decreases |b|
  {
    if b != [] {
      ZeroProject(b[..|b| - 1]);
      DotZeroRight(b[|b| - 1]);
      DotSymmetric(b[|b| - 1], Zero());
      var z := Add(Zero(), Scale(0.0, b[|b| - 1]));
      forall k | 0 <= k < 9
        ensures z[k] == Zero()[k]
      {
      }
    }
  }

  lemma DiagConjugateLiteral(v: Vec3, g: Mat3)
    ensures var r := Mul(Mul(Diag(v), g), Diag(v));
      r[0] == v[0] * g[0] * v[0] && r[1] == v[0] * g[1] * v[1] && r[2] == v[0] * g[2] * v[2] &&
      r[3] == v[1] * g[3] * v[0] && r[4] == v[1] * g[4] * v[1] && r[5] == v[1] * g[5] * v[2] &&
      r[6] == v[2] * g[6] * v[0] && r[7] == v[2] * g[7] * v[1] && r[8] == v[2] * g[8] * v[2]
  {
  }

  /** Every entry (i, j) of r is g(i,j) scaled by v[i] * v[j]. */
  predicate ScaledEntries(v: Vec3, g: Mat3, r: Mat3)
  {
    forall i, j :: 0 <= i < 3 && 0 <= j < 3 ==> At(r, i, j) == v[i] * At(g, i, j) * v[j]
  }

  /** Entry (i, j) of Diag(v) * g * Diag(v) is v[i] * g(i,j) * v[j]. */
  lemma DiagConjugateEntries(v: Vec3, g: Mat3)
    ensures ScaledEntries(v, g, Mul(Mul(Diag(v), g), Diag(v)))
  {
    DiagConjugateLiteral(v, g);
    var r := Mul(Mul(Diag(v), g), Diag(v));
    forall i, j | 0 <= i < 3 && 0 <= j < 3
      ensures At(r, i, j) == v[i] * At(g, i, j) * v[j]
    {
      if i == 0 {
        if j == 0 {} else if j == 1 {} else {}
      } else if i == 1 {
        if j == 0 {} else if j == 1 {} else {}
      } else {
        if j == 0 {} else if j == 1 {} else {}
      }
    }
  }

  /** The preconditioner keeps a symmetric gradient symmetric. */
  lemma PreconditionSymmetric(m: LatticeMinimizer, grad: Mat3)
    requires Symmetric(grad)
    ensures Symmetric(m.Precondition(grad))
  {
  }

  /** On an axis with move scale zero the preconditioned gradient has a zero row and column. */
  lemma PreconditionFixesAxis(m: LatticeMinimizer, grad: Mat3, k: nat)
    requires k < 3 && m.moveScale[k] == 0.0
    ensures forall j :: 0 <= j < 3 ==> At(m.Precondition(grad), k, j) == 0.0 && At(m.Precondition(grad), j, k) == 0.0
  {
  }
}
