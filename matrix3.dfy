/**
 * 3x3 matrices: `Mat3` stands for jdftx's `matrix3<double>` (with exact real
 * arithmetic in place of floating point) and `IMat3` for `matrix3<int>`.
 * A real matrix is its nine entries in row-major order: entry (i, j) is
 * m[3*i + j]; an integer matrix has one field `mij` per entry (i, j).
 * Also the two free functions the lattice minimizer defines on matrices for
 * the generic minimizer: `Dot` (the Frobenius inner product) and `Axpy`.
 */
module Matrix3 {

  /** A per-axis triple, such as vector3<double>. */
  type Vec3 = v: seq<real> | |v| == 3 witness [0.0, 0.0, 0.0]

  type Mat3 = m: seq<real> | |m| == 9 witness [0.0, 0.0, 0.0, 0.0, 0.0, 0.0, 0.0, 0.0, 0.0]

  /** Entry (i, j), written m(i,j) in the source. */
  function At(m: Mat3, i: nat, j: nat): real
    requires i < 3 && j < 3
  {
    m[3 * i + j]
  }

  function Zero(): Mat3
  {
    seq(9, k => 0.0)
  }

  function Add(x: Mat3, y: Mat3): Mat3
  {
    seq(9, k requires 0 <= k < 9 => x[k] + y[k])
  }

  function Sub(x: Mat3, y: Mat3): Mat3
  {
    seq(9, k requires 0 <= k < 9 => x[k] - y[k])
  }

  /** Scalar times matrix (`alpha * x` and `x * alpha` in the source). */
  function Scale(c: real, x: Mat3): Mat3
  {
    seq(9, k requires 0 <= k < 9 => c * x[k])
  }

  /** Entry (i, j) of the product x * y. */
  function MulAt(x: Mat3, y: Mat3, i: nat, j: nat): real
    requires i < 3 && j < 3
  {
    At(x, i, 0) * At(y, 0, j) + At(x, i, 1) * At(y, 1, j) + At(x, i, 2) * At(y, 2, j)
  }

  /** Entry k (row-major) of the product x * y. */
  function MulEntry(x: Mat3, y: Mat3, k: nat): real
    requires k < 9
  {
    if k == 0 then MulAt(x, y, 0, 0) else if k == 1 then MulAt(x, y, 0, 1) else if k == 2 then MulAt(x, y, 0, 2)
    else if k == 3 then MulAt(x, y, 1, 0) else if k == 4 then MulAt(x, y, 1, 1) else if k == 5 then MulAt(x, y, 1, 2)
    else if k == 6 then MulAt(x, y, 2, 0) else if k == 7 then MulAt(x, y, 2, 1) else MulAt(x, y, 2, 2)
  }

  function Mul(x: Mat3, y: Mat3): Mat3
  {
    seq(9, k requires 0 <= k < 9 => MulEntry(x, y, k))
  }

  /** The transpose, written `~x` in the source. */
  function Transpose(x: Mat3): Mat3
  {
    [x[0], x[3], x[6],
     x[1], x[4], x[7],
     x[2], x[5], x[8]]
  }

  function Trace(x: Mat3): real
  {
    x[0] + x[4] + x[8]
  }

  /** x equals its transpose. */
  predicate Symmetric(x: Mat3)
  {
    At(x, 0, 1) == At(x, 1, 0) && At(x, 0, 2) == At(x, 2, 0) && At(x, 1, 2) == At(x, 2, 1)
  }

  /** The diagonal matrix with v on its diagonal. */
  function Diag(v: Vec3): Mat3
  {
    [v[0], 0.0, 0.0,
     0.0, v[1], 0.0,
     0.0, 0.0, v[2]]
  }

  /**
   * `dot(x, y)`: the Frobenius inner product, the sum of the entrywise
   * products; `DotIsTrace` shows it is the source's `trace(x * ~y)`.
   */
  function Dot(x: Mat3, y: Mat3): real
  {
    x[0] * y[0] + x[1] * y[1] + x[2] * y[2]
    + x[3] * y[3] + x[4] * y[4] + x[5] * y[5]
    + x[6] * y[6] + x[7] * y[7] + x[8] * y[8]
  }

  /** `axpy(alpha, x, y)`: the new value of y after `y += alpha * x`. */
  function Axpy(alpha: real, x: Mat3, y: Mat3): (r: Mat3)
    ensures Sub(r, y) == Scale(alpha, x)
  {
    Add(y, Scale(alpha, x))
  }

  // ---------------------------------------------------------------------------
  // Algebra of the inner product

  /** The inner product the source writes as trace(x * ~y). */
  lemma DotIsTrace(x: Mat3, y: Mat3)
    ensures Dot(x, y) == Trace(Mul(x, Transpose(y)))
  {
  }

  lemma Distrib(a: real, b: real, c: real, d: real)
    requires d == b + c
    ensures a * d == a * b + a * c
  {
  }

  lemma DistribSub(a: real, b: real, c: real, d: real)
    requires d == b - c
    ensures a * d == a * b - a * c
  {
  }

  /** Pulling a common factor c out of a sum of nine products. */
  lemma SumScale(x0: real, x1: real, x2: real, x3: real, x4: real, x5: real, x6: real, x7: real, x8: real, c: real,
                 y0: real, y1: real, y2: real, y3: real, y4: real, y5: real, y6: real, y7: real, y8: real, d: real, e: real)
    requires d == x0 * y0 + x1 * y1 + x2 * y2
             + x3 * y3 + x4 * y4 + x5 * y5
             + x6 * y6 + x7 * y7 + x8 * y8
    requires e == x0 * (c * y0) + x1 * (c * y1) + x2 * (c * y2)
             + x3 * (c * y3) + x4 * (c * y4) + x5 * (c * y5)
             + x6 * (c * y6) + x7 * (c * y7) + x8 * (c * y8)
    ensures e == c * d
  {
  }

  lemma SquareNonNegative(a: real)
    ensures a * a >= 0.0
  {
  }

  lemma DotSymmetric(x: Mat3, y: Mat3)
    ensures Dot(x, y) == Dot(y, x)
  {
  }

  lemma DotAddRight(x: Mat3, y: Mat3, z: Mat3)
    ensures Dot(x, Add(y, z)) == Dot(x, y) + Dot(x, z)
  {
    Distrib(x[0], y[0], z[0], Add(y, z)[0]);
    Distrib(x[1], y[1], z[1], Add(y, z)[1]);
    Distrib(x[2], y[2], z[2], Add(y, z)[2]);
    Distrib(x[3], y[3], z[3], Add(y, z)[3]);
    Distrib(x[4], y[4], z[4], Add(y, z)[4]);
    Distrib(x[5], y[5], z[5], Add(y, z)[5]);
    Distrib(x[6], y[6], z[6], Add(y, z)[6]);
    Distrib(x[7], y[7], z[7], Add(y, z)[7]);
    Distrib(x[8], y[8], z[8], Add(y, z)[8]);
  }

  lemma DotSubRight(x: Mat3, y: Mat3, z: Mat3)
    ensures Dot(x, Sub(y, z)) == Dot(x, y) - Dot(x, z)
  {
    DistribSub(x[0], y[0], z[0], Sub(y, z)[0]);
    DistribSub(x[1], y[1], z[1], Sub(y, z)[1]);
    DistribSub(x[2], y[2], z[2], Sub(y, z)[2]);
    DistribSub(x[3], y[3], z[3], Sub(y, z)[3]);
    DistribSub(x[4], y[4], z[4], Sub(y, z)[4]);
    DistribSub(x[5], y[5], z[5], Sub(y, z)[5]);
    DistribSub(x[6], y[6], z[6], Sub(y, z)[6]);
    DistribSub(x[7], y[7], z[7], Sub(y, z)[7]);
    DistribSub(x[8], y[8], z[8], Sub(y, z)[8]);
  }

  lemma DotScaleRight(x: Mat3, c: real, y: Mat3)
    ensures Dot(x, Scale(c, y)) == c * Dot(x, y)
  {
    SumScale(x[0], x[1], x[2], x[3], x[4], x[5], x[6], x[7], x[8], c,
             y[0], y[1], y[2], y[3], y[4], y[5], y[6], y[7], y[8], Dot(x, y), Dot(x, Scale(c, y)));
  }

  lemma DotScaleLeft(c: real, x: Mat3, y: Mat3)
    ensures Dot(Scale(c, x), y) == c * Dot(x, y)
  {
    DotSymmetric(Scale(c, x), y);
    DotScaleRight(y, c, x);
    DotSymmetric(x, y);
  }

  lemma DotScaleBoth(c: real, x: Mat3)
    ensures Dot(Scale(c, x), Scale(c, x)) == c * (c * Dot(x, x))
  {
    DotScaleLeft(c, x, Scale(c, x));
    DotScaleRight(x, c, x);
  }

  lemma DotZeroRight(x: Mat3)
    ensures Dot(x, Zero()) == 0.0
  {
  }

  /** The inner product of a matrix with itself is a sum of squares. */
  lemma DotSelfNonNegative(x: Mat3)
    ensures Dot(x, x) >= 0.0
  {
    SquareNonNegative(x[0]); SquareNonNegative(x[1]); SquareNonNegative(x[2]); SquareNonNegative(x[3]); SquareNonNegative(x[4]);
    SquareNonNegative(x[5]); SquareNonNegative(x[6]); SquareNonNegative(x[7]); SquareNonNegative(x[8]);
  }

  /** Axpy moves every inner product linearly: dot(z, y + alpha x) == dot(z, y) + alpha dot(z, x). */
  lemma DotAxpy(z: Mat3, alpha: real, x: Mat3, y: Mat3)
    ensures Dot(z, Axpy(alpha, x, y)) == Dot(z, y) + alpha * Dot(z, x)
  {
    DotAddRight(z, y, Scale(alpha, x));
    DotScaleRight(z, alpha, x);
  }

  // ---------------------------------------------------------------------------
  // Integer matrices (symmetry operations in lattice coordinates)

  datatype IMat3 = IMat3(m00: int, m01: int, m02: int,
                         m10: int, m11: int, m12: int,
                         m20: int, m21: int, m22: int)

  function IAt(m: IMat3, i: nat, j: nat): int
    requires i < 3 && j < 3
  {
    if i == 0 then (if j == 0 then m.m00 else if j == 1 then m.m01 else m.m02)
    else if i == 1 then (if j == 0 then m.m10 else if j == 1 then m.m11 else m.m12)
    else (if j == 0 then m.m20 else if j == 1 then m.m21 else m.m22)
  }

  function IZero(): IMat3
  {
    IMat3(0, 0, 0, 0, 0, 0, 0, 0, 0)
  }

  function IIdentity(): IMat3
  {
    IMat3(1, 0, 0,
          0, 1, 0,
          0, 0, 1)
  }

  function ITranspose(x: IMat3): IMat3
  {
    IMat3(x.m00, x.m10, x.m20,
          x.m01, x.m11, x.m21,
          x.m02, x.m12, x.m22)
  }

  function IAdd(x: IMat3, y: IMat3): IMat3
  {
    IMat3(x.m00 + y.m00, x.m01 + y.m01, x.m02 + y.m02,
          x.m10 + y.m10, x.m11 + y.m11, x.m12 + y.m12,
          x.m20 + y.m20, x.m21 + y.m21, x.m22 + y.m22)
  }

  function IScale(c: int, x: IMat3): IMat3
  {
    IMat3(c * x.m00, c * x.m01, c * x.m02,
          c * x.m10, c * x.m11, c * x.m12,
          c * x.m20, c * x.m21, c * x.m22)
  }

  function IMul(x: IMat3, y: IMat3): IMat3
  {
    IMat3(x.m00 * y.m00 + x.m01 * y.m10 + x.m02 * y.m20,
          x.m00 * y.m01 + x.m01 * y.m11 + x.m02 * y.m21,
          x.m00 * y.m02 + x.m01 * y.m12 + x.m02 * y.m22,
          x.m10 * y.m00 + x.m11 * y.m10 + x.m12 * y.m20,
          x.m10 * y.m01 + x.m11 * y.m11 + x.m12 * y.m21,
          x.m10 * y.m02 + x.m11 * y.m12 + x.m12 * y.m22,
          x.m20 * y.m00 + x.m21 * y.m10 + x.m22 * y.m20,
          x.m20 * y.m01 + x.m21 * y.m11 + x.m22 * y.m21,
          x.m20 * y.m02 + x.m21 * y.m12 + x.m22 * y.m22)
  }

  function Det(m: IMat3): int
  {
    m.m00 * (m.m11 * m.m22 - m.m12 * m.m21)
    - m.m01 * (m.m10 * m.m22 - m.m12 * m.m20)
    + m.m02 * (m.m10 * m.m21 - m.m11 * m.m20)
  }

  /** The adjugate: the transpose of the cofactor matrix. */
  function Adjugate(m: IMat3): IMat3
  {
    IMat3(m.m11 * m.m22 - m.m12 * m.m21, m.m02 * m.m21 - m.m01 * m.m22, m.m01 * m.m12 - m.m02 * m.m11,
          m.m12 * m.m20 - m.m10 * m.m22, m.m00 * m.m22 - m.m02 * m.m20, m.m02 * m.m10 - m.m00 * m.m12,
          m.m10 * m.m21 - m.m11 * m.m20, m.m01 * m.m20 - m.m00 * m.m21, m.m00 * m.m11 - m.m01 * m.m10)
  }

  /** Conversion `matrix3<>(m)` from an integer to a real matrix. */
  function ToReal(m: IMat3): Mat3
  {
    [m.m00 as real, m.m01 as real, m.m02 as real,
     m.m10 as real, m.m11 as real, m.m12 as real,
     m.m20 as real, m.m21 as real, m.m22 as real]
  }

  ghost predicate IsInverse(a: IMat3, m: IMat3)
  {
    IMul(a, m) == IIdentity() && IMul(m, a) == IIdentity()
  }

  lemma CofactorsLeft0(m00: int, m01: int, m02: int, m10: int, m11: int, m12: int, m20: int, m21: int, m22: int, d: int)
    requires d == m00 * (m11 * m22 - m12 * m21) - m01 * (m10 * m22 - m12 * m20) + m02 * (m10 * m21 - m11 * m20)
    ensures (m11 * m22 - m12 * m21) * m00 + (m02 * m21 - m01 * m22) * m10 + (m01 * m12 - m02 * m11) * m20 == d
    ensures (m11 * m22 - m12 * m21) * m01 + (m02 * m21 - m01 * m22) * m11 + (m01 * m12 - m02 * m11) * m21 == 0
    ensures (m11 * m22 - m12 * m21) * m02 + (m02 * m21 - m01 * m22) * m12 + (m01 * m12 - m02 * m11) * m22 == 0
  {
  }

  lemma CofactorsLeft1(m00: int, m01: int, m02: int, m10: int, m11: int, m12: int, m20: int, m21: int, m22: int, d: int)
    requires d == m00 * (m11 * m22 - m12 * m21) - m01 * (m10 * m22 - m12 * m20) + m02 * (m10 * m21 - m11 * m20)
    ensures (m12 * m20 - m10 * m22) * m00 + (m00 * m22 - m02 * m20) * m10 + (m02 * m10 - m00 * m12) * m20 == 0
    ensures (m12 * m20 - m10 * m22) * m01 + (m00 * m22 - m02 * m20) * m11 + (m02 * m10 - m00 * m12) * m21 == d
    ensures (m12 * m20 - m10 * m22) * m02 + (m00 * m22 - m02 * m20) * m12 + (m02 * m10 - m00 * m12) * m22 == 0
  {
  }

  lemma CofactorsLeft2(m00: int, m01: int, m02: int, m10: int, m11: int, m12: int, m20: int, m21: int, m22: int, d: int)
    requires d == m00 * (m11 * m22 - m12 * m21) - m01 * (m10 * m22 - m12 * m20) + m02 * (m10 * m21 - m11 * m20)
    ensures (m10 * m21 - m11 * m20) * m00 + (m01 * m20 - m00 * m21) * m10 + (m00 * m11 - m01 * m10) * m20 == 0
    ensures (m10 * m21 - m11 * m20) * m01 + (m01 * m20 - m00 * m21) * m11 + (m00 * m11 - m01 * m10) * m21 == 0
    ensures (m10 * m21 - m11 * m20) * m02 + (m01 * m20 - m00 * m21) * m12 + (m00 * m11 - m01 * m10) * m22 == d
  {
  }

  lemma CofactorsRight0(m00: int, m01: int, m02: int, m10: int, m11: int, m12: int, m20: int, m21: int, m22: int, d: int)
    requires d == m00 * (m11 * m22 - m12 * m21) - m01 * (m10 * m22 - m12 * m20) + m02 * (m10 * m21 - m11 * m20)
    ensures m00 * (m11 * m22 - m12 * m21) + m01 * (m12 * m20 - m10 * m22) + m02 * (m10 * m21 - m11 * m20) == d
    ensures m00 * (m02 * m21 - m01 * m22) + m01 * (m00 * m22 - m02 * m20) + m02 * (m01 * m20 - m00 * m21) == 0
    ensures m00 * (m01 * m12 - m02 * m11) + m01 * (m02 * m10 - m00 * m12) + m02 * (m00 * m11 - m01 * m10) == 0
  {
  }

  lemma CofactorsRight1(m00: int, m01: int, m02: int, m10: int, m11: int, m12: int, m20: int, m21: int, m22: int, d: int)
    requires d == m00 * (m11 * m22 - m12 * m21) - m01 * (m10 * m22 - m12 * m20) + m02 * (m10 * m21 - m11 * m20)
    ensures m10 * (m11 * m22 - m12 * m21) + m11 * (m12 * m20 - m10 * m22) + m12 * (m10 * m21 - m11 * m20) == 0
    ensures m10 * (m02 * m21 - m01 * m22) + m11 * (m00 * m22 - m02 * m20) + m12 * (m01 * m20 - m00 * m21) == d
    ensures m10 * (m01 * m12 - m02 * m11) + m11 * (m02 * m10 - m00 * m12) + m12 * (m00 * m11 - m01 * m10) == 0
  {
  }

  lemma CofactorsRight2(m00: int, m01: int, m02: int, m10: int, m11: int, m12: int, m20: int, m21: int, m22: int, d: int)
    requires d == m00 * (m11 * m22 - m12 * m21) - m01 * (m10 * m22 - m12 * m20) + m02 * (m10 * m21 - m11 * m20)
    ensures m20 * (m11 * m22 - m12 * m21) + m21 * (m12 * m20 - m10 * m22) + m22 * (m10 * m21 - m11 * m20) == 0
    ensures m20 * (m02 * m21 - m01 * m22) + m21 * (m00 * m22 - m02 * m20) + m22 * (m01 * m20 - m00 * m21) == 0
    ensures m20 * (m01 * m12 - m02 * m11) + m21 * (m02 * m10 - m00 * m12) + m22 * (m00 * m11 - m01 * m10) == d
  {
  }

  /** adjugate(m) * m == det(m) * I, for every integer matrix. */
  lemma AdjugateLeft(m: IMat3)
    ensures IMul(Adjugate(m), m) == IScale(Det(m), IIdentity())
  {
    CofactorsLeft0(m.m00, m.m01, m.m02, m.m10, m.m11, m.m12, m.m20, m.m21, m.m22, Det(m));
    CofactorsLeft1(m.m00, m.m01, m.m02, m.m10, m.m11, m.m12, m.m20, m.m21, m.m22, Det(m));
    CofactorsLeft2(m.m00, m.m01, m.m02, m.m10, m.m11, m.m12, m.m20, m.m21, m.m22, Det(m));
  }

  /** m * adjugate(m) == det(m) * I, for every integer matrix. */
  lemma AdjugateRight(m: IMat3)
    ensures IMul(m, Adjugate(m)) == IScale(Det(m), IIdentity())
  {
    CofactorsRight0(m.m00, m.m01, m.m02, m.m10, m.m11, m.m12, m.m20, m.m21, m.m22, Det(m));
    CofactorsRight1(m.m00, m.m01, m.m02, m.m10, m.m11, m.m12, m.m20, m.m21, m.m22, Det(m));
    CofactorsRight2(m.m00, m.m01, m.m02, m.m10, m.m11, m.m12, m.m20, m.m21, m.m22, Det(m));
  }

  lemma IScaleOne(x: IMat3)
    ensures IScale(1, x) == x
  {
  }

  lemma NegSum(a0: int, a1: int, a2: int, b0: int, b1: int, b2: int)
    ensures (-1 * a0) * b0 + (-1 * a1) * b1 + (-1 * a2) * b2 == -1 * (a0 * b0 + a1 * b1 + a2 * b2)
    ensures a0 * (-1 * b0) + a1 * (-1 * b1) + a2 * (-1 * b2) == -1 * (a0 * b0 + a1 * b1 + a2 * b2)
  {
  }

  lemma IMulNegLeft(x: IMat3, y: IMat3)
    ensures IMul(IScale(-1, x), y) == IScale(-1, IMul(x, y))
  {
    NegSum(x.m00, x.m01, x.m02, y.m00, y.m10, y.m20);
    NegSum(x.m00, x.m01, x.m02, y.m01, y.m11, y.m21);
    NegSum(x.m00, x.m01, x.m02, y.m02, y.m12, y.m22);
    NegSum(x.m10, x.m11, x.m12, y.m00, y.m10, y.m20);
    NegSum(x.m10, x.m11, x.m12, y.m01, y.m11, y.m21);
    NegSum(x.m10, x.m11, x.m12, y.m02, y.m12, y.m22);
    NegSum(x.m20, x.m21, x.m22, y.m00, y.m10, y.m20);
    NegSum(x.m20, x.m21, x.m22, y.m01, y.m11, y.m21);
    NegSum(x.m20, x.m21, x.m22, y.m02, y.m12, y.m22);
  }

  lemma IMulNegRight(x: IMat3, y: IMat3)
    ensures IMul(x, IScale(-1, y)) == IScale(-1, IMul(x, y))
  {
    NegSum(x.m00, x.m01, x.m02, y.m00, y.m10, y.m20);
    NegSum(x.m00, x.m01, x.m02, y.m01, y.m11, y.m21);
    NegSum(x.m00, x.m01, x.m02, y.m02, y.m12, y.m22);
    NegSum(x.m10, x.m11, x.m12, y.m00, y.m10, y.m20);
    NegSum(x.m10, x.m11, x.m12, y.m01, y.m11, y.m21);
    NegSum(x.m10, x.m11, x.m12, y.m02, y.m12, y.m22);
    NegSum(x.m20, x.m21, x.m22, y.m00, y.m10, y.m20);
    NegSum(x.m20, x.m21, x.m22, y.m01, y.m11, y.m21);
    NegSum(x.m20, x.m21, x.m22, y.m02, y.m12, y.m22);
  }

  /**
   * When |det(m)| = 1, `det(m) * adjugate(m)` is the exact integer inverse of m,
   * which is what the symmetrization step relies on.
   */
  lemma UnimodularInverse(m: IMat3)
    requires Det(m) == 1 || Det(m) == -1
    ensures IsInverse(IScale(Det(m), Adjugate(m)), m)
  {
    AdjugateLeft(m);
    AdjugateRight(m);
    if Det(m) == 1 {
      IScaleOne(Adjugate(m));
    } else {
      IMulNegLeft(Adjugate(m), m);
      IMulNegRight(m, Adjugate(m));
    }
  }

  lemma AssocEntry(a0: int, a1: int, a2: int,
                   b00: int, b01: int, b02: int, b10: int, b11: int, b12: int, b20: int, b21: int, b22: int,
                   c0: int, c1: int, c2: int)
    ensures (a0 * b00 + a1 * b10 + a2 * b20) * c0 + (a0 * b01 + a1 * b11 + a2 * b21) * c1
          + (a0 * b02 + a1 * b12 + a2 * b22) * c2
         == a0 * (b00 * c0 + b01 * c1 + b02 * c2) + a1 * (b10 * c0 + b11 * c1 + b12 * c2)
          + a2 * (b20 * c0 + b21 * c1 + b22 * c2)
  {
  }

  lemma IMulAssoc(x: IMat3, y: IMat3, z: IMat3)
    ensures IMul(IMul(x, y), z) == IMul(x, IMul(y, z))
  {
    AssocEntry(x.m00, x.m01, x.m02, y.m00, y.m01, y.m02, y.m10, y.m11, y.m12, y.m20, y.m21, y.m22, z.m00, z.m10, z.m20);
    AssocEntry(x.m00, x.m01, x.m02, y.m00, y.m01, y.m02, y.m10, y.m11, y.m12, y.m20, y.m21, y.m22, z.m01, z.m11, z.m21);
    AssocEntry(x.m00, x.m01, x.m02, y.m00, y.m01, y.m02, y.m10, y.m11, y.m12, y.m20, y.m21, y.m22, z.m02, z.m12, z.m22);
    AssocEntry(x.m10, x.m11, x.m12, y.m00, y.m01, y.m02, y.m10, y.m11, y.m12, y.m20, y.m21, y.m22, z.m00, z.m10, z.m20);
    AssocEntry(x.m10, x.m11, x.m12, y.m00, y.m01, y.m02, y.m10, y.m11, y.m12, y.m20, y.m21, y.m22, z.m01, z.m11, z.m21);
    AssocEntry(x.m10, x.m11, x.m12, y.m00, y.m01, y.m02, y.m10, y.m11, y.m12, y.m20, y.m21, y.m22, z.m02, z.m12, z.m22);
    AssocEntry(x.m20, x.m21, x.m22, y.m00, y.m01, y.m02, y.m10, y.m11, y.m12, y.m20, y.m21, y.m22, z.m00, z.m10, z.m20);
    AssocEntry(x.m20, x.m21, x.m22, y.m00, y.m01, y.m02, y.m10, y.m11, y.m12, y.m20, y.m21, y.m22, z.m01, z.m11, z.m21);
    AssocEntry(x.m20, x.m21, x.m22, y.m00, y.m01, y.m02, y.m10, y.m11, y.m12, y.m20, y.m21, y.m22, z.m02, z.m12, z.m22);
  }

  /** Entry (i, j) of a product is row i of x times column j of y. */
  lemma IMulEntry(x: IMat3, y: IMat3, i: nat, j: nat)
    requires i < 3 && j < 3
    ensures IAt(IMul(x, y), i, j) == IAt(x, i, 0) * IAt(y, 0, j) + IAt(x, i, 1) * IAt(y, 1, j) + IAt(x, i, 2) * IAt(y, 2, j)
  {
  }

  lemma IMulIdentityLeft(x: IMat3)
    ensures IMul(IIdentity(), x) == x
  {
  }

  lemma IMulIdentityRight(x: IMat3)
    ensures IMul(x, IIdentity()) == x
  {
  }

  lemma DistribRow(a0: int, a1: int, a2: int, b0: int, b1: int, b2: int, c0: int, c1: int, c2: int)
    ensures a0 * (b0 + c0) + a1 * (b1 + c1) + a2 * (b2 + c2) == (a0 * b0 + a1 * b1 + a2 * b2) + (a0 * c0 + a1 * c1 + a2 * c2)
    ensures (b0 + c0) * a0 + (b1 + c1) * a1 + (b2 + c2) * a2 == (b0 * a0 + b1 * a1 + b2 * a2) + (c0 * a0 + c1 * a1 + c2 * a2)
  {
  }

  lemma IMulAddRight(x: IMat3, y: IMat3, z: IMat3)
    ensures IMul(x, IAdd(y, z)) == IAdd(IMul(x, y), IMul(x, z))
  {
    DistribRow(x.m00, x.m01, x.m02, y.m00, y.m10, y.m20, z.m00, z.m10, z.m20);
    DistribRow(x.m00, x.m01, x.m02, y.m01, y.m11, y.m21, z.m01, z.m11, z.m21);
    DistribRow(x.m00, x.m01, x.m02, y.m02, y.m12, y.m22, z.m02, z.m12, z.m22);
    DistribRow(x.m10, x.m11, x.m12, y.m00, y.m10, y.m20, z.m00, z.m10, z.m20);
    DistribRow(x.m10, x.m11, x.m12, y.m01, y.m11, y.m21, z.m01, z.m11, z.m21);
    DistribRow(x.m10, x.m11, x.m12, y.m02, y.m12, y.m22, z.m02, z.m12, z.m22);
    DistribRow(x.m20, x.m21, x.m22, y.m00, y.m10, y.m20, z.m00, z.m10, z.m20);
    DistribRow(x.m20, x.m21, x.m22, y.m01, y.m11, y.m21, z.m01, z.m11, z.m21);
    DistribRow(x.m20, x.m21, x.m22, y.m02, y.m12, y.m22, z.m02, z.m12, z.m22);
  }

  lemma IMulAddLeft(x: IMat3, y: IMat3, z: IMat3)
    ensures IMul(IAdd(x, y), z) == IAdd(IMul(x, z), IMul(y, z))
  {
    DistribRow(z.m00, z.m10, z.m20, x.m00, x.m01, x.m02, y.m00, y.m01, y.m02);
    DistribRow(z.m01, z.m11, z.m21, x.m00, x.m01, x.m02, y.m00, y.m01, y.m02);
    DistribRow(z.m02, z.m12, z.m22, x.m00, x.m01, x.m02, y.m00, y.m01, y.m02);
    DistribRow(z.m00, z.m10, z.m20, x.m10, x.m11, x.m12, y.m10, y.m11, y.m12);
    DistribRow(z.m01, z.m11, z.m21, x.m10, x.m11, x.m12, y.m10, y.m11, y.m12);
    DistribRow(z.m02, z.m12, z.m22, x.m10, x.m11, x.m12, y.m10, y.m11, y.m12);
    DistribRow(z.m00, z.m10, z.m20, x.m20, x.m21, x.m22, y.m20, y.m21, y.m22);
    DistribRow(z.m01, z.m11, z.m21, x.m20, x.m21, x.m22, y.m20, y.m21, y.m22);
    DistribRow(z.m02, z.m12, z.m22, x.m20, x.m21, x.m22, y.m20, y.m21, y.m22);
  }

  // ---------------------------------------------------------------------------
  // Linearity of the real product, and the integer-to-real conversion

  lemma RealOfProduct(a: int, b: int)
    ensures (a * b) as real == (a as real) * (b as real)
  {
  }
  lemma RealOfRow(a0: int, a1: int, a2: int, b0: int, b1: int, b2: int)
    ensures (a0 * b0 + a1 * b1 + a2 * b2) as real
         == (a0 as real) * (b0 as real) + (a1 as real) * (b1 as real) + (a2 as real) * (b2 as real)
  {
    RealOfProduct(a0, b0);
    RealOfProduct(a1, b1);
    RealOfProduct(a2, b2);
  }
  lemma ToRealMul(a: IMat3, b: IMat3)
    ensures ToReal(IMul(a, b)) == Mul(ToReal(a), ToReal(b))
  {
    RealOfRow(a.m00, a.m01, a.m02, b.m00, b.m10, b.m20);
    RealOfRow(a.m00, a.m01, a.m02, b.m01, b.m11, b.m21);
    RealOfRow(a.m00, a.m01, a.m02, b.m02, b.m12, b.m22);
    RealOfRow(a.m10, a.m11, a.m12, b.m00, b.m10, b.m20);
    RealOfRow(a.m10, a.m11, a.m12, b.m01, b.m11, b.m21);
    RealOfRow(a.m10, a.m11, a.m12, b.m02, b.m12, b.m22);
    RealOfRow(a.m20, a.m21, a.m22, b.m00, b.m10, b.m20);
    RealOfRow(a.m20, a.m21, a.m22, b.m01, b.m11, b.m21);
    RealOfRow(a.m20, a.m21, a.m22, b.m02, b.m12, b.m22);
    var l, r := ToReal(IMul(a, b)), Mul(ToReal(a), ToReal(b));
    forall k | 0 <= k < 9
      ensures l[k] == r[k]
    {
      if k == 0 {} else if k == 1 {} else if k == 2 {} else if k == 3 {} else if k == 4 {}
      else if k == 5 {} else if k == 6 {} else if k == 7 {} else {}
    }
  }
  lemma ScaleRow(a0: real, a1: real, a2: real, b0: real, b1: real, b2: real, c: real)
    ensures a0 * (c * b0) + a1 * (c * b1) + a2 * (c * b2) == c * (a0 * b0 + a1 * b1 + a2 * b2)
    ensures (c * a0) * b0 + (c * a1) * b1 + (c * a2) * b2 == c * (a0 * b0 + a1 * b1 + a2 * b2)
  {
  }
  lemma SubRow(a0: real, a1: real, a2: real, b0: real, b1: real, b2: real, d0: real, d1: real, d2: real)
    ensures a0 * (b0 - d0) + a1 * (b1 - d1) + a2 * (b2 - d2) == (a0 * b0 + a1 * b1 + a2 * b2) - (a0 * d0 + a1 * d1 + a2 * d2)
    ensures (b0 - d0) * a0 + (b1 - d1) * a1 + (b2 - d2) * a2 == (b0 * a0 + b1 * a1 + b2 * a2) - (d0 * a0 + d1 * a1 + d2 * a2)
  {
  }
  lemma MulAtScaleRight(g: Mat3, c: real, x: Mat3, i: nat, j: nat)
    requires i < 3 && j < 3
    ensures MulAt(g, Scale(c, x), i, j) == c * MulAt(g, x, i, j)
  {
    ScaleRow(At(g, i, 0), At(g, i, 1), At(g, i, 2), At(x, 0, j), At(x, 1, j), At(x, 2, j), c);
  }
  lemma MulAtScaleLeft(c: real, x: Mat3, g: Mat3, i: nat, j: nat)
    requires i < 3 && j < 3
    ensures MulAt(Scale(c, x), g, i, j) == c * MulAt(x, g, i, j)
  {
    ScaleRow(At(x, i, 0), At(x, i, 1), At(x, i, 2), At(g, 0, j), At(g, 1, j), At(g, 2, j), c);
  }
  lemma MulAtSubRight(g: Mat3, x: Mat3, y: Mat3, i: nat, j: nat)
    requires i < 3 && j < 3
    ensures MulAt(g, Sub(x, y), i, j) == MulAt(g, x, i, j) - MulAt(g, y, i, j)
  {
    SubRow(At(g, i, 0), At(g, i, 1), At(g, i, 2), At(x, 0, j), At(x, 1, j), At(x, 2, j), At(y, 0, j), At(y, 1, j), At(y, 2, j));
  }
  lemma MulAtSubLeft(x: Mat3, y: Mat3, g: Mat3, i: nat, j: nat)
    requires i < 3 && j < 3
    ensures MulAt(Sub(x, y), g, i, j) == MulAt(x, g, i, j) - MulAt(y, g, i, j)
  {
    SubRow(At(g, 0, j), At(g, 1, j), At(g, 2, j), At(x, i, 0), At(x, i, 1), At(x, i, 2), At(y, i, 0), At(y, i, 1), At(y, i, 2));
  }
  lemma MulScaleRight(g: Mat3, c: real, x: Mat3)
    ensures Mul(g, Scale(c, x)) == Scale(c, Mul(g, x))
  {
    var l, r := Mul(g, Scale(c, x)), Scale(c, Mul(g, x));
    forall k | 0 <= k < 9
      ensures l[k] == r[k]
    {
      if k == 0 { MulAtScaleRight(g, c, x, 0, 0); }
      else if k == 1 { MulAtScaleRight(g, c, x, 0, 1); }
      else if k == 2 { MulAtScaleRight(g, c, x, 0, 2); }
      else if k == 3 { MulAtScaleRight(g, c, x, 1, 0); }
      else if k == 4 { MulAtScaleRight(g, c, x, 1, 1); }
      else if k == 5 { MulAtScaleRight(g, c, x, 1, 2); }
      else if k == 6 { MulAtScaleRight(g, c, x, 2, 0); }
      else if k == 7 { MulAtScaleRight(g, c, x, 2, 1); }
      else { MulAtScaleRight(g, c, x, 2, 2); }
    }
  }
  lemma MulScaleLeft(c: real, x: Mat3, g: Mat3)
    ensures Mul(Scale(c, x), g) == Scale(c, Mul(x, g))
  {
    var l, r := Mul(Scale(c, x), g), Scale(c, Mul(x, g));
    forall k | 0 <= k < 9
      ensures l[k] == r[k]
    {
      if k == 0 { MulAtScaleLeft(c, x, g, 0, 0); }
      else if k == 1 { MulAtScaleLeft(c, x, g, 0, 1); }
      else if k == 2 { MulAtScaleLeft(c, x, g, 0, 2); }
      else if k == 3 { MulAtScaleLeft(c, x, g, 1, 0); }
      else if k == 4 { MulAtScaleLeft(c, x, g, 1, 1); }
      else if k == 5 { MulAtScaleLeft(c, x, g, 1, 2); }
      else if k == 6 { MulAtScaleLeft(c, x, g, 2, 0); }
      else if k == 7 { MulAtScaleLeft(c, x, g, 2, 1); }
      else { MulAtScaleLeft(c, x, g, 2, 2); }
    }
  }
  lemma MulSubRight(g: Mat3, x: Mat3, y: Mat3)
    ensures Mul(g, Sub(x, y)) == Sub(Mul(g, x), Mul(g, y))
  {
    var l, r := Mul(g, Sub(x, y)), Sub(Mul(g, x), Mul(g, y));
    forall k | 0 <= k < 9
      ensures l[k] == r[k]
    {
      if k == 0 { MulAtSubRight(g, x, y, 0, 0); }
      else if k == 1 { MulAtSubRight(g, x, y, 0, 1); }
      else if k == 2 { MulAtSubRight(g, x, y, 0, 2); }
      else if k == 3 { MulAtSubRight(g, x, y, 1, 0); }
      else if k == 4 { MulAtSubRight(g, x, y, 1, 1); }
      else if k == 5 { MulAtSubRight(g, x, y, 1, 2); }
      else if k == 6 { MulAtSubRight(g, x, y, 2, 0); }
      else if k == 7 { MulAtSubRight(g, x, y, 2, 1); }
      else { MulAtSubRight(g, x, y, 2, 2); }
    }
  }
  lemma MulSubLeft(x: Mat3, y: Mat3, g: Mat3)
    ensures Mul(Sub(x, y), g) == Sub(Mul(x, g), Mul(y, g))
  {
    var l, r := Mul(Sub(x, y), g), Sub(Mul(x, g), Mul(y, g));
    forall k | 0 <= k < 9
      ensures l[k] == r[k]
    {
      if k == 0 { MulAtSubLeft(x, y, g, 0, 0); }
      else if k == 1 { MulAtSubLeft(x, y, g, 0, 1); }
      else if k == 2 { MulAtSubLeft(x, y, g, 0, 2); }
      else if k == 3 { MulAtSubLeft(x, y, g, 1, 0); }
      else if k == 4 { MulAtSubLeft(x, y, g, 1, 1); }
      else if k == 5 { MulAtSubLeft(x, y, g, 1, 2); }
      else if k == 6 { MulAtSubLeft(x, y, g, 2, 0); }
      else if k == 7 { MulAtSubLeft(x, y, g, 2, 1); }
      else { MulAtSubLeft(x, y, g, 2, 2); }
    }
  }
}
