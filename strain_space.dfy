/**
 * The space of strains spanned by the strain basis: the projection that
 * `LatticeMinimizer::constrain` applies, the linear combination that
 * `LatticeMinimizer::compute` assembles the gradient with, and their algebra
 * for an orthonormal basis.
 */
module StrainSpace {
  import opened Matrix3

  /** The basis is orthonormal under the Frobenius inner product `Dot`. */
  ghost predicate Orthonormal(b: seq<Mat3>)
  {
    forall i, j :: 0 <= i < |b| && 0 <= j < |b| ==> Dot(b[i], b[j]) == if i == j then 1.0 else 0.0
  }

  /** Sum over k of b[k] * Dot(b[k], d), accumulated in basis order. */
  function Project(b: seq<Mat3>, d: Mat3): Mat3
    decreases |b|
  {
    if b == [] then Zero()
    else Add(Project(b[..|b| - 1], d), Scale(Dot(b[|b| - 1], d), b[|b| - 1]))
  }

  /** Sum over k of c[k] * b[k], accumulated in basis order. */
  function Combination(b: seq<Mat3>, c: seq<real>): Mat3
    requires |c| == |b|
    decreases |b|
  {
    if b == [] then Zero()
    else Add(Combination(b[..|b| - 1], c[..|c| - 1]), Scale(c[|c| - 1], b[|b| - 1]))
  }

  /** The coordinates Dot(b[k], x) of x along each basis element. */
  function Coordinates(b: seq<Mat3>, x: Mat3): seq<real>
  {
    seq(|b|, k requires 0 <= k < |b| => Dot(b[k], x))
  }

  /** x lies in the span of b exactly when projecting leaves it unchanged. */
  ghost predicate InSpan(b: seq<Mat3>, x: Mat3)
  {
    Project(b, x) == x
  }

  // ---------------------------------------------------------------------------
  // Matrix identities used below, one entry at a time

  lemma AccumulateEntry(a: real, bb: real, cc: real, s: real, p: real, q: real, r: real)
    requires r == p + s * q
    ensures a + s * bb + r * cc == (a + p * cc) + s * (bb + q * cc)
  {
  }

  /** (A + sB) + rC == (A + pC) + s(B + qC) when r == p + sq */
  lemma Accumulate(A: Mat3, B: Mat3, C: Mat3, s: real, p: real, q: real, r: real)
    requires r == p + s * q
    ensures Add(Add(A, Scale(s, B)), Scale(r, C))
         == Add(Add(A, Scale(p, C)), Scale(s, Add(B, Scale(q, C))))
  {
    var L := Add(Add(A, Scale(s, B)), Scale(r, C));
    var R := Add(Add(A, Scale(p, C)), Scale(s, Add(B, Scale(q, C))));
    forall k | 0 <= k < 9
      ensures L[k] == R[k]
    {
      AccumulateEntry(A[k], B[k], C[k], s, p, q, r);
    }
  }

  // ---------------------------------------------------------------------------
  // Coordinates of combinations and projections

  lemma {:induction false} DotCombinationPrefix(b: seq<Mat3>, c: seq<real>, n: nat, i: nat)
    requires Orthonormal(b) && |c| == |b| && n <= |b| && i < |b|
    ensures Dot(b[i], Combination(b[..n], c[..n])) == if i < n then c[i] else 0.0
  {
    if n == 0 {
      DotZeroRight(b[i]);
    } else {
      assert b[..n][..n - 1] == b[..n - 1];
      assert c[..n][..n - 1] == c[..n - 1];
      DotCombinationPrefix(b, c, n - 1, i);
      var rest := Combination(b[..n - 1], c[..n - 1]);
      DotAddRight(b[i], rest, Scale(c[n - 1], b[n - 1]));
      DotScaleRight(b[i], c[n - 1], b[n - 1]);
    }
  }

  /** Against an orthonormal basis, the k-th coordinate of Sum c[k] * b[k] is c[k]. */
  lemma DotCombination(b: seq<Mat3>, c: seq<real>, i: nat)
    requires Orthonormal(b) && |c| == |b| && i < |b|
    ensures Dot(b[i], Combination(b, c)) == c[i]
  {
    assert b[..|b|] == b;
    assert c[..|c|] == c;
    DotCombinationPrefix(b, c, |b|, i);
  }

  /** Projecting is taking the combination of the coordinates. */
  lemma {:induction false} ProjectIsCombination(b: seq<Mat3>, d: Mat3)
    ensures Project(b, d) == Combination(b, Coordinates(b, d))
    decreases |b|
  {
    if b != [] {
      var n := |b|;
      ProjectIsCombination(b[..n - 1], d);
      assert Coordinates(b, d)[..n - 1] == Coordinates(b[..n - 1], d);
    }
  }

  /** The projection keeps every coordinate of d along the basis. */
  lemma DotProject(b: seq<Mat3>, d: Mat3, i: nat)
    requires Orthonormal(b) && i < |b|
    ensures Dot(b[i], Project(b, d)) == Dot(b[i], d)
  {
    ProjectIsCombination(b, d);
    DotCombination(b, Coordinates(b, d), i);
  }

  /** Combinations of the basis are left unchanged by the projection. */
  lemma ProjectFixesCombination(b: seq<Mat3>, c: seq<real>)
    requires Orthonormal(b) && |c| == |b|
    ensures Project(b, Combination(b, c)) == Combination(b, c)
  {
    var x := Combination(b, c);
    ProjectIsCombination(b, x);
    forall k | 0 <= k < |b|
      ensures Coordinates(b, x)[k] == c[k]
    {
      DotCombination(b, c, k);
    }
    assert Coordinates(b, x) == c;
  }

  /** Projecting twice is projecting once. */
  lemma ProjectIdempotent(b: seq<Mat3>, d: Mat3)
    requires Orthonormal(b)
    ensures Project(b, Project(b, d)) == Project(b, d)
  {
    ProjectIsCombination(b, d);
    ProjectFixesCombination(b, Coordinates(b, d));
  }

  /** What the projection removes is orthogonal to every basis element. */
  lemma ResidualOrthogonal(b: seq<Mat3>, d: Mat3, i: nat)
    requires Orthonormal(b) && i < |b|
    ensures Dot(b[i], Sub(d, Project(b, d))) == 0.0
  {
    DotSubRight(b[i], d, Project(b, d));
    DotProject(b, d, i);
  }

  /** The projection is linear: P(x + s y) == P(x) + s P(y), for any sequence b. */
  lemma {:induction false} ProjectLinear(b: seq<Mat3>, x: Mat3, s: real, y: Mat3)
    ensures Project(b, Add(x, Scale(s, y))) == Add(Project(b, x), Scale(s, Project(b, y)))
    decreases |b|
  {
    if b == [] {
      ZeroLinear(s);
    } else {
      ProjectLinear(b[..|b| - 1], x, s, y);
      ProjectLinearStep(b, x, s, y);
    }
  }

  lemma ZeroLinear(s: real)
    ensures Add(Zero(), Scale(s, Zero())) == Zero()
  {
    var z := Add(Zero(), Scale(s, Zero()));
    forall k | 0 <= k < 9
      ensures z[k] == Zero()[k]
    {
    }
  }

  lemma ProjectLinearStep(b: seq<Mat3>, x: Mat3, s: real, y: Mat3)
    requires b != []
    requires Project(b[..|b| - 1], Add(x, Scale(s, y)))
          == Add(Project(b[..|b| - 1], x), Scale(s, Project(b[..|b| - 1], y)))
    ensures Project(b, Add(x, Scale(s, y))) == Add(Project(b, x), Scale(s, Project(b, y)))
  {
    var b', last := b[..|b| - 1], b[|b| - 1];
    var z := Add(x, Scale(s, y));
    var px, py := Project(b', x), Project(b', y);
    var dx, dy, dz := Dot(last, x), Dot(last, y), Dot(last, z);
    DotAddRight(last, x, Scale(s, y));
    DotScaleRight(last, s, y);
    assert Project(b, z) == Add(Add(px, Scale(s, py)), Scale(dz, last));
    Accumulate(px, py, last, s, dx, dy, dz);
  }

  /** Taking a step x + s y from a point of the span along a direction of the span stays in the span. */
  lemma SpanClosed(b: seq<Mat3>, x: Mat3, s: real, y: Mat3)
    requires InSpan(b, x) && InSpan(b, y)
    ensures InSpan(b, Add(x, Scale(s, y)))
  {
    ProjectLinear(b, x, s, y);
  }

  /** For an orthonormal basis, the span is exactly the set of combinations of the basis. */
  lemma InSpanIffCombination(b: seq<Mat3>, x: Mat3)
    requires Orthonormal(b)
    ensures InSpan(b, x) <==> exists c :: |c| == |b| && x == Combination(b, c)
  {
    if InSpan(b, x) {
      ProjectIsCombination(b, x);
      assert |Coordinates(b, x)| == |b| && x == Combination(b, Coordinates(b, x));
    }
    if exists c :: |c| == |b| && x == Combination(b, c) {
      var c :| |c| == |b| && x == Combination(b, c);
      ProjectFixesCombination(b, c);
    }
  }
}
