/**
 * The index arithmetic of `GridInfo`: the sample counts S of the FFT box,
 * the point counts `nr` (real space) and `nG` (half reciprocal space of the
 * real-to-complex transform), the wrapping of negative reciprocal-lattice
 * coordinates into [0, S), and the row-major (mixed-radix) linear indices
 * into the full real-space box and the full and half reciprocal boxes.
 */
module GridIndex {

  /** A triple of integers, such as vector3<int>. */
  type Int3 = v: seq<int> | |v| == 3 witness [0, 0, 0]

  /** Sample counts of an initialized grid: every S[k] is positive. */
  predicate ValidSize(S: Int3)
  {
    S[0] > 0 && S[1] > 0 && S[2] > 0
  }

  /** C's `n/2` on an int: the quotient truncated toward zero, also for negative n. */
  function Div2(n: int): int
  {
    if n >= 0 then n / 2 else -((-n) / 2)
  }

  /** `nr = S[0]*S[1]*S[2]`, the number of real-space grid points. */
  function Nr(S: Int3): int
  {
    S[0] * S[1] * S[2]
  }

  /** `nG = S[0]*S[1]*(S[2]/2+1)`, the number of points of the half reciprocal box. */
  function NG(S: Int3): int
  {
    S[0] * S[1] * (Div2(S[2]) + 1)
  }

  /** iR lies in the real-space box: 0 <= iR[k] < S[k] on every axis. */
  predicate InBox(S: Int3, iR: Int3)
  {
    forall k :: 0 <= k < 3 ==> 0 <= iR[k] < S[k]
  }

  /** iG lies in the half box: the full box on the first two axes, 0 .. S[2]/2 on the last. */
  predicate InHalfBox(S: Int3, iG: Int3)
  {
    0 <= iG[0] < S[0] && 0 <= iG[1] < S[1] && 0 <= iG[2] <= Div2(S[2])
  }

  // ---------------------------------------------------------------------------
  // wrapGcoords

  /** The coordinates wrapGcoords returns: S[k] added to each negative component. */
  function Wrapped(S: Int3, iG: Int3): (w: Int3)
  {
    seq(3, k requires 0 <= k < 3 => if iG[k] < 0 then iG[k] + S[k] else iG[k])
  }

  /** `wrapGcoords(iG)`: the loop over k on a copy of iG. */
  method WrapGcoords(S: Int3, iG: Int3) returns (w: Int3)
    ensures w == Wrapped(S, iG)
  {
    w := iG;
    var k := 0;
    while k < 3
      invariant 0 <= k <= 3
      invariant forall k' :: 0 <= k' < k ==> w[k'] == Wrapped(S, iG)[k']
      invariant forall k' :: k <= k' < 3 ==> w[k'] == iG[k']
    {
      if w[k] < 0 {
        w := w[k := w[k] + S[k]];
      }
      k := k + 1;
    }
  }

  /**
   * Wrapping changes only negative components, and each only by a multiple
   * of S[k]: the result is congruent to iG modulo S.
   */
  lemma WrappedCongruent(S: Int3, iG: Int3)
    requires ValidSize(S)
    ensures forall k :: 0 <= k < 3 && 0 <= iG[k] ==> Wrapped(S, iG)[k] == iG[k]
    ensures forall k :: 0 <= k < 3 ==> Wrapped(S, iG)[k] % S[k] == iG[k] % S[k]
  {
    forall k | 0 <= k < 3
      ensures Wrapped(S, iG)[k] % S[k] == iG[k] % S[k]
    {
      if iG[k] < 0 {
        ModShift(iG[k], S[k]);
      }
    }
  }

  lemma ModShift(x: int, n: int)
    requires n > 0
    ensures (x + n) % n == x % n
  {
    MixedRadixInjective((x + n) % n, (x + n) / n, x % n, x / n + 1, n);
  }

  /** Components in [-S[k], S[k]) wrap into [0, S[k]). */
  lemma WrappedInBox(S: Int3, iG: Int3)
    requires forall k :: 0 <= k < 3 ==> -S[k] <= iG[k] < S[k]
    ensures InBox(S, Wrapped(S, iG))
  {
  }

  /** Wrapping twice is wrapping once, for components not below -S[k]. */
  lemma WrappedIdempotent(S: Int3, iG: Int3)
    requires ValidSize(S)
    requires forall k :: 0 <= k < 3 ==> -S[k] <= iG[k]
    ensures Wrapped(S, Wrapped(S, iG)) == Wrapped(S, iG)
  {
  }

  // ---------------------------------------------------------------------------
  // Mixed-radix linear indices

  /** x + n*y with 0 <= x < n and 0 <= y < m lies in [0, n*m). */
  lemma MixedRadixBounds(x: int, y: int, n: int, m: int)
    requires 0 <= x < n && 0 <= y < m
    ensures 0 <= x + n * y < n * m
  {
    assert n * y <= n * (m - 1);
  }

  /** x + n*y determines x and y when 0 <= x, x' < n. */
  lemma MixedRadixInjective(x: int, y: int, x': int, y': int, n: int)
    requires 0 <= x < n && 0 <= x' < n
    requires x + n * y == x' + n * y'
    ensures x == x' && y == y'
  {
    if y < y' {
      MulAtLeast(n, y' - y);
      assert false;
    } else if y' < y {
      MulAtLeast(n, y - y');
      assert false;
    }
  }

  lemma MulAtLeast(n: int, d: int)
    requires n > 0 && d >= 1
    ensures n * d >= n
  {
    assert n * d == n * (d - 1) + n;
    NonNegativeProduct(n, d - 1);
  }

  lemma NonNegativeProduct(a: int, b: int)
    requires a >= 0 && b >= 0
    ensures a * b >= 0
  {
  }

  /** `fullRindex(iR) = iR[2] + S[2]*(iR[1] + S[1]*iR[0])`: row-major order, last axis fastest. */
  function FullRindex(S: Int3, iR: Int3): int
  {
    iR[2] + S[2] * (iR[1] + S[1] * iR[0])
  }

  /** Within the box, fullRindex lies in [0, nr). */
  lemma FullRindexBounds(S: Int3, iR: Int3)
    requires InBox(S, iR)
    ensures 0 <= FullRindex(S, iR) < Nr(S)
  {
    MixedRadixBounds(iR[1], iR[0], S[1], S[0]);
    MixedRadixBounds(iR[2], iR[1] + S[1] * iR[0], S[2], S[1] * S[0]);
  }

  /** Different points of the box have different fullRindex. */
  lemma FullRindexInjective(S: Int3, iR: Int3, jR: Int3)
    requires InBox(S, iR) && InBox(S, jR)
    requires FullRindex(S, iR) == FullRindex(S, jR)
    ensures iR == jR
  {
    MixedRadixInjective(iR[2], iR[1] + S[1] * iR[0], jR[2], jR[1] + S[1] * jR[0], S[2]);
    MixedRadixInjective(iR[1], iR[0], jR[1], jR[0], S[1]);
  }

  /** The point of the box with the given fullRindex: the digits of idx in radix (S[0], S[1], S[2]). */
  function RPoint(S: Int3, idx: int): (iR: Int3)
    requires ValidSize(S)
  {
    [idx / S[2] / S[1], idx / S[2] % S[1], idx % S[2]]
  }

  /** Every index in [0, nr) is fullRindex of exactly the point RPoint gives. */
  lemma FullRindexRoundTrip(S: Int3, idx: int)
    requires ValidSize(S) && 0 <= idx < Nr(S)
    ensures InBox(S, RPoint(S, idx)) && FullRindex(S, RPoint(S, idx)) == idx
  {
    var q := idx / S[2];
    DivBelow(idx, S[2], S[0] * S[1]);
    DivBelow(q, S[1], S[0]);
    assert idx == idx % S[2] + S[2] * q;
    assert q == q % S[1] + S[1] * (q / S[1]);
  }

  /** idx < n*m gives idx / n < m. */
  lemma DivBelow(idx: int, n: int, m: int)
    requires n > 0 && 0 <= idx < m * n
    ensures 0 <= idx / n < m
  {
  }

  /** `fullGindex(iG) = fullRindex(wrapGcoords(iG))`. */
  method FullGindex(S: Int3, iG: Int3) returns (idx: int)
    ensures idx == FullRindex(S, Wrapped(S, iG))
  {
    var w := WrapGcoords(S, iG);
    idx := FullRindex(S, w);
  }

  /** For -S[k] <= iG[k] < S[k], fullGindex lies in [0, nr). */
  lemma FullGindexBounds(S: Int3, iG: Int3)
    requires forall k :: 0 <= k < 3 ==> -S[k] <= iG[k] < S[k]
    ensures 0 <= FullRindex(S, Wrapped(S, iG)) < Nr(S)
  {
    WrappedInBox(S, iG);
    FullRindexBounds(S, Wrapped(S, iG));
  }

  /** The half-box index: stride S[2]/2+1 on the last axis. */
  function HalfIndex(S: Int3, w: Int3): int
  {
    w[2] + (Div2(S[2]) + 1) * (w[1] + S[1] * w[0])
  }

  /** `halfGindex(iG)`: the half-box index of the wrapped coordinates. */
  method HalfGindex(S: Int3, iG: Int3) returns (idx: int)
    ensures idx == HalfIndex(S, Wrapped(S, iG))
  {
    var w := WrapGcoords(S, iG);
    idx := w[2] + (Div2(S[2]) + 1) * (w[1] + S[1] * w[0]);
  }

  /** Within the half box, the half index lies in [0, nG). */
  lemma HalfIndexBounds(S: Int3, w: Int3)
    requires ValidSize(S) && InHalfBox(S, w)
    ensures 0 <= HalfIndex(S, w) < NG(S)
  {
    MixedRadixBounds(w[1], w[0], S[1], S[0]);
    MixedRadixBounds(w[2], w[1] + S[1] * w[0], Div2(S[2]) + 1, S[1] * S[0]);
  }

  /** halfGindex lies in [0, nG) whenever the wrapped coordinates lie in the half box. */
  lemma HalfGindexBounds(S: Int3, iG: Int3)
    requires ValidSize(S)
    requires forall k :: 0 <= k < 3 ==> -S[k] <= iG[k] < S[k]
    requires Wrapped(S, iG)[2] <= Div2(S[2])
    ensures 0 <= HalfIndex(S, Wrapped(S, iG)) < NG(S)
  {
    WrappedInBox(S, iG);
    HalfIndexBounds(S, Wrapped(S, iG));
  }

  /** The point of the half box with the given half index. */
  function HalfPoint(S: Int3, idx: int): (w: Int3)
    requires ValidSize(S)
  {
    [idx / (Div2(S[2]) + 1) / S[1], idx / (Div2(S[2]) + 1) % S[1], idx % (Div2(S[2]) + 1)]
  }

  /** Every index in [0, nG) is the half index of exactly the point HalfPoint gives. */
  lemma HalfIndexRoundTrip(S: Int3, idx: int)
    requires ValidSize(S) && 0 <= idx < NG(S)
    ensures InHalfBox(S, HalfPoint(S, idx)) && HalfIndex(S, HalfPoint(S, idx)) == idx
  {
    var half := Div2(S[2]) + 1;
    var q := idx / half;
    DivBelow(idx, half, S[0] * S[1]);
    DivBelow(q, S[1], S[0]);
    assert idx == idx % half + half * q;
    assert q == q % S[1] + S[1] * (q / S[1]);
  }

  /** Different points of the half box have different half indices. */
  lemma HalfIndexInjective(S: Int3, w: Int3, v: Int3)
    requires ValidSize(S) && InHalfBox(S, w) && InHalfBox(S, v)
    requires HalfIndex(S, w) == HalfIndex(S, v)
    ensures w == v
  {
    MixedRadixInjective(w[2], w[1] + S[1] * w[0], v[2], v[1] + S[1] * v[0], Div2(S[2]) + 1);
    MixedRadixInjective(w[1], w[0], v[1], v[0], S[1]);
  }

  lemma MulMonotone(a: int, b: int, c: int)
    requires a >= 0 && b <= c
    ensures a * b <= a * c
  {
    NonNegativeProduct(a, c - b);
    assert a * c - a * b == a * (c - b);
  }

  /** The half box holds at most all of the points of the full box and at least half of them. */
  lemma HalfBoxSize(S: Int3)
    requires ValidSize(S)
    ensures Nr(S) <= 2 * NG(S) && NG(S) <= Nr(S)
  {
    var a, half := S[0] * S[1], Div2(S[2]) + 1;
    NonNegativeProduct(S[0], S[1]);
    MulMonotone(a, S[2], 2 * half);
    MulMonotone(a, half, S[2]);
    assert a * (2 * half) == 2 * (a * half);
  }
}
