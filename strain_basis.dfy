/**
 * The strain basis built by the `LatticeMinimizer` constructor: the check
 * that the per-axis move scales agree with the symmetries, the choice of
 * fixed axes, the six symmetric generators and which of them are skipped,
 * symmetrization over the point group with exact integer inverses, and
 * modified Gram-Schmidt under `Dot` with a norm threshold.
 */
module StrainBasis {
  import opened Wrappers
  import opened Matrix3
  import opened StrainSpace

  /** A per-axis flag, such as vector3<bool>. */
  type Flags3 = f: seq<bool> | |f| == 3 witness [false, false, false]

  /** A symmetry matrix and the entry of it that links two axes with different move scales. */
  datatype Conflict = Conflict(m: nat, i: nat, j: nat)

  /** The two conditions under which the constructor stops the program. */
  datatype ConfigError =
    | NotCommensurate(i: nat, j: nat)   // axes i and j are linked by a symmetry but move differently
    | AllConstrained                    // no strain direction is left to minimize over

  // ---------------------------------------------------------------------------
  // Move scales against the symmetries

  /** Every axis pair that m links (m(i,j) != 0) has equal move scales. */
  predicate AgreesWith(m: IMat3, scale: Vec3)
  {
    forall i, j :: 0 <= i < 3 && 0 <= j < 3 && IAt(m, i, j) != 0 ==> scale[i] == scale[j]
  }

  predicate Commensurate(sym: seq<IMat3>, scale: Vec3)
  {
    forall n :: 0 <= n < |sym| ==> AgreesWith(sym[n], scale)
  }

  /**
   * c is the conflict the scan meets first: entry (c.i, c.j) of matrix c.m
   * links two axes with different move scales, while every earlier matrix,
   * and every earlier entry of c.m in row-major order, agrees.
   */
  predicate FirstConflict(sym: seq<IMat3>, scale: Vec3, c: Conflict)
  {
    c.m < |sym| && c.i < 3 && c.j < 3 && IAt(sym[c.m], c.i, c.j) != 0 && scale[c.i] != scale[c.j] &&
    (forall n :: 0 <= n < c.m ==> AgreesWith(sym[n], scale)) &&
    (forall i, j :: 0 <= i < 3 && 0 <= j < 3 && (i < c.i || (i == c.i && j < c.j)) && IAt(sym[c.m], i, j) != 0 ==>
       scale[i] == scale[j])
  }

  /**
   * The scan of the symmetry matrices: finds a conflicting entry exactly
   * when the move scales are not commensurate with the symmetries, and the
   * one it finds is the first in the order of the loops.
   */
  method CheckCommensurate(sym: seq<IMat3>, scale: Vec3) returns (r: Option<Conflict>)
    ensures r.None? <==> Commensurate(sym, scale)
    ensures r.Some? ==> FirstConflict(sym, scale, r.value)
  {
    var n := 0;
    while n < |sym|
      invariant 0 <= n <= |sym|
      invariant forall n' :: 0 <= n' < n ==> AgreesWith(sym[n'], scale)
    {
      var m := sym[n];
      var i := 0;
      while i < 3
        invariant 0 <= i <= 3
        invariant forall i', j :: 0 <= i' < i && 0 <= j < 3 && IAt(m, i', j) != 0 ==> scale[i'] == scale[j]
      {
        var j := 0;
        while j < 3
          invariant 0 <= j <= 3
          invariant forall i', j' :: 0 <= i' < i && 0 <= j' < 3 && IAt(m, i', j') != 0 ==> scale[i'] == scale[j']
          invariant forall j' :: 0 <= j' < j && IAt(m, i, j') != 0 ==> scale[i] == scale[j']
        {
          if IAt(m, i, j) != 0 && scale[i] != scale[j] {
            return Some(Conflict(n, i, j));
          }
          j := j + 1;
        }
        i := i + 1;
      }
      n := n + 1;
    }
    return None;
  }

  // ---------------------------------------------------------------------------
  // Fixed axes and generators

  /** Axis k is fixed when its move scale is zero or the Coulomb interaction is truncated along it. */
  function FixedFlags(scale: Vec3, truncated: Flags3): Flags3
  {
    seq(3, k requires 0 <= k < 3 => scale[k] == 0.0 || truncated[k])
  }

  method FixedAxes(scale: Vec3, truncated: Flags3) returns (fixed: Flags3)
    ensures forall k :: 0 <= k < 3 ==> (fixed[k] <==> scale[k] == 0.0 || truncated[k])
  {
    fixed := [false, false, false];
    var k := 0;
    while k < 3
      invariant 0 <= k <= 3
      invariant forall k' :: 0 <= k' < k ==> (fixed[k'] <==> scale[k'] == 0.0 || truncated[k'])
    {
      fixed := fixed[k := scale[k] == 0.0 || truncated[k]];
      k := k + 1;
    }
  }

  /**
   * Generator k of the symmetric matrices, written out: the unit diagonal
   * entry (k,k) for k < 3, and otherwise ones at (i,j) and (j,i) with
   * i = (k+1)%3, j = (k+2)%3 (see GeneratorEntries).
   */
  function Generator(k: nat): (s: IMat3)
    requires k < 6
    ensures ITranspose(s) == s
  {
    if k == 0 then IMat3(1, 0, 0, 0, 0, 0, 0, 0, 0)
    else if k == 1 then IMat3(0, 0, 0, 0, 1, 0, 0, 0, 0)
    else if k == 2 then IMat3(0, 0, 0, 0, 0, 0, 0, 0, 1)
    else if k == 3 then IMat3(0, 0, 0, 0, 0, 1, 0, 1, 0)
    else if k == 4 then IMat3(0, 0, 1, 0, 0, 0, 1, 0, 0)
    else IMat3(0, 1, 0, 1, 0, 0, 0, 0, 0)
  }

  /** Entry (i,j) of the all-zero matrix after `s(k,k) = 1` or `s(i,j) = s(j,i) = 1`. */
  function GeneratorEntry(k: nat, i: nat, j: nat): int
    requires k < 6
  {
    if k < 3 then (if i == k && j == k then 1 else 0)
    else
      var p, q := (k + 1) % 3, (k + 2) % 3;
      if (i == p && j == q) || (i == q && j == p) then 1 else 0
  }

  /** The table of generators is the matrix the loop body sets up for each k. */
  lemma GeneratorEntries(k: nat, i: nat, j: nat)
    requires k < 6 && i < 3 && j < 3
    ensures IAt(Generator(k), i, j) == GeneratorEntry(k, i, j)
  {
    if k == 0 {
    } else if k == 1 {
    } else if k == 2 {
    } else if k == 3 {
    } else if k == 4 {
    } else {
    }
  }

  /** The test that makes the loop `continue` before symmetrizing generator k. */
  function Skipped(k: nat, fixed: Flags3): bool
    requires k < 6
  {
    if k < 3 then fixed[k] else fixed[(k + 1) % 3] || fixed[(k + 2) % 3]
  }

  /** s alters axis i: row i of s (equally, for a symmetric s, column i) has a non-zero entry. */
  predicate Alters(s: IMat3, i: nat)
    requires i < 3
  {
    IAt(s, i, 0) != 0 || IAt(s, i, 1) != 0 || IAt(s, i, 2) != 0
  }

  /** A generator is skipped exactly when it alters a fixed axis. */
  lemma SkippedIffAltersFixed(k: nat, fixed: Flags3)
    requires k < 6
    ensures Skipped(k, fixed) <==> exists i :: 0 <= i < 3 && fixed[i] && Alters(Generator(k), i)
  {
    var s := Generator(k);
    if k == 0 {
      assert Alters(s, 0);
    } else if k == 1 {
      assert Alters(s, 1);
    } else if k == 2 {
      assert Alters(s, 2);
    } else if k == 3 {
      assert Alters(s, 1) && Alters(s, 2);
    } else if k == 4 {
      assert Alters(s, 2) && Alters(s, 0);
    } else {
      assert Alters(s, 0) && Alters(s, 1);
    }
  }

  // ---------------------------------------------------------------------------
  // Symmetrization

  /** `det(m) * adjugate(m)`, the inverse of m when |det(m)| = 1. */
  function UnimodularInv(m: IMat3): IMat3
  {
    IScale(Det(m), Adjugate(m))
  }

  /** One summand `mInv * s * m` of the symmetrized generator. */
  function Conjugate(m: IMat3, s: IMat3): IMat3
  {
    IMul(IMul(UnimodularInv(m), s), m)
  }

  /** The sum of the conjugates of s over the symmetry matrices, in their order. */
  function SymSum(sym: seq<IMat3>, s: IMat3): IMat3
    decreases |sym|
  {
    if sym == [] then IZero()
    else IAdd(SymSum(sym[..|sym| - 1], s), Conjugate(sym[|sym| - 1], s))
  }

  /** The accumulation loop `sSym += mInv * s * m`. */
  method Symmetrize(sym: seq<IMat3>, s: IMat3) returns (sSym: IMat3)
    ensures sSym == SymSum(sym, s)
    ensures IsGroup(sym) ==> forall n :: 0 <= n < |sym| ==> IMul(sym[n], sSym) == IMul(sSym, sym[n])
  {
    sSym := IZero();
    var n := 0;
    while n < |sym|
      invariant 0 <= n <= |sym|
      invariant sSym == SymSum(sym[..n], s)
    {
      assert sym[..n + 1][..n] == sym[..n];
      sSym := IAdd(sSym, Conjugate(sym[n], s));
      n := n + 1;
    }
    assert sym[..|sym|] == sym;
    if IsGroup(sym) {
      forall n | 0 <= n < |sym|
        ensures IMul(sym[n], sSym) == IMul(sSym, sym[n])
      {
        SymSumInvariant(sym, s, sym[n]);
      }
    }
  }

  /**
   * For a symmetry matrix with |det(m)| = 1, each summand is s conjugated by m:
   * m * (mInv * s * m) == s * m, so the integer sum is exact.
   */
  lemma ConjugateIntertwines(m: IMat3, s: IMat3)
    requires Det(m) == 1 || Det(m) == -1
    ensures IMul(m, Conjugate(m, s)) == IMul(s, m)
  {
    var inv := UnimodularInv(m);
    UnimodularInverse(m);
    calc {
      IMul(m, IMul(IMul(inv, s), m));
      { IMulAssoc(m, IMul(inv, s), m); }
      IMul(IMul(m, IMul(inv, s)), m);
      { IMulAssoc(m, inv, s); }
      IMul(IMul(IMul(m, inv), s), m);
      { IMulIdentityLeft(s); }
      IMul(s, m);
    }
  }

  // ---------------------------------------------------------------------------
  // Why the sum is invariant under the point group

  /** No matrix is listed twice. */
  predicate Distinct(a: seq<IMat3>)
  {
    forall p, q :: 0 <= p < q < |a| ==> a[p] != a[q]
  }

  /**
   * The symmetry matrices of a crystal form a group: each is unimodular, the
   * product of two of them is again one of them, and the list has no repeats.
   */
  predicate IsGroup(sym: seq<IMat3>)
  {
    (forall n :: 0 <= n < |sym| ==> Det(sym[n]) == 1 || Det(sym[n]) == -1) &&
    (forall p, q {:trigger IMul(sym[p], sym[q])} :: 0 <= p < |sym| && 0 <= q < |sym| ==> IMul(sym[p], sym[q]) in sym) &&
    Distinct(sym)
  }

  /** The inverse of a product is the product of the inverses, in reverse order. */
  lemma InverseOfProduct(m: IMat3, g: IMat3)
    requires Det(m) == 1 || Det(m) == -1
    requires Det(g) == 1 || Det(g) == -1
    requires Det(IMul(m, g)) == 1 || Det(IMul(m, g)) == -1
    ensures UnimodularInv(IMul(m, g)) == IMul(UnimodularInv(g), UnimodularInv(m))
  {
    var p, im, ig := IMul(m, g), UnimodularInv(m), UnimodularInv(g);
    var q, ip := IMul(ig, im), UnimodularInv(p);
    UnimodularInverse(m);
    UnimodularInverse(g);
    UnimodularInverse(p);
    calc {
      IMul(p, q);
      { IMulAssoc(m, g, q); }
      IMul(m, IMul(g, q));
      { IMulAssoc(g, ig, im); }
      IMul(m, IMul(IMul(g, ig), im));
      { IMulIdentityLeft(im); }
      IMul(m, im);
    }
    calc {
      ip;
      { IMulIdentityRight(ip); }
      IMul(ip, IMul(p, q));
      { IMulAssoc(ip, p, q); }
      IMul(IMul(ip, p), q);
      { IMulIdentityLeft(q); }
      q;
    }
  }

  /** The summand for m * g is the summand for m conjugated by g. */
  lemma ConjugateOfProduct(m: IMat3, g: IMat3, s: IMat3)
    requires Det(m) == 1 || Det(m) == -1
    requires Det(g) == 1 || Det(g) == -1
    requires Det(IMul(m, g)) == 1 || Det(IMul(m, g)) == -1
    ensures Conjugate(IMul(m, g), s) == IMul(IMul(UnimodularInv(g), Conjugate(m, s)), g)
  {
    var im, ig := UnimodularInv(m), UnimodularInv(g);
    var a := IMul(im, s);
    InverseOfProduct(m, g);
    calc {
      Conjugate(IMul(m, g), s);
      IMul(IMul(IMul(ig, im), s), IMul(m, g));
      { IMulAssoc(ig, im, s); }
      IMul(IMul(ig, a), IMul(m, g));
      { IMulAssoc(IMul(ig, a), m, g); }
      IMul(IMul(IMul(ig, a), m), g);
      { IMulAssoc(ig, a, m); }
      IMul(IMul(ig, IMul(a, m)), g);
    }
  }

  /** Each symmetry matrix multiplied on the right by g. */
  function RightTimes(sym: seq<IMat3>, g: IMat3): (r: seq<IMat3>)
    ensures |r| == |sym| && forall n :: 0 <= n < |sym| ==> r[n] == IMul(sym[n], g)
  {
    seq(|sym|, n requires 0 <= n < |sym| => IMul(sym[n], g))
  }

  /** Reindexing the sum by m -> m * g conjugates it by g. */
  lemma {:induction false} SymSumRightTimes(sym: seq<IMat3>, s: IMat3, g: IMat3)
    requires forall n :: 0 <= n < |sym| ==> Det(sym[n]) == 1 || Det(sym[n]) == -1
    requires forall n :: 0 <= n < |sym| ==> Det(IMul(sym[n], g)) == 1 || Det(IMul(sym[n], g)) == -1
    requires Det(g) == 1 || Det(g) == -1
    ensures SymSum(RightTimes(sym, g), s) == IMul(IMul(UnimodularInv(g), SymSum(sym, s)), g)
  {
    var ig := UnimodularInv(g);
    if sym == [] {
      assert RightTimes(sym, g) == [];
    } else {
      var n := |sym| - 1;
      var front, rt := sym[..n], RightTimes(sym, g);
      assert rt[..n] == RightTimes(front, g);
      SymSumRightTimes(front, s, g);
      ConjugateOfProduct(sym[n], g, s);
      var x, c := SymSum(front, s), Conjugate(sym[n], s);
      calc {
        IMul(IMul(ig, SymSum(sym, s)), g);
        IMul(IMul(ig, IAdd(x, c)), g);
        { IMulAddRight(ig, x, c); }
        IMul(IAdd(IMul(ig, x), IMul(ig, c)), g);
        { IMulAddLeft(IMul(ig, x), IMul(ig, c), g); }
        IAdd(IMul(IMul(ig, x), g), IMul(IMul(ig, c), g));
        SymSum(rt, s);
      }
    }
  }

  lemma IAddSwap(x: IMat3, y: IMat3, z: IMat3)
    ensures IAdd(IAdd(x, y), z) == IAdd(IAdd(x, z), y)
  {
  }

  /** Taking one summand out of the sum, wherever it sits. */
  lemma {:induction false} SymSumRemove(b: seq<IMat3>, k: nat, s: IMat3)
    requires k < |b|
    ensures SymSum(b, s) == IAdd(SymSum(b[..k] + b[k + 1..], s), Conjugate(b[k], s))
  {
    var n := |b| - 1;
    var r := b[..k] + b[k + 1..];
    if k == n {
      assert r == b[..n];
    } else {
      var front := b[..n];
      var r' := front[..k] + front[k + 1..];
      SymSumRemove(front, k, s);
      assert r[..|r| - 1] == r';
      assert r[|r| - 1] == b[n];
      assert SymSum(r, s) == IAdd(SymSum(r', s), Conjugate(b[n], s));
      IAddSwap(SymSum(r', s), Conjugate(b[k], s), Conjugate(b[n], s));
    }
  }

  /**
   * Removing b[k] from b, where b[k] is the last element of a: the rest of a
   * still lies, without repeats, in what remains of b.
   */
  lemma RemoveMatching(a: seq<IMat3>, b: seq<IMat3>, k: nat)
    requires Distinct(a) && Distinct(b) && a != [] && k < |b| && b[k] == a[|a| - 1]
    requires forall p :: 0 <= p < |a| ==> a[p] in b
    ensures Distinct(b[..k] + b[k + 1..])
    ensures forall p :: 0 <= p < |a| - 1 ==> a[p] in b[..k] + b[k + 1..]
  {
    var rest := b[..k] + b[k + 1..];
    forall p | 0 <= p < |a| - 1
      ensures a[p] in rest
    {
      var q :| 0 <= q < |b| && b[q] == a[p];
      assert q != k;
      if q < k {
        assert rest[q] == b[q];
      } else {
        assert rest[q - 1] == b[q];
      }
    }
    forall p, q | 0 <= p < q < |rest|
      ensures rest[p] != rest[q]
    {
      var p', q' := if p < k then p else p + 1, if q < k then q else q + 1;
      assert rest[p] == b[p'] && rest[q] == b[q'];
    }
  }

  /** The sum does not depend on the order of a repetition-free list. */
  lemma {:induction false} SymSumReorder(a: seq<IMat3>, b: seq<IMat3>, s: IMat3)
    requires Distinct(a) && Distinct(b) && |a| == |b|
    requires forall p :: 0 <= p < |a| ==> a[p] in b
    ensures SymSum(a, s) == SymSum(b, s)
  {
    if a != [] {
      var n := |a| - 1;
      var k :| 0 <= k < |b| && b[k] == a[n];
      RemoveMatching(a, b, k);
      var front, rest := a[..n], b[..k] + b[k + 1..];
      assert Distinct(front);
      assert forall p :: 0 <= p < |front| ==> front[p] in rest;
      SymSumReorder(front, rest, s);
      SymSumRemove(b, k, s);
    }
  }

  /** g * g^-1 * ... : cancelling g on the right. */
  lemma RightCancel(a: IMat3, b: IMat3, g: IMat3)
    requires Det(g) == 1 || Det(g) == -1
    requires IMul(a, g) == IMul(b, g)
    ensures a == b
  {
    var ig := UnimodularInv(g);
    UnimodularInverse(g);
    IMulIdentityRight(a);
    IMulIdentityRight(b);
    IMulAssoc(a, g, ig);
    IMulAssoc(b, g, ig);
  }

  /** For g in the group, m -> m * g permutes the group. */
  lemma RightTimesPermutes(sym: seq<IMat3>, g: IMat3)
    requires IsGroup(sym) && g in sym
    ensures Distinct(RightTimes(sym, g))
    ensures forall p :: 0 <= p < |sym| ==> RightTimes(sym, g)[p] in sym
  {
    var rt := RightTimes(sym, g);
    var gi :| 0 <= gi < |sym| && sym[gi] == g;
    forall p | 0 <= p < |sym|
      ensures rt[p] in sym
    {
      assert IMul(sym[p], sym[gi]) in sym;
    }
    forall p, q | 0 <= p < q < |rt|
      ensures rt[p] != rt[q]
    {
      if rt[p] == rt[q] {
        RightCancel(sym[p], sym[q], g);
        assert false;
      }
    }
  }

  /** Every product of a group element with g is unimodular. */
  lemma RightTimesUnimodular(sym: seq<IMat3>, g: IMat3)
    requires IsGroup(sym) && g in sym
    ensures forall n :: 0 <= n < |sym| ==> Det(IMul(sym[n], g)) == 1 || Det(IMul(sym[n], g)) == -1
  {
    var gi :| 0 <= gi < |sym| && sym[gi] == g;
    forall n | 0 <= n < |sym|
      ensures Det(IMul(sym[n], g)) == 1 || Det(IMul(sym[n], g)) == -1
    {
      assert IMul(sym[n], sym[gi]) in sym;
    }
  }

  /**
   * The symmetrized generator commutes with every symmetry matrix g of the
   * group, that is `g^-1 * sSym * g == sSym`: the strain is left unchanged by
   * every symmetry.
   */
  lemma SymSumInvariant(sym: seq<IMat3>, s: IMat3, g: IMat3)
    requires IsGroup(sym) && g in sym
    ensures IMul(g, SymSum(sym, s)) == IMul(SymSum(sym, s), g)
  {
    var x, ig := SymSum(sym, s), UnimodularInv(g);
    RightTimesPermutes(sym, g);
    RightTimesUnimodular(sym, g);
    SymSumReorder(RightTimes(sym, g), sym, s);
    SymSumRightTimes(sym, s, g);
    assert x == IMul(IMul(ig, x), g);
    UnimodularInverse(g);
    calc {
      IMul(g, x);
      IMul(g, IMul(IMul(ig, x), g));
      { IMulAssoc(g, IMul(ig, x), g); }
      IMul(IMul(g, IMul(ig, x)), g);
      { IMulAssoc(g, ig, x); }
      IMul(IMul(IMul(g, ig), x), g);
      { IMulIdentityLeft(x); }
      IMul(x, g);
    }
  }

  // ---------------------------------------------------------------------------
  // Modified Gram-Schmidt

  /** `strain -= sPrev * dot(sPrev, strain)` for each previous element in turn. */
  function Orthogonalized(prev: seq<Mat3>, c: Mat3): Mat3
    decreases |prev|
  {
    if prev == [] then c
    else
      var r := Orthogonalized(prev[..|prev| - 1], c);
      var last := prev[|prev| - 1];
      Sub(r, Scale(Dot(last, r), last))
  }

  method Orthogonalize(prev: seq<Mat3>, c: Mat3) returns (strain: Mat3)
    ensures strain == Orthogonalized(prev, c)
  {
    strain := c;
    var n := 0;
    while n < |prev|
      invariant 0 <= n <= |prev|
      invariant strain == Orthogonalized(prev[..n], c)
    {
      assert prev[..n + 1][..n] == prev[..n];
      strain := Sub(strain, Scale(Dot(prev[n], strain), prev[n]));
      n := n + 1;
    }
    assert prev[..|prev|] == prev;
  }

  lemma SubAddEntries(c: Mat3, p: Mat3, q: Mat3)
    ensures Sub(Sub(c, p), q) == Sub(c, Add(p, q))
  {
    var L, R := Sub(Sub(c, p), q), Sub(c, Add(p, q));
    forall k | 0 <= k < 9
      ensures L[k] == R[k]
    {
    }
  }

  /** A vector orthogonal to every basis element is orthogonal to any projection on the basis. */
  lemma {:induction false} DotProjectOrthogonal(b: seq<Mat3>, v: Mat3, d: Mat3)
    requires forall i :: 0 <= i < |b| ==> Dot(v, b[i]) == 0.0
    ensures Dot(v, Project(b, d)) == 0.0
    decreases |b|
  {
    if b == [] {
      DotZeroRight(v);
    } else {
      var b', last := b[..|b| - 1], b[|b| - 1];
      DotProjectOrthogonal(b', v, d);
      DotAddRight(v, Project(b', d), Scale(Dot(last, d), last));
      DotScaleRight(v, Dot(last, d), last);
    }
  }

  /**
   * Against an orthonormal sequence, modified Gram-Schmidt removes exactly the
   * projection: the result is c - Sum b[k] * dot(b[k], c).
   */
  lemma {:induction false} OrthogonalizedIsResidual(b: seq<Mat3>, c: Mat3)
    requires Orthonormal(b)
    ensures Orthogonalized(b, c) == Sub(c, Project(b, c))
    decreases |b|
  {
    if b == [] {
      var L := Sub(c, Zero());
      forall k | 0 <= k < 9
        ensures L[k] == c[k]
      {
      }
    } else {
      var b', last := b[..|b| - 1], b[|b| - 1];
      assert Orthonormal(b');
      OrthogonalizedIsResidual(b', c);
      var r := Orthogonalized(b', c);
      var p := Project(b', c);
      assert r == Sub(c, p);
      forall i | 0 <= i < |b'|
        ensures Dot(last, b'[i]) == 0.0
      {
        assert b'[i] == b[i];
      }
      DotProjectOrthogonal(b', last, c);
      DotSubRight(last, c, p);
      assert Dot(last, r) == Dot(last, c);
      SubAddEntries(c, p, Scale(Dot(last, c), last));
    }
  }

  /** After the subtraction loop the candidate is orthogonal to every previous element. */
  lemma OrthogonalizedOrthogonal(b: seq<Mat3>, c: Mat3, i: nat)
    requires Orthonormal(b) && i < |b|
    ensures Dot(b[i], Orthogonalized(b, c)) == 0.0
  {
    OrthogonalizedIsResidual(b, c);
    ResidualOrthogonal(b, c, i);
  }

  // ---------------------------------------------------------------------------
  // Acceptance and the whole basis

  /** The value of nrm2 at x, named so that IsNorm is used only where a proof asks for it. */
  function NormOf(nrm2: Mat3 -> real, x: Mat3): real
  {
    nrm2(x)
  }

  /** `nrm2` is the Frobenius norm: the non-negative square root of Dot(x, x). */
  ghost predicate IsNorm(nrm2: Mat3 -> real)
  {
    forall x {:trigger NormOf(nrm2, x)} :: 0.0 <= NormOf(nrm2, x) && NormOf(nrm2, x) * NormOf(nrm2, x) == Dot(x, x)
  }

  lemma UnitScale(n: real, c: real, q: real, e: real)
    requires c * n == 1.0 && q == n * n && e == c * (c * q)
    ensures e == 1.0
  {
    assert c * q == n;
  }

  /** Scaling r by the reciprocal c of a number whose square is Dot(r, r) gives a unit vector. */
  lemma UnitNormBy(r: Mat3, n: real, c: real)
    requires n * n == Dot(r, r) && c * n == 1.0
    ensures Dot(Scale(c, r), Scale(c, r)) == 1.0
  {
    DotScaleBoth(c, r);
    UnitScale(n, c, Dot(r, r), Dot(Scale(c, r), Scale(c, r)));
  }

  /** Appending a unit vector orthogonal to an orthonormal sequence keeps it orthonormal. */
  lemma AppendUnit(b: seq<Mat3>, e: Mat3)
    requires Orthonormal(b)
    requires forall i :: 0 <= i < |b| ==> Dot(b[i], e) == 0.0
    requires Dot(e, e) == 1.0
    ensures Orthonormal(b + [e])
  {
    var b2 := b + [e];
    forall i | 0 <= i < |b|
      ensures Dot(e, b[i]) == 0.0
    {
      DotSymmetric(e, b[i]);
    }
    forall i, j | 0 <= i < |b2| && 0 <= j < |b2|
      ensures Dot(b2[i], b2[j]) == if i == j then 1.0 else 0.0
    {
      if i < |b| && j < |b| {
        assert b2[i] == b[i] && b2[j] == b[j];
      }
    }
  }

  /** A multiple of a vector orthogonal to every element of b is again orthogonal to them. */
  lemma ScaleOrthogonal(b: seq<Mat3>, r: Mat3, c: real)
    requires forall i :: 0 <= i < |b| ==> Dot(b[i], r) == 0.0
    ensures forall i :: 0 <= i < |b| ==> Dot(b[i], Scale(c, r)) == 0.0
  {
    forall i | 0 <= i < |b|
      ensures Dot(b[i], Scale(c, r)) == 0.0
    {
      DotScaleRight(b[i], c, r);
    }
  }

  lemma NormSquared(nrm2: Mat3 -> real, x: Mat3)
    requires IsNorm(nrm2)
    ensures nrm2(x) >= 0.0 && nrm2(x) * nrm2(x) == Dot(x, x)
  {
    DotSelfNonNegative(x);
    assert NormOf(nrm2, x) == nrm2(x);
  }

  lemma OrthogonalizedOrthogonalAll(b: seq<Mat3>, c: Mat3)
    requires Orthonormal(b)
    ensures forall i :: 0 <= i < |b| ==> Dot(b[i], Orthogonalized(b, c)) == 0.0
  {
    forall i | 0 <= i < |b|
      ensures Dot(b[i], Orthogonalized(b, c)) == 0.0
    {
      OrthogonalizedOrthogonal(b, c, i);
    }
  }

  /** One accepted element: the orthogonalized candidate times the reciprocal inv of its norm. */
  lemma AcceptKeepsOrthonormal(b: seq<Mat3>, c: Mat3, nrm2: Mat3 -> real, inv: real)
    requires Orthonormal(b) && IsNorm(nrm2)
    requires inv * nrm2(Orthogonalized(b, c)) == 1.0
    ensures Orthonormal(b + [Scale(inv, Orthogonalized(b, c))])
  {
    var r := Orthogonalized(b, c);
    OrthogonalizedOrthogonalAll(b, c);
    ScaleOrthogonal(b, r, inv);
    NormSquared(nrm2, r);
    UnitNormBy(r, nrm2(r), inv);
    AppendUnit(b, Scale(inv, r));
  }

  /**
   * The loop body after symmetrization: orthogonalize the candidate against
   * the basis so far, then append it divided by its norm unless the norm is
   * below the threshold (the candidate is linearly dependent on the basis).
   */
  function Extend(b: seq<Mat3>, c: Mat3, threshold: real, nrm2: Mat3 -> real): seq<Mat3>
    requires threshold > 0.0
  {
    var strain := Orthogonalized(b, c);
    var n := nrm2(strain);
    if n < threshold then b else b + [Scale(1.0 / n, strain)]
  }

  /** Extending an orthonormal basis keeps it orthonormal. */
  lemma ExtendOrthonormal(b: seq<Mat3>, c: Mat3, threshold: real, nrm2: Mat3 -> real)
    requires Orthonormal(b) && threshold > 0.0 && IsNorm(nrm2)
    ensures Orthonormal(Extend(b, c, threshold, nrm2))
  {
    if nrm2(Orthogonalized(b, c)) >= threshold {
      AcceptExtends(b, c, threshold, nrm2);
    } else {
      RejectKeepsOrthonormal(b, c, threshold, nrm2);
    }
  }

  lemma AcceptExtends(b: seq<Mat3>, c: Mat3, threshold: real, nrm2: Mat3 -> real)
    requires Orthonormal(b) && threshold > 0.0 && IsNorm(nrm2)
    requires nrm2(Orthogonalized(b, c)) >= threshold
    ensures Orthonormal(Extend(b, c, threshold, nrm2))
  {
    AcceptKeepsOrthonormal(b, c, nrm2, 1.0 / nrm2(Orthogonalized(b, c)));
    ExtendAccepts(b, c, threshold, nrm2);
  }

  lemma RejectKeepsOrthonormal(b: seq<Mat3>, c: Mat3, threshold: real, nrm2: Mat3 -> real)
    requires Orthonormal(b) && threshold > 0.0 && nrm2(Orthogonalized(b, c)) < threshold
    ensures Orthonormal(Extend(b, c, threshold, nrm2))
  {
    ExtendRejects(b, c, threshold, nrm2);
  }

  lemma ExtendRejects(b: seq<Mat3>, c: Mat3, threshold: real, nrm2: Mat3 -> real)
    requires threshold > 0.0 && nrm2(Orthogonalized(b, c)) < threshold
    ensures Extend(b, c, threshold, nrm2) == b
  {
  }

  lemma ExtendAccepts(b: seq<Mat3>, c: Mat3, threshold: real, nrm2: Mat3 -> real)
    requires threshold > 0.0 && nrm2(Orthogonalized(b, c)) >= threshold
    ensures Extend(b, c, threshold, nrm2) == b + [Scale(1.0 / nrm2(Orthogonalized(b, c)), Orthogonalized(b, c))]
  {
  }

  /** The basis after the loop has considered generators 0 .. k-1. */
  function BasisUpTo(sym: seq<IMat3>, fixed: Flags3, threshold: real, nrm2: Mat3 -> real, k: nat): seq<Mat3>
    requires k <= 6 && threshold > 0.0
  {
    if k == 0 then []
    else
      var b := BasisUpTo(sym, fixed, threshold, nrm2, k - 1);
      if Skipped(k - 1, fixed) then b
      else Extend(b, ToReal(SymSum(sym, Generator(k - 1))), threshold, nrm2)
  }

  /** At most one element per generator, so at most six in all. */
  lemma {:induction false} BasisSize(sym: seq<IMat3>, fixed: Flags3, threshold: real, nrm2: Mat3 -> real, k: nat)
    requires k <= 6 && threshold > 0.0
    ensures |BasisUpTo(sym, fixed, threshold, nrm2, k)| <= k
  {
    if k > 0 {
      BasisSize(sym, fixed, threshold, nrm2, k - 1);
    }
  }

  /** Every accepted element has unit norm and is orthogonal to the earlier ones. */
  lemma {:induction false} BasisOrthonormal(sym: seq<IMat3>, fixed: Flags3, threshold: real, nrm2: Mat3 -> real, k: nat)
    requires k <= 6 && threshold > 0.0 && IsNorm(nrm2)
    ensures Orthonormal(BasisUpTo(sym, fixed, threshold, nrm2, k))
  {
    if k > 0 {
      BasisOrthonormal(sym, fixed, threshold, nrm2, k - 1);
      var b := BasisUpTo(sym, fixed, threshold, nrm2, k - 1);
      if !Skipped(k - 1, fixed) {
        ExtendOrthonormal(b, ToReal(SymSum(sym, Generator(k - 1))), threshold, nrm2);
      }
    }
  }

  /** With every axis fixed, every generator is skipped and the basis is empty. */
  lemma {:induction false} AllFixedEmpty(sym: seq<IMat3>, fixed: Flags3, threshold: real, nrm2: Mat3 -> real, k: nat)
    requires k <= 6 && threshold > 0.0
    requires fixed[0] && fixed[1] && fixed[2]
    ensures BasisUpTo(sym, fixed, threshold, nrm2, k) == []
  {
    if k > 0 {
      AllFixedEmpty(sym, fixed, threshold, nrm2, k - 1);
    }
  }

  // ---------------------------------------------------------------------------
  // The basis is commensurate with the symmetries

  /**
   * x is unchanged by the symmetry m (a matrix in lattice coordinates):
   * `m * x == x * m`, that is `m^-1 * x * m == x`.
   */
  predicate InvariantUnder(m: IMat3, x: Mat3)
  {
    Mul(ToReal(m), x) == Mul(x, ToReal(m))
  }

  /** x is unchanged by every symmetry matrix. */
  predicate Invariant(sym: seq<IMat3>, x: Mat3)
  {
    forall n :: 0 <= n < |sym| ==> InvariantUnder(sym[n], x)
  }

  /** Every element of b is unchanged by every symmetry matrix. */
  predicate AllInvariant(sym: seq<IMat3>, b: seq<Mat3>)
  {
    forall i :: 0 <= i < |b| ==> Invariant(sym, b[i])
  }

  /** Converted to real entries, the symmetrized generator is invariant. */
  lemma SymmetrizedInvariant(sym: seq<IMat3>, s: IMat3)
    requires IsGroup(sym)
    ensures Invariant(sym, ToReal(SymSum(sym, s)))
  {
    forall n | 0 <= n < |sym|
      ensures InvariantUnder(sym[n], ToReal(SymSum(sym, s)))
    {
      SymSumInvariant(sym, s, sym[n]);
      ToRealMul(sym[n], SymSum(sym, s));
      ToRealMul(SymSum(sym, s), sym[n]);
    }
  }

  /** Invariant matrices are closed under `x - c * y`. */
  lemma InvariantSubScale(m: IMat3, x: Mat3, c: real, y: Mat3)
    requires InvariantUnder(m, x) && InvariantUnder(m, y)
    ensures InvariantUnder(m, Sub(x, Scale(c, y)))
  {
    var g := ToReal(m);
    MulSubRight(g, x, Scale(c, y));
    MulSubLeft(x, Scale(c, y), g);
    MulScaleRight(g, c, y);
    MulScaleLeft(c, y, g);
  }

  /** Invariant matrices are closed under scaling. */
  lemma InvariantScale(m: IMat3, c: real, x: Mat3)
    requires InvariantUnder(m, x)
    ensures InvariantUnder(m, Scale(c, x))
  {
    MulScaleRight(ToReal(m), c, x);
    MulScaleLeft(c, x, ToReal(m));
  }

  /** The subtraction loop only forms combinations, so it keeps invariance. */
  lemma {:induction false} OrthogonalizedInvariant(sym: seq<IMat3>, b: seq<Mat3>, c: Mat3)
    requires AllInvariant(sym, b) && Invariant(sym, c)
    ensures Invariant(sym, Orthogonalized(b, c))
  {
    if b != [] {
      var front, last := b[..|b| - 1], b[|b| - 1];
      assert AllInvariant(sym, front);
      OrthogonalizedInvariant(sym, front, c);
      var r := Orthogonalized(front, c);
      forall n | 0 <= n < |sym|
        ensures InvariantUnder(sym[n], Sub(r, Scale(Dot(last, r), last)))
      {
        InvariantSubScale(sym[n], r, Dot(last, r), last);
      }
    }
  }

  /** Extending an invariant basis by an invariant candidate keeps it invariant. */
  lemma ExtendInvariant(sym: seq<IMat3>, b: seq<Mat3>, c: Mat3, threshold: real, nrm2: Mat3 -> real)
    requires threshold > 0.0 && AllInvariant(sym, b) && Invariant(sym, c)
    ensures AllInvariant(sym, Extend(b, c, threshold, nrm2))
  {
    var strain := Orthogonalized(b, c);
    OrthogonalizedInvariant(sym, b, c);
    var n := nrm2(strain);
    if n >= threshold {
      ExtendAccepts(b, c, threshold, nrm2);
      forall q | 0 <= q < |sym|
        ensures InvariantUnder(sym[q], Scale(1.0 / n, strain))
      {
        InvariantScale(sym[q], 1.0 / n, strain);
      }
    }
  }

  /**
   * When the symmetry matrices form a group, every basis element is a strain
   * left unchanged by every symmetry: the basis is commensurate with the
   * symmetries.
   */
  lemma {:induction false} BasisInvariant(sym: seq<IMat3>, fixed: Flags3, threshold: real, nrm2: Mat3 -> real, k: nat)
    requires k <= 6 && threshold > 0.0 && IsGroup(sym)
    ensures AllInvariant(sym, BasisUpTo(sym, fixed, threshold, nrm2, k))
  {
    if k > 0 {
      BasisInvariant(sym, fixed, threshold, nrm2, k - 1);
      if !Skipped(k - 1, fixed) {
        SymmetrizedInvariant(sym, Generator(k - 1));
        ExtendInvariant(sym, BasisUpTo(sym, fixed, threshold, nrm2, k - 1), ToReal(SymSum(sym, Generator(k - 1))),
                        threshold, nrm2);
      }
    }
  }

  // ---------------------------------------------------------------------------
  // The basis leaves fixed axes alone

  /** m links only axes of the same kind: m(i,j) != 0 only when axes i and j are both fixed or both free. */
  predicate KeepsApart(fixed: Flags3, m: IMat3)
  {
    forall i, j :: 0 <= i < 3 && 0 <= j < 3 && IAt(m, i, j) != 0 ==> fixed[i] == fixed[j]
  }

  /** Every symmetry matrix links only axes of the same kind. */
  predicate AllKeepApart(fixed: Flags3, sym: seq<IMat3>)
  {
    forall n :: 0 <= n < |sym| ==> KeepsApart(fixed, sym[n])
  }

  /** The integer strain s moves free axes only: its rows and columns of fixed axes are zero. */
  predicate IFreeOnly(fixed: Flags3, s: IMat3)
  {
    forall i, j :: 0 <= i < 3 && 0 <= j < 3 && (fixed[i] || fixed[j]) ==> IAt(s, i, j) == 0
  }

  /** The strain x moves free axes only: its rows and columns of fixed axes are zero. */
  predicate FreeOnly(fixed: Flags3, x: Mat3)
  {
    forall i, j :: 0 <= i < 3 && 0 <= j < 3 && (fixed[i] || fixed[j]) ==> At(x, i, j) == 0.0
  }

  /** A generator the loop does not skip moves free axes only. */
  lemma GeneratorFreeOnly(k: nat, fixed: Flags3)
    requires k < 6 && !Skipped(k, fixed)
    ensures IFreeOnly(fixed, Generator(k))
  {
    forall i, j | 0 <= i < 3 && 0 <= j < 3 && (fixed[i] || fixed[j])
      ensures IAt(Generator(k), i, j) == 0
    {
      GeneratorEntries(k, i, j);
    }
  }

  /** The inverse `det(m) * adjugate(m)` of a matrix that keeps the axes apart keeps them apart too. */
  lemma InverseKeepsApart(fixed: Flags3, m: IMat3)
    requires KeepsApart(fixed, m)
    ensures KeepsApart(fixed, UnimodularInv(m))
  {
    if fixed[0] == fixed[1] && fixed[1] == fixed[2] {
    } else if fixed[1] == fixed[2] {
      assert IAt(m, 0, 1) == 0 && IAt(m, 0, 2) == 0 && IAt(m, 1, 0) == 0 && IAt(m, 2, 0) == 0;
    } else if fixed[0] == fixed[2] {
      assert IAt(m, 0, 1) == 0 && IAt(m, 1, 0) == 0 && IAt(m, 1, 2) == 0 && IAt(m, 2, 1) == 0;
    } else {
      assert IAt(m, 0, 2) == 0 && IAt(m, 2, 0) == 0 && IAt(m, 1, 2) == 0 && IAt(m, 2, 1) == 0;
    }
  }

  /** A sum of three products, each with a zero factor, is zero. */
  lemma ZeroTerms(a0: int, b0: int, a1: int, b1: int, a2: int, b2: int)
    requires (a0 == 0 || b0 == 0) && (a1 == 0 || b1 == 0) && (a2 == 0 || b2 == 0)
    ensures a0 * b0 + a1 * b1 + a2 * b2 == 0
  {
  }

  /** Multiplying a free-only strain on the left by a matrix that keeps the axes apart keeps it free-only. */
  lemma MulLeftFreeOnly(fixed: Flags3, a: IMat3, s: IMat3)
    requires KeepsApart(fixed, a) && IFreeOnly(fixed, s)
    ensures IFreeOnly(fixed, IMul(a, s))
  {
    forall i, j | 0 <= i < 3 && 0 <= j < 3 && (fixed[i] || fixed[j])
      ensures IAt(IMul(a, s), i, j) == 0
    {
      IMulEntry(a, s, i, j);
      assert forall k :: 0 <= k < 3 ==> IAt(a, i, k) == 0 || IAt(s, k, j) == 0;
      ZeroTerms(IAt(a, i, 0), IAt(s, 0, j), IAt(a, i, 1), IAt(s, 1, j), IAt(a, i, 2), IAt(s, 2, j));
    }
  }

  /** The same on the right. */
  lemma MulRightFreeOnly(fixed: Flags3, s: IMat3, a: IMat3)
    requires KeepsApart(fixed, a) && IFreeOnly(fixed, s)
    ensures IFreeOnly(fixed, IMul(s, a))
  {
    forall i, j | 0 <= i < 3 && 0 <= j < 3 && (fixed[i] || fixed[j])
      ensures IAt(IMul(s, a), i, j) == 0
    {
      IMulEntry(s, a, i, j);
      assert forall k :: 0 <= k < 3 ==> IAt(s, i, k) == 0 || IAt(a, k, j) == 0;
      ZeroTerms(IAt(s, i, 0), IAt(a, 0, j), IAt(s, i, 1), IAt(a, 1, j), IAt(s, i, 2), IAt(a, 2, j));
    }
  }

  /** Free-only strains are closed under addition. */
  lemma AddFreeOnly(fixed: Flags3, x: IMat3, y: IMat3)
    requires IFreeOnly(fixed, x) && IFreeOnly(fixed, y)
    ensures IFreeOnly(fixed, IAdd(x, y))
  {
    forall i, j | 0 <= i < 3 && 0 <= j < 3 && (fixed[i] || fixed[j])
      ensures IAt(IAdd(x, y), i, j) == 0
    {
      assert IAt(x, i, j) == 0 && IAt(y, i, j) == 0;
    }
  }

  /** Each summand `mInv * s * m` of a free-only generator is free-only. */
  lemma ConjugateFreeOnly(fixed: Flags3, m: IMat3, s: IMat3)
    requires KeepsApart(fixed, m) && IFreeOnly(fixed, s)
    ensures IFreeOnly(fixed, Conjugate(m, s))
  {
    InverseKeepsApart(fixed, m);
    MulLeftFreeOnly(fixed, UnimodularInv(m), s);
    MulRightFreeOnly(fixed, IMul(UnimodularInv(m), s), m);
  }

  /** So is their sum. */
  lemma {:induction false} SymSumFreeOnly(fixed: Flags3, sym: seq<IMat3>, s: IMat3)
    requires AllKeepApart(fixed, sym) && IFreeOnly(fixed, s)
    ensures IFreeOnly(fixed, SymSum(sym, s))
  {
    if sym != [] {
      var n := |sym| - 1;
      assert AllKeepApart(fixed, sym[..n]);
      SymSumFreeOnly(fixed, sym[..n], s);
      ConjugateFreeOnly(fixed, sym[n], s);
      AddFreeOnly(fixed, SymSum(sym[..n], s), Conjugate(sym[n], s));
    }
  }

  /** Conversion to real entries keeps the zero rows and columns. */
  lemma ToRealFreeOnly(fixed: Flags3, s: IMat3)
    requires IFreeOnly(fixed, s)
    ensures FreeOnly(fixed, ToReal(s))
  {
    forall i, j | 0 <= i < 3 && 0 <= j < 3 && (fixed[i] || fixed[j])
      ensures At(ToReal(s), i, j) == 0.0
    {
      assert IAt(s, i, j) == 0;
      if i == 0 {} else if i == 1 {} else {}
    }
  }

  /** Free-only strains are closed under `x - c * y`. */
  lemma FreeOnlySubScale(fixed: Flags3, x: Mat3, c: real, y: Mat3)
    requires FreeOnly(fixed, x) && FreeOnly(fixed, y)
    ensures FreeOnly(fixed, Sub(x, Scale(c, y)))
  {
    forall i, j | 0 <= i < 3 && 0 <= j < 3 && (fixed[i] || fixed[j])
      ensures At(Sub(x, Scale(c, y)), i, j) == 0.0
    {
      assert At(x, i, j) == 0.0 && At(y, i, j) == 0.0;
    }
  }

  /** Free-only strains are closed under scaling. */
  lemma FreeOnlyScale(fixed: Flags3, c: real, x: Mat3)
    requires FreeOnly(fixed, x)
    ensures FreeOnly(fixed, Scale(c, x))
  {
    forall i, j | 0 <= i < 3 && 0 <= j < 3 && (fixed[i] || fixed[j])
      ensures At(Scale(c, x), i, j) == 0.0
    {
      assert At(x, i, j) == 0.0;
    }
  }

  /** The subtraction loop keeps a free-only candidate free-only against a free-only basis. */
  lemma {:induction false} OrthogonalizedFreeOnly(fixed: Flags3, b: seq<Mat3>, c: Mat3)
    requires (forall i :: 0 <= i < |b| ==> FreeOnly(fixed, b[i])) && FreeOnly(fixed, c)
    ensures FreeOnly(fixed, Orthogonalized(b, c))
  {
    if b != [] {
      var front, last := b[..|b| - 1], b[|b| - 1];
      OrthogonalizedFreeOnly(fixed, front, c);
      var r := Orthogonalized(front, c);
      FreeOnlySubScale(fixed, r, Dot(last, r), last);
    }
  }

  /** One loop iteration keeps every basis element free-only. */
  lemma ExtendFreeOnly(fixed: Flags3, b: seq<Mat3>, c: Mat3, threshold: real, nrm2: Mat3 -> real)
    requires threshold > 0.0 && (forall i :: 0 <= i < |b| ==> FreeOnly(fixed, b[i])) && FreeOnly(fixed, c)
    ensures forall i :: 0 <= i < |Extend(b, c, threshold, nrm2)| ==> FreeOnly(fixed, Extend(b, c, threshold, nrm2)[i])
  {
    var strain := Orthogonalized(b, c);
    OrthogonalizedFreeOnly(fixed, b, c);
    var n := nrm2(strain);
    if n >= threshold {
      ExtendAccepts(b, c, threshold, nrm2);
      FreeOnlyScale(fixed, 1.0 / n, strain);
    }
  }

  /**
   * When every symmetry matrix links only axes of the same kind (fixed with
   * fixed, free with free), no basis element strains a fixed axis: the skip
   * test of the generator loop carries over to the whole basis.
   */
  lemma {:induction false} BasisFreeOnly(sym: seq<IMat3>, fixed: Flags3, threshold: real, nrm2: Mat3 -> real, k: nat)
    requires k <= 6 && threshold > 0.0 && AllKeepApart(fixed, sym)
    ensures forall i :: 0 <= i < |BasisUpTo(sym, fixed, threshold, nrm2, k)| ==>
      FreeOnly(fixed, BasisUpTo(sym, fixed, threshold, nrm2, k)[i])
  {
    if k > 0 {
      BasisFreeOnly(sym, fixed, threshold, nrm2, k - 1);
      if !Skipped(k - 1, fixed) {
        GeneratorFreeOnly(k - 1, fixed);
        SymSumFreeOnly(fixed, sym, Generator(k - 1));
        ToRealFreeOnly(fixed, SymSum(sym, Generator(k - 1)));
        ExtendFreeOnly(fixed, BasisUpTo(sym, fixed, threshold, nrm2, k - 1), ToReal(SymSum(sym, Generator(k - 1))),
                       threshold, nrm2);
      }
    }
  }

  /**
   * Without Coulomb truncation, commensurate move scales already keep the
   * axes apart: an axis with move scale zero is linked only to such axes.
   */
  lemma CommensurateKeepsApart(sym: seq<IMat3>, scale: Vec3, truncated: Flags3)
    requires Commensurate(sym, scale) && !truncated[0] && !truncated[1] && !truncated[2]
    ensures AllKeepApart(FixedFlags(scale, truncated), sym)
  {
    var fixed := FixedFlags(scale, truncated);
    forall n, i, j | 0 <= n < |sym| && 0 <= i < 3 && 0 <= j < 3 && IAt(sym[n], i, j) != 0
      ensures fixed[i] == fixed[j]
    {
      assert AgreesWith(sym[n], scale);
    }
  }

  /**
   * The basis-building part of the constructor: the symmetry check, the fixed
   * axes, then for each generator the skip test, symmetrization, the
   * subtraction loop and the norm test.
   */
  method BuildStrainBasis(sym: seq<IMat3>, scale: Vec3, truncated: Flags3, threshold: real, nrm2: Mat3 -> real)
    returns (r: Result<seq<Mat3>, ConfigError>)
    requires threshold > 0.0
    ensures r.Failure? && r.error.NotCommensurate? <==> !Commensurate(sym, scale)
    ensures r.Failure? && r.error.NotCommensurate? ==>
      exists n :: FirstConflict(sym, scale, Conflict(n, r.error.i, r.error.j))
    ensures Commensurate(sym, scale) ==>
      var fixed := FixedFlags(scale, truncated);
      var b := BasisUpTo(sym, fixed, threshold, nrm2, 6);
      if b == [] then r == Failure(AllConstrained) else r == Success(b)
    ensures r.Success? && IsGroup(sym) ==> AllInvariant(sym, r.value)
    ensures r.Success? && AllKeepApart(FixedFlags(scale, truncated), sym) ==>
      forall i :: 0 <= i < |r.value| ==> FreeOnly(FixedFlags(scale, truncated), r.value[i])
  {
    var conflict := CheckCommensurate(sym, scale);
    if conflict.Some? {
      return Failure(NotCommensurate(conflict.value.i, conflict.value.j));
    }
    var fixed := FixedAxes(scale, truncated);
    ghost var spec := FixedFlags(scale, truncated);
    assert fixed == spec;
    var basis: seq<Mat3> := [];
    var k := 0;
    while k < 6
      invariant 0 <= k <= 6
      invariant basis == BasisUpTo(sym, fixed, threshold, nrm2, k)
    {
      if !Skipped(k, fixed) {
        var sSym := Symmetrize(sym, Generator(k));
        var strain := Orthogonalize(basis, ToReal(sSym));
        var strainNorm := nrm2(strain);
        if strainNorm >= threshold {
          basis := basis + [Scale(1.0 / strainNorm, strain)];
        }
        assert basis == Extend(BasisUpTo(sym, fixed, threshold, nrm2, k), ToReal(sSym), threshold, nrm2);
      }
      k := k + 1;
    }
    if basis == [] {
      return Failure(AllConstrained);
    }
    if IsGroup(sym) {
      BasisInvariant(sym, fixed, threshold, nrm2, 6);
    }
    if AllKeepApart(fixed, sym) {
      BasisFreeOnly(sym, fixed, threshold, nrm2, 6);
    }
    return Success(basis);
  }
}
