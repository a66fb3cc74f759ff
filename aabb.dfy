/** The two AABB recomputations of the kernel, `calc_aabb1` (direct bound
    expansion) and `calc_aabb2` (support-point projection), over a raw
    `float m[3][3]` read exactly as each function indexes it. */
module BoundingBox {
  import opened Vector3
  import opened Matrix3

  /** `struct AABB`: the box `center[k] - half_exts[k] .. center[k] + half_exts[k]`
      on each axis `k`. */
  datatype Aabb = Aabb(center: Vec3, halfExts: Vec3)

  /** The point `p` lies in the closed box `a`. */
  predicate Contains(a: Aabb, p: Vec3)
  {
    forall k :: 0 <= k < 3 ==> Abs(p[k] - a.center[k]) <= a.halfExts[k]
  }

  /** The affine map `p -> t + m p` with the array read as `m[i][j]`,
      `i` the output axis: the point transform of `calc_aabb1`. */
  function Transform(m: Mat, t: Vec3, p: Vec3): Vec3
  {
    seq(3, i requires 0 <= i < 3 => t[i] + Dot(m[i], p))
  }

  /** What `calc_aabb1` computes: centre `t[i] + sum_j m[i][j] * center[j]`,
      half-extent `sum_j |m[i][j]| * half_exts[j]`. */
  function DirectBound(a: Aabb, m: Mat, t: Vec3): Aabb
  {
    Aabb(Transform(m, t, a.center), seq(3, i requires 0 <= i < 3 => Dot(AbsVec(m[i]), a.halfExts)))
  }

  /** The entries `m[i][0], m[i][1], m[i][2]` of a `float[3][3]` argument,
      first index fixed, as `calc_aabb1` reads them; this is `Grid(m)[i]`
      (not `Row`, which fixes the second index). */
  ghost function ArrayRow(m: array2<real>, i: nat): Vec3
    requires m.Length0 == 3 && m.Length1 == 3 && i < 3
    reads m
  {
    [m[i, 0], m[i, 1], m[i, 2]]
  }

  /** The inner `j` loop of `calc_aabb1` for row `i`: starting from
      `center` and `halfExt`, adds in the three products of row `i` of `m`
      with the box's centre `c`, and of their absolute values with the
      box's half-extents `h`. */
  method AccumulateRow(m: array2<real>, i: nat, c: Vec3, h: Vec3, center: real, halfExt: real)
    returns (center': real, halfExt': real)
    requires m.Length0 == 3 && m.Length1 == 3 && i < 3
    ensures center' == center + Dot(ArrayRow(m, i), c)
    ensures halfExt' == halfExt + Dot(AbsVec(ArrayRow(m, i)), h)
  {
    ghost var row := ArrayRow(m, i);
    ghost var absRow := AbsVec(row);
    center', halfExt' := center, halfExt;
    for j := 0 to 3
      invariant center' == center + PrefixDot(row, c, j)
      invariant halfExt' == halfExt + PrefixDot(absRow, h, j)
    {
      var x := m[i, j];
      var ax := Abs(x);
      assert row[j] == x && absRow[j] == ax;
      AccumulateStep(row, c, j, center, center', x, c[j]);
      AccumulateStep(absRow, h, j, halfExt, halfExt', ax, h[j]);
      center' := center' + x * c[j];
      halfExt' := halfExt' + ax * h[j];
    }
  }

  /** `calc_aabb1`: starts from a zeroed AABB (a local value, kept here as
      the two sequences `center` and `halfExts`) and, per output axis `i`,
      sets the centre to `t[i]` and accumulates `m[i][j] * center[j]` and
      `fabsf(m[i][j]) * half_exts[j]` over `j`. */
  method CalcAabb1(a: Aabb, m: array2<real>, t: array<real>) returns (newAabb: Aabb)
    requires m.Length0 == 3 && m.Length1 == 3 && t.Length == 3
    ensures newAabb == DirectBound(a, Grid(m), t[..])
  {
    ghost var target := DirectBound(a, Grid(m), t[..]);
    GridAt(m);
    var center: Vec3, halfExts: Vec3 := [0.0, 0.0, 0.0], [0.0, 0.0, 0.0];
    for i := 0 to 3
      invariant forall k :: 0 <= k < i ==> center[k] == target.center[k] && halfExts[k] == target.halfExts[k]
      invariant forall k :: i <= k < 3 ==> halfExts[k] == 0.0
    {
      var c, h := AccumulateRow(m, i, a.center, a.halfExts, t[i], halfExts[i]);
      assert ArrayRow(m, i) == Grid(m)[i];
      center, halfExts := center[i := c], halfExts[i := h];
    }
    newAabb := Aabb(center, halfExts);
  }

  /** What `calc_aabb2` computes as shipped. The three "world axes" are
      `Row(m, k) == [m[0][k], m[1][k], m[2][k]]`; the sign test that would
      pick the support point is disabled, so every axis uses the corner
      `-half_exts`; the centre is `t`, whatever the old centre. */
  function CalcAabb2(a: Aabb, m: Mat, t: Vec3): (b: Aabb)
    ensures b.center == t
    ensures forall k :: 0 <= k < 3 ==>
      b.halfExts[k] == -(m[0][k] * a.halfExts[0] + m[1][k] * a.halfExts[1] + m[2][k] * a.halfExts[2])
  {
    var axisX, axisY, axisZ := Row(m, 0), Row(m, 1), Row(m, 2);
    var furthest := Neg(a.halfExts);
    Aabb(t, [Dot(axisX, furthest), Dot(axisY, furthest), Dot(axisZ, furthest)])
  }

  /** The support point of the box (centred at the origin) in direction `w`,
      by the sign test that `calc_aabb2` has commented out:
      `w[k] > 0 ? half_exts[k] : -half_exts[k]`. */
  function Furthest(w: Vec3, h: Vec3): (f: Vec3)
    ensures forall k :: 0 <= k < 3 ==> f[k] == h[k] || f[k] == -h[k]
  {
    [if w[0] > 0.0 then h[0] else -h[0],
     if w[1] > 0.0 then h[1] else -h[1],
     if w[2] > 0.0 then h[2] else -h[2]]
  }

  /** `calc_aabb2` with its sign test restored. This is not the shipped
      code: it is the evidently intended support-point projection. */
  function CalcAabb2Branchy(a: Aabb, m: Mat, t: Vec3): (b: Aabb)
    ensures b.center == t
    ensures forall k :: 0 <= k < 3 ==> b.halfExts[k] == Dot(AbsVec(Row(m, k)), a.halfExts)
  {
    var axisX, axisY, axisZ := Row(m, 0), Row(m, 1), Row(m, 2);
    SupportDot(axisX, a.halfExts);
    SupportDot(axisY, a.halfExts);
    SupportDot(axisZ, a.halfExts);
    Aabb(t, [Dot(axisX, Furthest(axisX, a.halfExts)),
             Dot(axisY, Furthest(axisY, a.halfExts)),
             Dot(axisZ, Furthest(axisZ, a.halfExts))])
  }

  /** With `f == (w > 0 ? h : -h)`, `w * f == |w| * h`, whatever the sign of `h`. */
  lemma SignedTerm(w: real, h: real, f: real)
    requires f == if w > 0.0 then h else -h
    ensures w * f == Abs(w) * h
  {
    if w <= 0.0 {
      assert w * -h == (-w) * h;
    }
  }

  /** The support point turns the dot product into the absolute-value
      expansion: `dot(w, Furthest(w, h)) == sum_k |w[k]| * h[k]`. */
  lemma SupportDot(w: Vec3, h: Vec3)
    ensures Dot(w, Furthest(w, h)) == Dot(AbsVec(w), h)
    ensures Dot(w, Furthest(w, h)) == Abs(w[0]) * h[0] + Abs(w[1]) * h[1] + Abs(w[2]) * h[2]
  {
    var f := Furthest(w, h);
    SignedTerm(w[0], h[0], f[0]);
    SignedTerm(w[1], h[1], f[1]);
    SignedTerm(w[2], h[2], f[2]);
    DotAbsVec(w, h);
  }

  // ---------------------------------------------------------------------
  // calc_aabb1

  /** Every point of the box is carried by `p -> t + m p` into the new box. */
  lemma DirectBoundEncloses(a: Aabb, m: Mat, t: Vec3, p: Vec3)
    requires Contains(a, p)
    ensures Contains(DirectBound(a, m, t), Transform(m, t, p))
  {
    var b, q, d := DirectBound(a, m, t), Transform(m, t, p), Add(p, Neg(a.center));
    forall k | 0 <= k < 3
      ensures -a.halfExts[k] <= d[k] <= a.halfExts[k]
    {
      assert d[k] == p[k] - a.center[k];
    }
    forall i | 0 <= i < 3
      ensures Abs(q[i] - b.center[i]) <= b.halfExts[i]
    {
      DotSub(m[i], p, a.center);
      DotBound(m[i], d, a.halfExts);
      assert q[i] - b.center[i] == Dot(m[i], d);
    }
  }

  /** The bound is tight on each axis: with non-negative half-extents, some
      corner of the box reaches the top of the new box on axis `i`, and the
      opposite corner its bottom. */
  lemma DirectBoundTight(a: Aabb, m: Mat, t: Vec3, i: nat)
    requires i < 3
    requires forall k :: 0 <= k < 3 ==> a.halfExts[k] >= 0.0
    ensures exists p :: (Contains(a, p) &&
      Transform(m, t, p)[i] == DirectBound(a, m, t).center[i] + DirectBound(a, m, t).halfExts[i])
    ensures exists p :: (Contains(a, p) &&
      Transform(m, t, p)[i] == DirectBound(a, m, t).center[i] - DirectBound(a, m, t).halfExts[i])
  {
    var b, f := DirectBound(a, m, t), Furthest(m[i], a.halfExts);
    var hi, lo := Add(a.center, f), Add(a.center, Neg(f));
    SupportDot(m[i], a.halfExts);
    DotAdd(m[i], a.center, f);
    DotAdd(m[i], a.center, Neg(f));
    DotNeg(m[i], f);
    forall k | 0 <= k < 3
      ensures Abs(hi[k] - a.center[k]) <= a.halfExts[k] && Abs(lo[k] - a.center[k]) <= a.halfExts[k]
    {
      assert hi[k] - a.center[k] == f[k] && lo[k] - a.center[k] == -f[k];
    }
    assert Contains(a, hi) && Transform(m, t, hi)[i] == b.center[i] + b.halfExts[i];
    assert Contains(a, lo) && Transform(m, t, lo)[i] == b.center[i] - b.halfExts[i];
  }

  /** Non-negative half-extents stay non-negative. */
  lemma DirectBoundNonNegative(a: Aabb, m: Mat, t: Vec3)
    requires forall k :: 0 <= k < 3 ==> a.halfExts[k] >= 0.0
    ensures forall i :: 0 <= i < 3 ==> DirectBound(a, m, t).halfExts[i] >= 0.0
  {
    forall i | 0 <= i < 3
      ensures DirectBound(a, m, t).halfExts[i] >= 0.0
    {
      DotNonNegative(AbsVec(m[i]), a.halfExts);
    }
  }

  /** With the identity array the box is only moved by `t`. */
  lemma DirectBoundTranslation(a: Aabb, t: Vec3)
    ensures DirectBound(a, Identity(), t) == Aabb(Add(t, a.center), a.halfExts)
  {
    var b, id := DirectBound(a, Identity(), t), Identity();
    assert AbsVec(id[0]) == id[0] && AbsVec(id[1]) == id[1] && AbsVec(id[2]) == id[2];
    forall i | 0 <= i < 3
      ensures b.center[i] == Add(t, a.center)[i] && b.halfExts[i] == a.halfExts[i]
    {
      assert id[i][i] == 1.0 && id[i][(i + 1) % 3] == 0.0 && id[i][(i + 2) % 3] == 0.0;
    }
  }

  /** The identity array with zero translation returns the box unchanged. */
  lemma DirectBoundIdentity(a: Aabb)
    ensures DirectBound(a, Identity(), [0.0, 0.0, 0.0]) == a
  {
    DirectBoundTranslation(a, [0.0, 0.0, 0.0]);
    assert Add([0.0, 0.0, 0.0], a.center) == a.center;
  }

  /** The benchmark's box and translation under the identity array. */
  lemma DirectBoundScenario()
    ensures DirectBound(Aabb([1.0, 2.0, 3.0], [3.0, 4.0, 5.0]), Identity(), [11.0, 21.0, 31.0])
         == Aabb([12.0, 23.0, 34.0], [3.0, 4.0, 5.0])
  {
    DirectBoundTranslation(Aabb([1.0, 2.0, 3.0], [3.0, 4.0, 5.0]), [11.0, 21.0, 31.0]);
  }

  /** Passing a `Mat3`'s stored array (built from the row-major list `e`)
      to `calc_aabb1` applies the transpose of the matrix that `e` spells:
      the centre uses column `i` of `e`, not row `i`. */
  lemma DirectBoundOfStoredMatrix(a: Aabb, e: seq<real>, t: Vec3, i: nat)
    requires |e| == 9 && i < 3
    ensures DirectBound(a, FromRowMajor(e), t).center[i]
         == t[i] + e[0 * 3 + i] * a.center[0] + e[1 * 3 + i] * a.center[1] + e[2 * 3 + i] * a.center[2]
    ensures DirectBound(a, FromRowMajor(e), t).halfExts[i]
         == Abs(e[0 * 3 + i]) * a.halfExts[0] + Abs(e[1 * 3 + i]) * a.halfExts[1] + Abs(e[2 * 3 + i]) * a.halfExts[2]
  {
    var g := FromRowMajor(e);
    assert g[i] == [e[0 * 3 + i], e[1 * 3 + i], e[2 * 3 + i]];
    DotAbsVec(g[i], a.halfExts);
  }

  // ---------------------------------------------------------------------
  // calc_aabb2 as shipped

  /** The centre is `t`, and the old centre has no influence at all. */
  lemma SupportIgnoresCenter(a: Aabb, a': Aabb, m: Mat, t: Vec3)
    requires a.halfExts == a'.halfExts
    ensures CalcAabb2(a, m, t) == CalcAabb2(a', m, t)
  {
  }

  /** For the identity array the half-extents come out negated. */
  lemma SupportIdentity(a: Aabb, t: Vec3)
    ensures CalcAabb2(a, Identity(), t) == Aabb(t, Neg(a.halfExts))
  {
    var b, id := CalcAabb2(a, Identity(), t), Identity();
    forall k | 0 <= k < 3
      ensures b.halfExts[k] == Neg(a.halfExts)[k]
    {
      assert id[k][k] == 1.0 && id[(k + 1) % 3][k] == 0.0 && id[(k + 2) % 3][k] == 0.0;
    }
  }

  /** The benchmark's box under the identity array: the centre is `t`
      rather than `(12, 23, 34)`, and every half-extent is negative,
      which no box has. */
  lemma SupportNegativeExtents()
    ensures CalcAabb2(Aabb([1.0, 2.0, 3.0], [3.0, 4.0, 5.0]), Identity(), [11.0, 21.0, 31.0])
         == Aabb([11.0, 21.0, 31.0], [-3.0, -4.0, -5.0])
  {
    SupportIdentity(Aabb([1.0, 2.0, 3.0], [3.0, 4.0, 5.0]), [11.0, 21.0, 31.0]);
  }

  /** The shipped and the corrected projections agree on axis `k` when no
      entry of that axis is positive: only then is `-half_exts` the
      support point. */
  lemma SupportAgreesWhenNonPositive(a: Aabb, m: Mat, t: Vec3, k: nat)
    requires k < 3
    requires forall j :: 0 <= j < 3 ==> m[j][k] <= 0.0
    ensures CalcAabb2(a, m, t).halfExts[k] == CalcAabb2Branchy(a, m, t).halfExts[k]
  {
    assert Furthest(Row(m, k), a.halfExts) == Neg(a.halfExts);
  }

  // ---------------------------------------------------------------------
  // calc_aabb2 with the sign test restored

  /** The corrected projection gives the half-extents that `calc_aabb1`
      gives for the transposed array (both centred on `t` when the old
      centre is the origin). */
  lemma BranchyIsDirectOfTranspose(a: Aabb, m: Mat, t: Vec3)
    ensures CalcAabb2Branchy(a, m, t).halfExts == DirectBound(a, Transpose(m), t).halfExts
  {
    var b, d, mt := CalcAabb2Branchy(a, m, t), DirectBound(a, Transpose(m), t), Transpose(m);
    forall k | 0 <= k < 3
      ensures b.halfExts[k] == d.halfExts[k]
    {
      assert mt[k] == Row(m, k);
    }
  }

  /** With the sign test restored, non-negative half-extents stay
      non-negative, for every array. */
  lemma BranchyNonNegative(a: Aabb, m: Mat, t: Vec3)
    requires forall k :: 0 <= k < 3 ==> a.halfExts[k] >= 0.0
    ensures forall k :: 0 <= k < 3 ==> CalcAabb2Branchy(a, m, t).halfExts[k] >= 0.0
  {
    BranchyIsDirectOfTranspose(a, m, t);
    DirectBoundNonNegative(a, Transpose(m), t);
  }

  /** The corrected projection on the benchmark's box under the identity
      array keeps the half-extents `(3, 4, 5)`. */
  lemma BranchyScenario()
    ensures CalcAabb2Branchy(Aabb([1.0, 2.0, 3.0], [3.0, 4.0, 5.0]), Identity(), [11.0, 21.0, 31.0])
         == Aabb([11.0, 21.0, 31.0], [3.0, 4.0, 5.0])
  {
  }
}
