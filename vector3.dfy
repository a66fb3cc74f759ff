/** Three-component vectors of the AABB kernel: the dot product `vec3_dot`
    and the element-wise absolute value that `calc_aabb1` applies through
    `fabsf`. Scalars are modelled as mathematical reals. */
module Vector3 {

  /** A `float[3]`: components indexed 0..2. */
  type Vec3 = v: seq<real> | |v| == 3 witness [0.0, 0.0, 0.0]


  /** Reference definition of a dot product: the sum of the first `n`
      element-wise products, accumulated from index 0 upwards as the loops
      of the kernel accumulate it. */
  function PrefixDot(a: Vec3, b: Vec3, n: nat): real
    requires n <= 3
  {
    if n == 0 then 0.0 else PrefixDot(a, b, n - 1) + a[n - 1] * b[n - 1]
  }

  /** `vec3_dot`: the sum of the element-wise products, written out in one
      expression; it agrees with the sum accumulated term by term. */
  function Dot(a: Vec3, b: Vec3): (r: real)
    ensures r == PrefixDot(a, b, 3)
  {
    assert PrefixDot(a, b, 1) == a[0] * b[0];
    assert PrefixDot(a, b, 2) == a[0] * b[0] + a[1] * b[1];
    a[0] * b[0] + a[1] * b[1] + a[2] * b[2]
  }

  /** One accumulation step with an offset: an accumulator that holds
      `off` plus the first `n` products, increased by the next product,
      holds `off` plus the first `n + 1` products. */
  lemma AccumulateStep(a: Vec3, b: Vec3, n: nat, off: real, acc: real, x: real, y: real)
    requires n < 3 && x == a[n] && y == b[n] && acc == off + PrefixDot(a, b, n)
    ensures acc + x * y == off + PrefixDot(a, b, n + 1)
  {
  }

  /** `fabsf` on reals. */
  function Abs(x: real): (r: real)
    ensures r >= 0.0
  {
    if x < 0.0 then -x else x
  }

  /** Element-wise absolute value. */
  function AbsVec(v: Vec3): Vec3
  {
    [Abs(v[0]), Abs(v[1]), Abs(v[2])]
  }

  /** Element-wise sum, used for a translation. */
  function Add(a: Vec3, b: Vec3): Vec3
  {
    [a[0] + b[0], a[1] + b[1], a[2] + b[2]]
  }

  /** Element-wise negation. */
  function Neg(v: Vec3): Vec3
  {
    [-v[0], -v[1], -v[2]]
  }

  /** The dot product does not depend on the order of its arguments. */
  lemma DotSymmetric(a: Vec3, b: Vec3)
    ensures Dot(a, b) == Dot(b, a)
  {
  }

  /** Negating one argument negates the dot product. */
  lemma DotNeg(a: Vec3, b: Vec3)
    ensures Dot(a, Neg(b)) == -Dot(a, b)
  {
  }

  /** A product of non-negative reals is non-negative. */
  lemma MulNonNegative(x: real, y: real)
    requires x >= 0.0 && y >= 0.0
    ensures x * y >= 0.0
  {
  }

  /** A scaled bounded offset: if `-h <= d <= h` then `w * d` lies within
      `|w| * h` of zero. */
  lemma ScaledOffsetBound(w: real, d: real, h: real)
    requires -h <= d <= h
    ensures -(Abs(w) * h) <= w * d <= Abs(w) * h
  {
    var a := Abs(w);
    MulNonNegative(a, h - d);
    MulNonNegative(a, h + d);
    assert a * (h - d) == a * h - a * d;
    assert a * (h + d) == a * h + a * d;
    if w >= 0.0 {
      assert a * d == w * d;
    } else {
      assert a * d == -(w * d);
    }
  }

  /** Interval-arithmetic bound: when every `d[k]` lies in `[-h[k], h[k]]`,
      the dot product of `w` with `d` lies within the dot product of `|w|`
      with `h`. */
  lemma DotBound(w: Vec3, d: Vec3, h: Vec3)
    requires forall k :: 0 <= k < 3 ==> -h[k] <= d[k] <= h[k]
    ensures -Dot(AbsVec(w), h) <= Dot(w, d) <= Dot(AbsVec(w), h)
  {
    DotAbsVec(w, h);
    TermsBound(w[0], w[1], w[2], d[0], d[1], d[2], h[0], h[1], h[2]);
  }

  /** `DotBound` spelled out on the nine scalars. */
  lemma TermsBound(w0: real, w1: real, w2: real, d0: real, d1: real, d2: real,
                   h0: real, h1: real, h2: real)
    requires -h0 <= d0 <= h0 && -h1 <= d1 <= h1 && -h2 <= d2 <= h2
    ensures -(Abs(w0) * h0 + Abs(w1) * h1 + Abs(w2) * h2) <= w0 * d0 + w1 * d1 + w2 * d2
    ensures w0 * d0 + w1 * d1 + w2 * d2 <= Abs(w0) * h0 + Abs(w1) * h1 + Abs(w2) * h2
  {
    ScaledOffsetBound(w0, d0, h0);
    ScaledOffsetBound(w1, d1, h1);
    ScaledOffsetBound(w2, d2, h2);
    SumBound(w0 * d0, w1 * d1, w2 * d2, Abs(w0) * h0, Abs(w1) * h1, Abs(w2) * h2);
  }

  /** The absolute-value weights enter the dot product term by term. */
  lemma DotAbsVec(w: Vec3, h: Vec3)
    ensures Dot(AbsVec(w), h) == Abs(w[0]) * h[0] + Abs(w[1]) * h[1] + Abs(w[2]) * h[2]
  {
  }

  /** Termwise bounds add up. */
  lemma SumBound(x0: real, x1: real, x2: real, y0: real, y1: real, y2: real)
    requires -y0 <= x0 <= y0 && -y1 <= x1 <= y1 && -y2 <= x2 <= y2
    ensures -(y0 + y1 + y2) <= x0 + x1 + x2 <= y0 + y1 + y2
  {
  }

  /** The dot product is linear in its second argument: `w.p - w.c == w.(p - c)`. */
  lemma DotSub(w: Vec3, p: Vec3, c: Vec3)
    ensures Dot(w, p) - Dot(w, c) == Dot(w, Add(p, Neg(c)))
  {
  }

  /** The dot product is additive in its second argument. */
  lemma DotAdd(w: Vec3, p: Vec3, q: Vec3)
    ensures Dot(w, Add(p, q)) == Dot(w, p) + Dot(w, q)
  {
  }

  /** Non-negative weights and values give a non-negative dot product. */
  lemma DotNonNegative(a: Vec3, b: Vec3)
    requires forall k :: 0 <= k < 3 ==> a[k] >= 0.0 && b[k] >= 0.0
    ensures Dot(a, b) >= 0.0
  {
    assert a[0] * b[0] >= 0.0;
    assert a[1] * b[1] >= 0.0;
    assert a[2] * b[2] >= 0.0;
  }
}
