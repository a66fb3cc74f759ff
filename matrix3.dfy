/** The 3x3 matrix `Mat3` of the AABB kernel: its two constructors and
    `operator*`.

    A `Mat3` keeps its nine entries in `m[column][row]` ("column-major"),
    while its second constructor takes the nine entries row by row. The
    value-level matrix `Mat` below is indexed exactly as the storage is,
    `g[c][r]`, so the layout is visible in every contract. */
module Matrix3 {
  import opened Vector3

  /** Nine entries indexed `g[i][j]` exactly as a `float[3][3]` is. */
  type Mat = g: seq<Vec3> | |g| == 3
    witness var o: Vec3 := [0.0, 0.0, 0.0]; [o, o, o]

  /** The entries `g[0][r], g[1][r], g[2][r]`: row `r` of a matrix stored
      column first (`g[c]` is then column `c`). */
  function Row(g: Mat, r: nat): Vec3
    requires r < 3
  {
    [g[0][r], g[1][r], g[2][r]]
  }

  /** Swaps the two indices: `Transpose(g)[i][j] == g[j][i]`. */
  function Transpose(g: Mat): Mat
  {
    [Row(g, 0), Row(g, 1), Row(g, 2)]
  }

  function Zero(): Mat
  {
    var o: Vec3 := [0.0, 0.0, 0.0];
    [o, o, o]
  }

  /** The identity; it reads the same in either layout. */
  function Identity(): Mat
  {
    var x: Vec3, y: Vec3, z: Vec3 := [1.0, 0.0, 0.0], [0.0, 1.0, 0.0], [0.0, 0.0, 1.0];
    [x, y, z]
  }

  /** What the row-major constructor stores: entry `e[r * 3 + c]` of the
      row-major list goes to `m[c][r]`. */
  function FromRowMajor(e: seq<real>): Mat
    requires |e| == 9
  {
    seq(3, c requires 0 <= c < 3 => seq(3, r requires 0 <= r < 3 => e[r * 3 + c]))
  }

  /** Reads a stored matrix back as a row-major list: entry `k` is row
      `k / 3`, column `k % 3`, that is `g[k % 3][k / 3]`. */
  function ToRowMajor(g: Mat): (e: seq<real>)
    ensures |e| == 9
  {
    seq(9, k requires 0 <= k < 9 => g[k % 3][k / 3])
  }

  /** The standard product of two row-major lists,
      `C[r][c] == A[r][0] * B[0][c] + A[r][1] * B[1][c] + A[r][2] * B[2][c]`,
      itself as a row-major list. */
  function RowMajorProduct(ea: seq<real>, eb: seq<real>): (ec: seq<real>)
    requires |ea| == 9 && |eb| == 9
    ensures |ec| == 9
  {
    seq(9, k requires 0 <= k < 9 =>
      var r, c := k / 3, k % 3;
      ea[r * 3 + 0] * eb[0 * 3 + c] + ea[r * 3 + 1] * eb[1 * 3 + c] + ea[r * 3 + 2] * eb[2 * 3 + c])
  }

  /** What `operator*` computes: `result[c][r] == sum over i of a[i][r] * b[c][i]`,
      the dot product of row `r` of `a` with column `c` of `b`. */
  function Product(a: Mat, b: Mat): Mat
  {
    seq(3, c requires 0 <= c < 3 => seq(3, r requires 0 <= r < 3 => Dot(Row(a, r), b[c])))
  }

  /** The linear map of a stored matrix on a column vector:
      component `r` is row `r` dotted with `v`. */
  function Apply(g: Mat, v: Vec3): Vec3
  {
    seq(3, r requires 0 <= r < 3 => Dot(Row(g, r), v))
  }

  /** The entries of a 3x3 array as a value, indexed as the array is. */
  ghost function Grid(m: array2<real>): Mat
    reads m
    requires m.Length0 == 3 && m.Length1 == 3
  {
    var c0: Vec3, c1: Vec3, c2: Vec3 := [m[0, 0], m[0, 1], m[0, 2]], [m[1, 0], m[1, 1], m[1, 2]], [m[2, 0], m[2, 1], m[2, 2]];
    [c0, c1, c2]
  }

  /** `Grid(m)` at `[i][j]` is `m[i, j]`. */
  lemma GridAt(m: array2<real>)
    requires m.Length0 == 3 && m.Length1 == 3
    ensures forall i, j :: 0 <= i < 3 && 0 <= j < 3 ==> Grid(m)[i][j] == m[i, j]
  {
  }

  /** A matrix whose entries are all equal to those of an array is that array's grid. */
  lemma GridFromEntries(m: array2<real>, g: Mat)
    requires m.Length0 == 3 && m.Length1 == 3
    requires forall i, j :: 0 <= i < 3 && 0 <= j < 3 ==> m[i, j] == g[i][j]
    ensures Grid(m) == g
  {
    forall i | 0 <= i < 3
      ensures Grid(m)[i] == g[i]
    {
      assert Grid(m)[i] == [m[i, 0], m[i, 1], m[i, 2]];
    }
  }

  /** `struct Mat3`: nine floats stored as `m[column][row]`. */
  class Mat3 {
    var m: array2<real>

    ghost predicate Valid()
      reads this
    {
      m.Length0 == 3 && m.Length1 == 3
    }

    /** `Mat3()`: every entry is zero. */
    constructor ()
      ensures Valid() && fresh(m)
      ensures forall i, j :: 0 <= i < 3 && 0 <= j < 3 ==> m[i, j] == 0.0
      ensures Grid(m) == Zero()
    {
      m := new real[3, 3];
      new;
      for c := 0 to 3
        modifies m
        invariant forall i, j :: 0 <= i < c && 0 <= j < 3 ==> m[i, j] == 0.0
      {
        for r := 0 to 3
          modifies m
          invariant forall i, j :: 0 <= i < c && 0 <= j < 3 ==> m[i, j] == 0.0
          invariant forall j :: 0 <= j < r ==> m[c, j] == 0.0
        {
          m[c, r] := 0.0;
        }
      }
      GridFromEntries(m, Zero());
    }

    /** `Mat3(const float (&e)[9])`: `e` is row-major and is stored
        transposed, `m[c][r] == e[r * 3 + c]`. */
    constructor FromRows(e: seq<real>)
      requires |e| == 9
      ensures Valid() && fresh(m)
      ensures Grid(m) == FromRowMajor(e)
    {
      m := new real[3, 3];
      new;
      for r := 0 to 3
        modifies m
        invariant forall i, j :: 0 <= i < 3 && 0 <= j < r ==> m[i, j] == e[j * 3 + i]
      {
        for c := 0 to 3
          modifies m
          invariant forall i, j :: 0 <= i < 3 && 0 <= j < r ==> m[i, j] == e[j * 3 + i]
          invariant forall i :: 0 <= i < c ==> m[i, r] == e[r * 3 + i]
        {
          m[c, r] := e[r * 3 + c];
        }
      }
      GridFromEntries(m, FromRowMajor(e));
    }
  }

  /** Entries before `(c, r)` in column-then-row order hold their values in `p`. */
  ghost predicate FilledBefore(m: array2<real>, p: Mat, c: int, r: int)
    reads m
    requires m.Length0 == 3 && m.Length1 == 3
  {
    forall i, j :: 0 <= i < 3 && 0 <= j < 3 && (i < c || (i == c && j < r)) ==> m[i, j] == p[i][j]
  }

  /** Entries from `(c, r)` on in column-then-row order are still zero. */
  ghost predicate ZeroFrom(m: array2<real>, c: int, r: int)
    reads m
    requires m.Length0 == 3 && m.Length1 == 3
  {
    forall i, j :: 0 <= i < 3 && 0 <= j < 3 && (i > c || (i == c && j >= r)) ==> m[i, j] == 0.0
  }

  /** `operator*`: starts from a zero matrix and accumulates
      `result.m[c][r] += a.m[i][r] * b.m[c][i]` over `i`. The factors are
      left as they were. */
  method Multiply(a: Mat3, b: Mat3) returns (result: Mat3)
    requires a.Valid() && b.Valid()
    ensures result.Valid() && fresh(result) && fresh(result.m)
    ensures Grid(result.m) == Product(Grid(a.m), Grid(b.m))
    ensures unchanged(a, a.m, b, b.m)
  {
    ghost var ga, gb := Grid(a.m), Grid(b.m);
    ghost var p := Product(ga, gb);
    GridAt(a.m);
    GridAt(b.m);
    result := new Mat3();
    for c := 0 to 3
      modifies result.m
      invariant FilledBefore(result.m, p, c, 0) && ZeroFrom(result.m, c, 0)
    {
      for r := 0 to 3
        modifies result.m
        invariant FilledBefore(result.m, p, c, r) && ZeroFrom(result.m, c, r)
      {
        ghost var row, col := Row(ga, r), gb[c];
        label Entry:
        for i := 0 to 3
          modifies result.m
          invariant forall i', j :: 0 <= i' < 3 && 0 <= j < 3 && (i' != c || j != r) ==>
            result.m[i', j] == old@Entry(result.m[i', j])
          invariant result.m[c, r] == 0.0 + PrefixDot(row, col, i)
        {
          var x, y := a.m[i, r], b.m[c, i];
          AccumulateStep(row, col, i, 0.0, result.m[c, r], x, y);
          result.m[c, r] := result.m[c, r] + x * y;
        }
      }
    }
    GridFromEntries(result.m, p);
  }

  /** Reading the stored entries back in row-major order gives the list
      the constructor was given, and storing a read-back list gives the
      matrix it was read from. */
  lemma {:induction false} RowMajorRoundTrip(e: seq<real>, g: Mat)
    requires |e| == 9
    ensures ToRowMajor(FromRowMajor(e)) == e
    ensures FromRowMajor(ToRowMajor(g)) == g
  {
    var s := FromRowMajor(e);
    forall k | 0 <= k < 9
      ensures ToRowMajor(s)[k] == e[k]
    {
      assert k == (k / 3) * 3 + k % 3;
    }
    var t := ToRowMajor(g);
    forall c | 0 <= c < 3
      ensures FromRowMajor(t)[c] == g[c]
    {
      forall r | 0 <= r < 3
        ensures FromRowMajor(t)[c][r] == g[c][r]
      {
        var k := r * 3 + c;
        assert k / 3 == r && k % 3 == c;
      }
    }
  }

  /** Multiplying two matrices built from row-major lists gives the matrix
      built from the row-major standard product of those lists. */
  lemma {:induction false} ProductOfRowMajor(ea: seq<real>, eb: seq<real>)
    requires |ea| == 9 && |eb| == 9
    ensures Product(FromRowMajor(ea), FromRowMajor(eb)) == FromRowMajor(RowMajorProduct(ea, eb))
  {
    var a, b := FromRowMajor(ea), FromRowMajor(eb);
    var p, q := Product(a, b), FromRowMajor(RowMajorProduct(ea, eb));
    forall c | 0 <= c < 3
      ensures p[c] == q[c]
    {
      forall r | 0 <= r < 3
        ensures p[c][r] == q[c][r]
      {
        var k := r * 3 + c;
        assert k / 3 == r && k % 3 == c;
        assert Row(a, r) == [ea[r * 3 + 0], ea[r * 3 + 1], ea[r * 3 + 2]];
        assert b[c] == [eb[0 * 3 + c], eb[1 * 3 + c], eb[2 * 3 + c]];
      }
    }
  }

  /** Applying a matrix built from a row-major list is the usual
      row-by-column product with that list. */
  lemma ApplyRowMajor(e: seq<real>, v: Vec3, r: nat)
    requires |e| == 9 && r < 3
    ensures Apply(FromRowMajor(e), v)[r] == e[r * 3 + 0] * v[0] + e[r * 3 + 1] * v[1] + e[r * 3 + 2] * v[2]
  {
    assert Row(FromRowMajor(e), r) == [e[r * 3 + 0], e[r * 3 + 1], e[r * 3 + 2]];
  }

  /** The product is composition: applying `a * b` is applying `b`, then `a`. */
  lemma {:induction false} ProductComposes(a: Mat, b: Mat, v: Vec3)
    ensures Apply(Product(a, b), v) == Apply(a, Apply(b, v))
  {
    forall r | 0 <= r < 3
      ensures Apply(Product(a, b), v)[r] == Apply(a, Apply(b, v))[r]
    {
      ComposesAt(a, b, v, r);
    }
  }

  /** Component `r` of `ProductComposes`. */
  lemma ComposesAt(a: Mat, b: Mat, v: Vec3, r: nat)
    requires r < 3
    ensures Apply(Product(a, b), v)[r] == Apply(a, Apply(b, v))[r]
  {
    var p, bv := Product(a, b), Apply(b, v);
    ApplyAt(p, v, r);
    ApplyAt(a, bv, r);
    ApplyAt(b, v, 0);
    ApplyAt(b, v, 1);
    ApplyAt(b, v, 2);
    ProductAt(a, b, 0, r);
    ProductAt(a, b, 1, r);
    ProductAt(a, b, 2, r);
    Regroup(a[0][r], a[1][r], a[2][r], b[0][0], b[0][1], b[0][2], b[1][0], b[1][1], b[1][2],
            b[2][0], b[2][1], b[2][2], v[0], v[1], v[2], p[0][r], p[1][r], p[2][r], bv[0], bv[1], bv[2]);
  }

  /** Component `r` of `Apply` written out. */
  lemma ApplyAt(g: Mat, v: Vec3, r: nat)
    requires r < 3
    ensures Apply(g, v)[r] == g[0][r] * v[0] + g[1][r] * v[1] + g[2][r] * v[2]
  {
  }

  /** Entry `[c][r]` of `Product` written out. */
  lemma ProductAt(a: Mat, b: Mat, c: nat, r: nat)
    requires c < 3 && r < 3
    ensures Product(a, b)[c][r] == a[0][r] * b[c][0] + a[1][r] * b[c][1] + a[2][r] * b[c][2]
  {
  }

  /** Summing a 3x3 bilinear form by columns or by rows gives the same
      value: with `p0..p2` the column sums and `q0..q2` the row sums,
      `p . v == (x, y, z) . q`. */
  lemma Regroup(x: real, y: real, z: real,
                b00: real, b01: real, b02: real, b10: real, b11: real, b12: real,
                b20: real, b21: real, b22: real, v0: real, v1: real, v2: real,
                p0: real, p1: real, p2: real, q0: real, q1: real, q2: real)
    requires p0 == x * b00 + y * b01 + z * b02
    requires p1 == x * b10 + y * b11 + z * b12
    requires p2 == x * b20 + y * b21 + z * b22
    requires q0 == b00 * v0 + b10 * v1 + b20 * v2
    requires q1 == b01 * v0 + b11 * v1 + b21 * v2
    requires q2 == b02 * v0 + b12 * v1 + b22 * v2
    ensures p0 * v0 + p1 * v1 + p2 * v2 == x * q0 + y * q1 + z * q2
  {
    Distribute(v0, x * b00, y * b01, z * b02);
    Distribute(v1, x * b10, y * b11, z * b12);
    Distribute(v2, x * b20, y * b21, z * b22);
    Distribute(x, b00 * v0, b10 * v1, b20 * v2);
    Distribute(y, b01 * v0, b11 * v1, b21 * v2);
    Distribute(z, b02 * v0, b12 * v1, b22 * v2);
  }

  /** `k * (p + q + s) == k * p + k * q + k * s`, in either order of the factors. */
  lemma Distribute(k: real, p: real, q: real, s: real)
    ensures (p + q + s) * k == p * k + q * k + s * k
    ensures k * (p + q + s) == k * p + k * q + k * s
  {
  }

  /** The composition `rotz * roty * rotx` (grouped left to right, as C++
      groups it) applies `x` first, then `y`, then `z`. */
  lemma {:induction false} ChainComposes(z: Mat, y: Mat, x: Mat, v: Vec3)
    ensures Apply(Product(Product(z, y), x), v) == Apply(z, Apply(y, Apply(x, v)))
  {
    ProductComposes(Product(z, y), x, v);
    ProductComposes(z, y, Apply(x, v));
  }

  /** The identity is neutral on both sides of the product. */
  lemma {:induction false} ProductIdentity(a: Mat)
    ensures Product(Identity(), a) == a
    ensures Product(a, Identity()) == a
  {
    var i := Identity();
    forall c | 0 <= c < 3
      ensures Product(i, a)[c] == a[c] && Product(a, i)[c] == a[c]
    {
      forall r | 0 <= r < 3
        ensures Product(i, a)[c][r] == a[c][r] && Product(a, i)[c][r] == a[c][r]
      {
        assert Row(i, r)[r] == 1.0;
        assert i[c][c] == 1.0;
      }
    }
  }
}
