# AABB recomputation kernel

This project models the small linear-algebra and bounding-box kernel of
AABB_Experiment (`aabb_test.cpp`). The kernel recomputes the axis-aligned
bounding box (AABB) of a box after a 3x3 transform and a translation `t`.
It does this in two ways:

- `calc_aabb1`, direct bound expansion. Each new centre is `t` plus the
  array applied to the old centre. Each new half-extent is the absolute
  values of the array applied to the old half-extents.
- `calc_aabb2`, support-point projection. It dots each "world axis" with
  the box's furthest corner.

The kernel also has the helpers these need: `vec3_dot`, the `Mat3` struct
with its two constructors, and `operator*`.

Modules:

- `Vector3`:
  - `Vec3` is a `float[3]`, modelled as a length-3 sequence of reals.
  - `Dot` is `vec3_dot`.
  - `Abs` is `fabsf`.
- `Matrix3`:
  - `Mat3` is a class with an `array2<real>` field. Its two constructors
    and `Multiply` (`operator*`) fill that array with the source's nested
    loops.
  - Each of them is proved against a value-level specification:
    - `Zero` for the zero constructor;
    - `FromRowMajor` for the row-major constructor, which stores
      `m[c][r] == e[r*3+c]`;
    - `Product` for `operator*`.
  - A `Mat` value is indexed exactly as the storage is. For a `Mat3` that
    means `g[c][r]`, column first.
- `BoundingBox`:
  - `Aabb` is `struct AABB` (aabb_test.cpp:49-52), a datatype with the
    fields `center` and `halfExts`.
  - `CalcAabb1` is a method over the raw `float m[3][3]` and `float t[3]`
    arrays. It is proved equal to the function `DirectBound`, and
    `DirectBound`'s geometric meaning is proved as lemmas.
  - `CalcAabb2` is a function, because the source is straight-line code.
    It is modelled as written: it always uses the corner `-half_exts` and
    sets the centre to `t`.
  - `CalcAabb2Branchy` restores the commented-out sign test. It is not the
    shipped code; see "## Findings".

The raw array is always read with the indices each function uses.
`calc_aabb1` reads `m[i][j]` with `i` the output axis. `calc_aabb2` reads
the world axes as `m[0][k], m[1][k], m[2][k]`. Because the benchmark passes
a `Mat3`'s column-first storage, `calc_aabb1` applies the transpose of the
matrix the row-major list spells (`DirectBoundOfStoredMatrix`). Nothing
here claims that the two methods agree.

## Model

| member | source | states |
|---|---|---|
| Vector3.Dot | aabb_test.cpp:10-12 | `vec3_dot`'s one-expression sum equals the dot product accumulated term by term from index 0 (the reference `PrefixDot`) |
| Vector3.DotSymmetric | aabb_test.cpp:10-12 | `vec3_dot(a, b) == vec3_dot(b, a)` |
| Vector3.Abs | aabb_test.cpp:61 | `fabsf` never returns a negative value |
| Matrix3.Mat3.constructor | aabb_test.cpp:19-25 | the zero constructor leaves all nine entries of a fresh array equal to 0 |
| Matrix3.Mat3.FromRows | aabb_test.cpp:27-34 | the row-major constructor stores `m[c][r] == e[r*3+c]` for every `r, c` |
| Matrix3.Multiply | aabb_test.cpp:37-47 | `operator*` returns a fresh matrix with `result.m[c][r] == sum over i of a.m[i][r] * b.m[c][i]` and leaves both factors unchanged |
| Matrix3.RowMajorRoundTrip | aabb_test.cpp:27-34 | reading a stored matrix back in row-major order reproduces the constructor's list, and storing a read-back list reproduces the matrix |
| Matrix3.ProductOfRowMajor | aabb_test.cpp:28-47 | multiplying two matrices built from row-major lists gives the matrix built from the row-major standard product `C[r][c] = sum_k A[r][k] * B[k][c]` |
| Matrix3.ApplyRowMajor | aabb_test.cpp:27-34 | a matrix built from a row-major list acts on a vector row by row as that list reads |
| Matrix3.ProductComposes | aabb_test.cpp:37-47 | applying `a * b` to a vector is applying `b` and then `a` |
| Matrix3.ChainComposes | aabb_test.cpp:146 | `rotz * roty * rotx` (grouped left to right) applies `rotx` first, then `roty`, then `rotz` |
| Matrix3.ProductIdentity | aabb_test.cpp:37-47 | the identity matrix is neutral on both sides of `operator*` |
| BoundingBox.AccumulateRow | aabb_test.cpp:59-62 | the inner `j` loop adds row `i`'s dot product with the centre to the centre accumulator, and the dot product of its absolute values with the half-extents to the half-extent accumulator |
| BoundingBox.CalcAabb1 | aabb_test.cpp:54-66 | `calc_aabb1` returns centre `t[i] + sum_j m[i][j] * center[j]` and half-extents `sum_j fabsf(m[i][j]) * half_exts[j]` for every axis `i` |
| BoundingBox.DirectBoundEncloses | aabb_test.cpp:54-66 | every point of the input box, carried by `p -> t + m p`, lies in the box `calc_aabb1` returns |
| BoundingBox.DirectBoundTight | aabb_test.cpp:54-66 | for non-negative half-extents, on every axis some point of the input box reaches the top of the new box, and another reaches its bottom |
| BoundingBox.DirectBoundNonNegative | aabb_test.cpp:61 | non-negative half-extents stay non-negative under `calc_aabb1` |
| BoundingBox.DirectBoundTranslation | aabb_test.cpp:54-66 | with the identity array, `calc_aabb1` moves the centre by `t` and keeps the half-extents |
| BoundingBox.DirectBoundIdentity | aabb_test.cpp:54-66 | with the identity array and zero translation, `calc_aabb1` returns its input box |
| BoundingBox.DirectBoundScenario | aabb_test.cpp:149-154 | the benchmark's box (centre (1,2,3), half-extents (3,4,5)) with `t = (11,21,31)` and the identity array gives centre (12,23,34) and half-extents (3,4,5) |
| BoundingBox.DirectBoundOfStoredMatrix | aabb_test.cpp:167 | given a `Mat3`'s stored array, `calc_aabb1` uses column `i` of the row-major list for output axis `i`, that is, it applies the transpose |
| BoundingBox.CalcAabb2 | aabb_test.cpp:68-108 | `calc_aabb2` as shipped returns centre `t`, and half-extent `k` is `-(m[0][k] * h[0] + m[1][k] * h[1] + m[2][k] * h[2])`, the `k`-th world axis dotted with the corner `-half_exts` |
| BoundingBox.SupportIgnoresCenter | aabb_test.cpp:97-98 | two boxes that differ only in their centre give the same `calc_aabb2` result |
| BoundingBox.SupportIdentity | aabb_test.cpp:73-105 | with the identity array, `calc_aabb2` returns centre `t` and the negated half-extents |
| BoundingBox.SupportNegativeExtents | aabb_test.cpp:81-95 | the benchmark's box under the identity array gets half-extents (-3,-4,-5) and centre (11,21,31) |
| BoundingBox.SupportAgreesWhenNonPositive | aabb_test.cpp:81-95 | the shipped and the sign-tested projection agree on axis `k` when no entry of that axis is positive |
| BoundingBox.Furthest | aabb_test.cpp:82-94 | the commented-out selection `w[k] > 0 ? h[k] : -h[k]` always yields a corner of the box: each component is `h[k]` or `-h[k]` |
| BoundingBox.SupportDot | aabb_test.cpp:82 | dotting an axis with its sign-selected support corner gives `sum_k fabsf(w[k]) * h[k]` |
| BoundingBox.CalcAabb2Branchy | aabb_test.cpp:81-105 | with the sign test `w[k] > 0 ? h[k] : -h[k]` restored, the centre is `t` and half-extent `k` is `sum_j fabsf(m[j][k]) * h[j]` |
| BoundingBox.BranchyIsDirectOfTranspose | aabb_test.cpp:54-108 | the sign-tested projection gives the half-extents that `calc_aabb1` gives for the transposed array |
| BoundingBox.BranchyNonNegative | aabb_test.cpp:81-95 | with the sign test restored, non-negative half-extents stay non-negative for every array |
| BoundingBox.BranchyScenario | aabb_test.cpp:81-105 | with the sign test restored, the benchmark's box under the identity array keeps half-extents (3,4,5) |

The members `Vector3.AccumulateStep`, `Vector3.DotBound`, `Vector3.DotNonNegative`,
`Matrix3.ApplyAt`, `Matrix3.ProductAt`, `Matrix3.ComposesAt`, `Matrix3.Regroup`
and the other lemmas without a row are proof steps used by the members above;
they model no source lines of their own.

## Left out

- `main` (aabb_test.cpp:116-198) is benchmark plumbing: Windows timing, `rand`/`srand`, the `volatile` sums and `cout`. Only its fixed box and translation (lines 149-154), the product chain (line 146) and its call `calc_aabb1(a, rots[i].m, t)` (line 167) appear, as lemmas.
- The random rotations (aabb_test.cpp:124-145) use `cosf`/`sinf`. Trigonometry and orthonormality are not modelled, so no lemma assumes an orthonormal array.
- `print_mat3` (aabb_test.cpp:110-114) is console output only.
- IEEE `float` behaviour is not modelled: no rounding, NaN, Inf or signed zero. Scalars are mathematical reals, so the accumulation order does not change results.
- Vector3.Abs: models `fabsf` as the exact absolute value on reals.
- BoundingBox.CalcAabb1: `new_aabb` is a local struct value in the source. It is modelled as two local sequences updated per axis.
  - The inner `j` loop becomes the helper method `AccumulateRow`, which adds into scalar accumulators.
  - The result is the same. The only difference is that the stores go into locals instead of struct fields, and no caller can observe them.
- BoundingBox.CalcAabb2: the centre is set to `t` and ignores the input centre, as written. This is kept, not corrected: only the half-extent sign test is corrected, under "## Findings".
- The commented-out sign test is `> 0`, so a zero axis component selects `-h`. `Furthest` follows this code, not a `>= 0` variant. The two give the same dot product either way.

## Findings

| source | as written | input that shows it | evidently intended | confidence | as-written member | corrected member |
|---|---|---|---|---|---|---|
| aabb_test.cpp:81-95 | every support point is the corner `-half_exts`, because the sign test `inv_world_axis[k] > 0 ? h : -h` is commented out | identity array, `t = (11,21,31)`, box centre (1,2,3) and half-extents (3,4,5): the half-extents come out (-3,-4,-5) | choose `+h[k]` when axis component `k` is positive, so half-extent `k` is `sum_j fabsf(m[j][k]) * h[j] >= 0` | high, not executed | BoundingBox.SupportNegativeExtents | BoundingBox.CalcAabb2Branchy |
