/**
  Real-valued vectors and 4x4 matrices standing in for the glm `vec3`, `vec4` and the
  `float[4][4]` arrays handed to OpenGL. Exact reals are used throughout: float rounding is
  not modelled.
 */
module Vectors {

  datatype Vec3 = Vec3(x: real, y: real, z: real)

  function Add3(a: Vec3, b: Vec3): Vec3 {
    Vec3(a.x + b.x, a.y + b.y, a.z + b.z)
  }

  function Sub3(a: Vec3, b: Vec3): Vec3 {
    Vec3(a.x - b.x, a.y - b.y, a.z - b.z)
  }

  function Scale3(k: real, a: Vec3): Vec3 {
    Vec3(k * a.x, k * a.y, k * a.z)
  }

  function Dot3(a: Vec3, b: Vec3): real {
    a.x * b.x + a.y * b.y + a.z * b.z
  }

  /** Squared Euclidean length; comparing it avoids the square root of `glm::length`. */
  function Length2(a: Vec3): real {
    Dot3(a, a)
  }

  /** A homogeneous 4-vector `(v[0], v[1], v[2], v[3])`, as glm's `vec4`. */
  datatype Vec4 = Vec4(x: real, y: real, z: real, w: real)

  function Dot4(a: Vec4, b: Vec4): real {
    a.x * b.x + a.y * b.y + a.z * b.z + a.w * b.w
  }

  function Scale4(k: real, a: Vec4): Vec4 {
    Vec4(k * a.x, k * a.y, k * a.z, k * a.w)
  }

  function Sub4(a: Vec4, b: Vec4): Vec4 {
    Vec4(a.x - b.x, a.y - b.y, a.z - b.z, a.w - b.w)
  }

  /** The affine point `p` as a homogeneous vector with w = 1. */
  function Point(p: Vec3): Vec4 {
    Vec4(p.x, p.y, p.z, 1.0)
  }

  const Zero4: Vec4 := Vec4(0.0, 0.0, 0.0, 0.0)

  /**
    A 4x4 matrix in OpenGL's column-major layout, stored as its four columns: `c0` to `c3`
    hold what a C array `float v[4][4]` keeps in `v[0]` to `v[3]` when it is read by
    `glMultMatrixf`, so the entry in row `r`, column `c` is the source's `v[c][r]`.
   */
  datatype Mat4 = Mat4(c0: Vec4, c1: Vec4, c2: Vec4, c3: Vec4)

  /** The matrix-vector product `m * p` that the fixed-function pipeline applies to a vertex. */
  function Transform(m: Mat4, p: Vec4): Vec4 {
    Vec4(m.c0.x * p.x + m.c1.x * p.y + m.c2.x * p.z + m.c3.x * p.w,
         m.c0.y * p.x + m.c1.y * p.y + m.c2.y * p.z + m.c3.y * p.w,
         m.c0.z * p.x + m.c1.z * p.y + m.c2.z * p.z + m.c3.z * p.w,
         m.c0.w * p.x + m.c1.w * p.y + m.c2.w * p.z + m.c3.w * p.w)
  }

  // The unfolding facts below are stated as lemmas so that proofs about products can cite
  // them one at a time: with many products in scope at once, the solver gives up.

  lemma DotExpand(a: Vec4, b: Vec4)
    ensures Dot4(a, b) == a.x * b.x + a.y * b.y + a.z * b.z + a.w * b.w
  {
  }

  lemma TransformRowX(m: Mat4, p: Vec4)
    ensures Transform(m, p).x == m.c0.x * p.x + m.c1.x * p.y + m.c2.x * p.z + m.c3.x * p.w
  {
  }

  lemma TransformRowY(m: Mat4, p: Vec4)
    ensures Transform(m, p).y == m.c0.y * p.x + m.c1.y * p.y + m.c2.y * p.z + m.c3.y * p.w
  {
  }

  lemma TransformRowZ(m: Mat4, p: Vec4)
    ensures Transform(m, p).z == m.c0.z * p.x + m.c1.z * p.y + m.c2.z * p.z + m.c3.z * p.w
  {
  }

  lemma TransformRowW(m: Mat4, p: Vec4)
    ensures Transform(m, p).w == m.c0.w * p.x + m.c1.w * p.y + m.c2.w * p.z + m.c3.w * p.w
  {
  }

  lemma CombinationExpand(d: real, p: Vec4, k: real, l: Vec4)
    ensures Sub4(Scale4(d, p), Scale4(k, l))
         == Vec4(d * p.x - k * l.x, d * p.y - k * l.y, d * p.z - k * l.z, d * p.w - k * l.w)
  {
  }
}
