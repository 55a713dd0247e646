/**
  Plane and planar-shadow geometry of the renderer: `find_plane`, `calc_shadow_matrix`, and the
  mirror transform `glScalef(1, -1, 1)` used for the floor reflection.
 */
module Planar {
  import opened Vectors

  /** Value of the plane equation `a*x + b*y + c*z + d` at the affine point `q`. */
  function Evaluate(plane: Vec4, q: Vec3): real {
    Dot4(plane, Point(q))
  }

  predicate OnPlane(plane: Vec4, q: Vec3) {
    Evaluate(plane, q) == 0.0
  }

  /** The (unnormalised) normal `(a, b, c)` of a plane. */
  function Normal(plane: Vec4): Vec3 {
    Vec3(plane.x, plane.y, plane.z)
  }

  // Polynomial identities over plain reals; the solver handles these far better than the
  // same identities stated over datatype fields.

  lemma CrossIsOrthogonal(a1: real, a2: real, a3: real, b1: real, b2: real, b3: real)
    ensures (a2 * b3 - a3 * b2) * a1 + -(a1 * b3 - a3 * b1) * a2 + (a1 * b2 - a2 * b1) * a3 == 0.0
    ensures (a2 * b3 - a3 * b2) * b1 + -(a1 * b3 - a3 * b1) * b2 + (a1 * b2 - a2 * b1) * b3 == 0.0
  {
  }

  lemma CrossOfRotatedEdges(x0: real, y0: real, z0: real, x1: real, y1: real, z1: real,
                            x2: real, y2: real, z2: real)
    ensures (y2 - y1) * (z0 - z1) - (z2 - z1) * (y0 - y1) == (y1 - y0) * (z2 - z0) - (z1 - z0) * (y2 - y0)
    ensures (x2 - x1) * (z0 - z1) - (z2 - z1) * (x0 - x1) == (x1 - x0) * (z2 - z0) - (z1 - z0) * (x2 - x0)
    ensures (x2 - x1) * (y0 - y1) - (y2 - y1) * (x0 - x1) == (x1 - x0) * (y2 - y0) - (y1 - y0) * (x2 - x0)
  {
  }

  lemma RowAlgebra(t: real, m0: real, m1: real, m2: real, m3: real, e0: real, e1: real, e2: real, e3: real,
                   de: real, k: real, l: real, a0: real, a1: real, a2: real, a3: real,
                   x0: real, x1: real, x2: real, x3: real)
    requires t == m0 * x0 + m1 * x1 + m2 * x2 + m3 * x3
    requires m0 == e0 - l * a0 && m1 == e1 - l * a1 && m2 == e2 - l * a2 && m3 == e3 - l * a3
    requires k == a0 * x0 + a1 * x1 + a2 * x2 + a3 * x3
    requires de == e0 * x0 + e1 * x1 + e2 * x2 + e3 * x3
    ensures t == de - k * l
  {
  }

  lemma DotOfCombination(d: real, k: real, a0: real, a1: real, a2: real, a3: real,
                         p0: real, p1: real, p2: real, p3: real, l0: real, l1: real, l2: real, l3: real)
    requires d == a0 * l0 + a1 * l1 + a2 * l2 + a3 * l3
    requires k == a0 * p0 + a1 * p1 + a2 * p2 + a3 * p3
    ensures a0 * (d * p0 - k * l0) + a1 * (d * p1 - k * l1) + a2 * (d * p2 - k * l2) + a3 * (d * p3 - k * l3) == 0.0
  {
  }

  lemma ScaledLerp(w: real, t: real, d: real, k: real, l: real, p: real)
    requires w * t == d && w == d - k
    ensures w * (l + t * (p - l)) == d * p - k * l
  {
    calc {
      w * (l + t * (p - l));
      w * l + (w * t) * (p - l);
      w * l + d * (p - l);
    }
  }

  /** The cross product of two edge vectors, spelled out component by component. */
  function Cross(e0: Vec3, e1: Vec3): Vec3 {
    Vec3(e0.y * e1.z - e0.z * e1.y, -(e0.x * e1.z - e0.z * e1.x), e0.x * e1.y - e0.y * e1.x)
  }

  /** The cross product is orthogonal to both edges. */
  lemma CrossOrthogonal(e0: Vec3, e1: Vec3)
    ensures Dot3(Cross(e0, e1), e0) == 0.0 && Dot3(Cross(e0, e1), e1) == 0.0
  {
    CrossIsOrthogonal(e0.x, e0.y, e0.z, e1.x, e1.y, e1.z);
  }

  /**
    The plane through `v0`, `v1`, `v2`: its normal is the cross product of the edges
    `v1 - v0` and `v2 - v0`, and `d` places `v0` on it. Collinear points give the zero normal,
    which the renderer never passes.
   */
  function FindPlane(v0: Vec3, v1: Vec3, v2: Vec3): Vec4 {
    var n := Cross(Sub3(v1, v0), Sub3(v2, v0));
    Vec4(n.x, n.y, n.z, -(n.x * v0.x + n.y * v0.y + n.z * v0.z))
  }

  /** The found plane passes through all three points and has the edges' cross product as normal. */
  lemma FindPlaneContainsPoints(v0: Vec3, v1: Vec3, v2: Vec3)
    ensures var plane := FindPlane(v0, v1, v2);
      OnPlane(plane, v0) && OnPlane(plane, v1) && OnPlane(plane, v2)
      && Normal(plane) == Cross(Sub3(v1, v0), Sub3(v2, v0))
  {
    var n := Cross(Sub3(v1, v0), Sub3(v2, v0));
    var plane := FindPlane(v0, v1, v2);
    CrossOrthogonal(Sub3(v1, v0), Sub3(v2, v0));
    assert Evaluate(plane, v1) == Dot3(n, Sub3(v1, v0));
    assert Evaluate(plane, v2) == Dot3(n, Sub3(v2, v0));
  }

  /** A point `q` lies on the found plane exactly when `q - v0` is orthogonal to its normal. */
  lemma OnFoundPlaneIff(v0: Vec3, v1: Vec3, v2: Vec3, q: Vec3)
    ensures OnPlane(FindPlane(v0, v1, v2), q) <==> Dot3(Normal(FindPlane(v0, v1, v2)), Sub3(q, v0)) == 0.0
  {
    var plane := FindPlane(v0, v1, v2);
    var n := Normal(plane);
    assert plane.w == -(n.x * v0.x + n.y * v0.y + n.z * v0.z);
    assert Evaluate(plane, q) == Dot3(n, Sub3(q, v0));
  }

  /** Exchanging the last two points reverses the orientation: every coefficient is negated. */
  lemma FindPlaneSwap(v0: Vec3, v1: Vec3, v2: Vec3)
    ensures FindPlane(v0, v2, v1) == Scale4(-1.0, FindPlane(v0, v1, v2))
  {
    var p := FindPlane(v0, v1, v2);
    var q := FindPlane(v0, v2, v1);
    assert Normal(q) == Vec3(-p.x, -p.y, -p.z);
    assert q.w == -p.w;
  }

  /** A cyclic rotation of the points keeps the orientation: the plane is the same. */
  lemma FindPlaneRotate(v0: Vec3, v1: Vec3, v2: Vec3)
    ensures FindPlane(v1, v2, v0) == FindPlane(v0, v1, v2)
  {
    var p := FindPlane(v0, v1, v2);
    var q := FindPlane(v1, v2, v0);
    CrossOfRotatedEdges(v0.x, v0.y, v0.z, v1.x, v1.y, v1.z, v2.x, v2.y, v2.z);
    assert Normal(q) == Normal(p);
    // Both planes contain v1 and share the normal, so their offsets agree.
    assert OnPlane(p, v1) && OnPlane(q, v1);
  }

  /** The three floor points passed to `find_plane` when the renderer starts. */
  const FloorV0: Vec3 := Vec3(-1.0, 0.0, 0.0)
  const FloorV1: Vec3 := Vec3(1.0, 0.0, 0.0)
  const FloorV2: Vec3 := Vec3(1.0, 0.0, -1.0)

  function FloorPlane(): Vec4 {
    FindPlane(FloorV0, FloorV1, FloorV2)
  }

  /** The plane through three points with the floor's coordinates is y = 0, normal (0, 2, 0). */
  lemma UpwardPlaneThrough(v0: Vec3, v1: Vec3, v2: Vec3)
    requires v0 == Vec3(-1.0, 0.0, 0.0) && v1 == Vec3(1.0, 0.0, 0.0) && v2 == Vec3(1.0, 0.0, -1.0)
    ensures FindPlane(v0, v1, v2) == Vec4(0.0, 2.0, 0.0, 0.0)
  {
  }

  /** A point is on the plane (0, 2, 0, 0) exactly when its height is zero. */
  lemma OnUpwardPlane(plane: Vec4, q: Vec3)
    requires plane == Vec4(0.0, 2.0, 0.0, 0.0)
    ensures OnPlane(plane, q) <==> q.y == 0.0
  {
    DotExpand(plane, Point(q));
  }

  /** The floor is the plane y = 0 with the upward, non-unit normal (0, 2, 0). */
  lemma FloorPlaneIsUpward()
    ensures FloorPlane() == Vec4(0.0, 2.0, 0.0, 0.0)
  {
    UpwardPlaneThrough(FloorV0, FloorV1, FloorV2);
  }

  /** A point is on the floor exactly when its height is zero. */
  lemma OnFloorIff(q: Vec3)
    ensures OnPlane(FloorPlane(), q) <==> q.y == 0.0
  {
    FloorPlaneIsUpward();
    OnUpwardPlane(FloorPlane(), q);
  }

  /**
    The planar shadow matrix for `plane` and the point light `light`, entry by entry as the
    renderer fills its column-major array.
   */
  function ShadowMatrix(plane: Vec4, light: Vec4): Mat4
  {
    var dot := Dot4(plane, light);
    Mat4(Vec4(dot - light.x * plane.x, 0.0 - light.y * plane.x, 0.0 - light.z * plane.x, 0.0 - light.w * plane.x),
         Vec4(0.0 - light.x * plane.y, dot - light.y * plane.y, 0.0 - light.z * plane.y, 0.0 - light.w * plane.y),
         Vec4(0.0 - light.x * plane.z, 0.0 - light.y * plane.z, dot - light.z * plane.z, 0.0 - light.w * plane.z),
         Vec4(0.0 - light.x * plane.w, 0.0 - light.y * plane.w, 0.0 - light.z * plane.w, dot - light.w * plane.w))
  }

  /** Row 0 of the matrix, entry by entry as the renderer assigns it. */
  lemma ShadowMatrixRowX(P: Vec4, L: Vec4)
    ensures var m, d := ShadowMatrix(P, L), Dot4(P, L);
      m.c0.x == d - L.x * P.x && m.c1.x == 0.0 - L.x * P.y
      && m.c2.x == 0.0 - L.x * P.z && m.c3.x == 0.0 - L.x * P.w
  {
  }

  lemma ShadowImageRowX(plane: Vec4, light: Vec4, p: Vec4)
    ensures Transform(ShadowMatrix(plane, light), p).x == Dot4(plane, light) * p.x - Dot4(plane, p) * light.x
  {
    ShadowMatrixRowX(plane, light);
    TransformRowX(ShadowMatrix(plane, light), p);
    DotExpand(plane, p);
    // Stated on the terms themselves rather than on local names: the solver keeps the
    // products syntactically aligned that way.
    RowAlgebra(Transform(ShadowMatrix(plane, light), p).x,
               ShadowMatrix(plane, light).c0.x, ShadowMatrix(plane, light).c1.x,
               ShadowMatrix(plane, light).c2.x, ShadowMatrix(plane, light).c3.x,
               Dot4(plane, light), 0.0, 0.0, 0.0,
               Dot4(plane, light) * p.x, Dot4(plane, p), light.x,
               plane.x, plane.y, plane.z, plane.w, p.x, p.y, p.z, p.w);
  }

  /** Row 1 of the matrix, entry by entry as the renderer assigns it. */
  lemma ShadowMatrixRowY(P: Vec4, L: Vec4)
    ensures var m, d := ShadowMatrix(P, L), Dot4(P, L);
      m.c0.y == 0.0 - L.y * P.x && m.c1.y == d - L.y * P.y
      && m.c2.y == 0.0 - L.y * P.z && m.c3.y == 0.0 - L.y * P.w
  {
  }

  lemma ShadowImageRowY(plane: Vec4, light: Vec4, p: Vec4)
    ensures Transform(ShadowMatrix(plane, light), p).y == Dot4(plane, light) * p.y - Dot4(plane, p) * light.y
  {
    ShadowMatrixRowY(plane, light);
    TransformRowY(ShadowMatrix(plane, light), p);
    DotExpand(plane, p);
    RowAlgebra(Transform(ShadowMatrix(plane, light), p).y,
               ShadowMatrix(plane, light).c0.y, ShadowMatrix(plane, light).c1.y,
               ShadowMatrix(plane, light).c2.y, ShadowMatrix(plane, light).c3.y,
               0.0, Dot4(plane, light), 0.0, 0.0,
               Dot4(plane, light) * p.y, Dot4(plane, p), light.y,
               plane.x, plane.y, plane.z, plane.w, p.x, p.y, p.z, p.w);
  }

  /** Row 2 of the matrix, entry by entry as the renderer assigns it. */
  lemma ShadowMatrixRowZ(P: Vec4, L: Vec4)
    ensures var m, d := ShadowMatrix(P, L), Dot4(P, L);
      m.c0.z == 0.0 - L.z * P.x && m.c1.z == 0.0 - L.z * P.y
      && m.c2.z == d - L.z * P.z && m.c3.z == 0.0 - L.z * P.w
  {
  }

  lemma ShadowImageRowZ(plane: Vec4, light: Vec4, p: Vec4)
    ensures Transform(ShadowMatrix(plane, light), p).z == Dot4(plane, light) * p.z - Dot4(plane, p) * light.z
  {
    ShadowMatrixRowZ(plane, light);
    TransformRowZ(ShadowMatrix(plane, light), p);
    DotExpand(plane, p);
    RowAlgebra(Transform(ShadowMatrix(plane, light), p).z,
               ShadowMatrix(plane, light).c0.z, ShadowMatrix(plane, light).c1.z,
               ShadowMatrix(plane, light).c2.z, ShadowMatrix(plane, light).c3.z,
               0.0, 0.0, Dot4(plane, light), 0.0,
               Dot4(plane, light) * p.z, Dot4(plane, p), light.z,
               plane.x, plane.y, plane.z, plane.w, p.x, p.y, p.z, p.w);
  }

  /** Row 3 of the matrix, entry by entry as the renderer assigns it. */
  lemma ShadowMatrixRowW(P: Vec4, L: Vec4)
    ensures var m, d := ShadowMatrix(P, L), Dot4(P, L);
      m.c0.w == 0.0 - L.w * P.x && m.c1.w == 0.0 - L.w * P.y
      && m.c2.w == 0.0 - L.w * P.z && m.c3.w == d - L.w * P.w
  {
  }

  lemma ShadowImageRowW(plane: Vec4, light: Vec4, p: Vec4)
    ensures Transform(ShadowMatrix(plane, light), p).w == Dot4(plane, light) * p.w - Dot4(plane, p) * light.w
  {
    ShadowMatrixRowW(plane, light);
    TransformRowW(ShadowMatrix(plane, light), p);
    DotExpand(plane, p);
    RowAlgebra(Transform(ShadowMatrix(plane, light), p).w,
               ShadowMatrix(plane, light).c0.w, ShadowMatrix(plane, light).c1.w,
               ShadowMatrix(plane, light).c2.w, ShadowMatrix(plane, light).c3.w,
               0.0, 0.0, 0.0, Dot4(plane, light),
               Dot4(plane, light) * p.w, Dot4(plane, p), light.w,
               plane.x, plane.y, plane.z, plane.w, p.x, p.y, p.z, p.w);
  }

  /**
    The shadow of `p` is the combination `dot * p - (plane . p) * light` of the point and the
    light, with `dot = plane . light`: projectively, a point on the line through both.
   */
  lemma ShadowIsCombination(plane: Vec4, light: Vec4, p: Vec4)
    ensures Transform(ShadowMatrix(plane, light), p)
         == Sub4(Scale4(Dot4(plane, light), p), Scale4(Dot4(plane, p), light))
  {
    ShadowImageRowX(plane, light, p);
    ShadowImageRowY(plane, light, p);
    ShadowImageRowZ(plane, light, p);
    ShadowImageRowW(plane, light, p);
    CombinationExpand(Dot4(plane, light), p, Dot4(plane, p), light);
  }

  /** Every flattened vertex lies on the plane, whatever the point and the light. */
  lemma ShadowLandsOnPlane(plane: Vec4, light: Vec4, p: Vec4)
    ensures Dot4(plane, Transform(ShadowMatrix(plane, light), p)) == 0.0
  {
    var d, k := Dot4(plane, light), Dot4(plane, p);
    var q := Transform(ShadowMatrix(plane, light), p);
    assert q == Vec4(d * p.x - k * light.x, d * p.y - k * light.y, d * p.z - k * light.z, d * p.w - k * light.w) by {
      ShadowIsCombination(plane, light, p);
      CombinationExpand(d, p, k, light);
    }
    CombinationOnPlane(plane, light, p, q, d, k);
  }

  /** The combination `(plane . light) p - (plane . p) light` is orthogonal to the plane. */
  lemma CombinationOnPlane(plane: Vec4, light: Vec4, p: Vec4, q: Vec4, d: real, k: real)
    requires d == Dot4(plane, light) && k == Dot4(plane, p)
    requires q == Vec4(d * p.x - k * light.x, d * p.y - k * light.y, d * p.z - k * light.z, d * p.w - k * light.w)
    ensures Dot4(plane, q) == 0.0
  {
    assert d == plane.x * light.x + plane.y * light.y + plane.z * light.z + plane.w * light.w by {
      DotExpand(plane, light);
    }
    assert k == plane.x * p.x + plane.y * p.y + plane.z * p.z + plane.w * p.w by {
      DotExpand(plane, p);
    }
    DotOfCombination(d, k, plane.x, plane.y, plane.z, plane.w,
                     p.x, p.y, p.z, p.w, light.x, light.y, light.z, light.w);
    DotWithEntries(plane, q, d * p.x - k * light.x, d * p.y - k * light.y, d * p.z - k * light.z, d * p.w - k * light.w);
  }

  lemma DotWithEntries(a: Vec4, q: Vec4, x: real, y: real, z: real, w: real)
    requires q == Vec4(x, y, z, w)
    ensures Dot4(a, q) == a.x * x + a.y * y + a.z * z + a.w * w
  {
    DotExpand(a, q);
  }

  /** A point already on the plane is its own shadow, up to the homogeneous factor `dot`. */
  lemma ShadowFixesPlanePoints(plane: Vec4, light: Vec4, p: Vec4)
    requires Dot4(plane, p) == 0.0
    ensures Transform(ShadowMatrix(plane, light), p) == Scale4(Dot4(plane, light), p)
  {
    ShadowIsCombination(plane, light, p);
  }

  /** The light itself has no shadow: it maps to the zero vector. */
  lemma ShadowCollapsesLight(plane: Vec4, light: Vec4)
    ensures Transform(ShadowMatrix(plane, light), light) == Zero4
  {
    ShadowIsCombination(plane, light, light);
  }

  /** The point a fraction `t` of the way from `a` to `b`. */
  function Lerp4(a: Vec4, b: Vec4, t: real): Vec4 {
    Vec4(a.x + t * (b.x - a.x), a.y + t * (b.y - a.y), a.z + t * (b.z - a.z), a.w + t * (b.w - a.w))
  }

  /** Scaling the point a fraction `d / (d - k)` along a ray by `d - k` gives `d * p - k * l`. */
  lemma LerpOnRay(d: real, k: real, l: Vec4, p: Vec4)
    requires d != k
    ensures Scale4(d - k, Lerp4(l, p, d / (d - k)))
         == Vec4(d * p.x - k * l.x, d * p.y - k * l.y, d * p.z - k * l.z, d * p.w - k * l.w)
  {
    assert (d - k) * (d / (d - k)) == d;
    ScaledLerp(d - k, d / (d - k), d, k, l.x, p.x);
    ScaledLerp(d - k, d / (d - k), d, k, l.y, p.y);
    ScaledLerp(d - k, d / (d - k), d, k, l.z, p.z);
    ScaledLerp(d - k, d / (d - k), d, k, l.w, p.w);
  }

  /**
    For an affine point and a positional light (both with w = 1), the shadow is, after the
    homogeneous divide by its w = dot - plane . p, the point `light + t * (p - light)` with
    `t = dot / w`: where the line from the light through `p` meets the plane.
   */
  lemma ShadowOnLightRay(plane: Vec4, light: Vec4, p: Vec4)
    requires p.w == 1.0 && light.w == 1.0
    requires Dot4(plane, light) != Dot4(plane, p)
    ensures Transform(ShadowMatrix(plane, light), p)
         == Scale4(Dot4(plane, light) - Dot4(plane, p),
                   Lerp4(light, p, Dot4(plane, light) / (Dot4(plane, light) - Dot4(plane, p))))
    ensures Lerp4(light, p, Dot4(plane, light) / (Dot4(plane, light) - Dot4(plane, p))).w == 1.0
  {
    ShadowIsCombination(plane, light, p);
    CombinationExpand(Dot4(plane, light), p, Dot4(plane, p), light);
    LerpOnRay(Dot4(plane, light), Dot4(plane, p), light, p);
  }

  /** The light position the renderer sets up, (15, 15, 15, 1). */
  const SceneLight: Vec4 := Vec4(15.0, 15.0, 15.0, 1.0)

  /** The shadow of `p` when the numbers `plane . light` and `plane . p` are known. */
  lemma ShadowWithDots(plane: Vec4, light: Vec4, p: Vec4, d: real, k: real)
    requires Dot4(plane, light) == d && Dot4(plane, p) == k
    ensures Transform(ShadowMatrix(plane, light), p)
         == Vec4(d * p.x - k * light.x, d * p.y - k * light.y, d * p.z - k * light.z, d * p.w - k * light.w)
  {
    ShadowIsCombination(plane, light, p);
    assert Transform(ShadowMatrix(plane, light), p) == Sub4(Scale4(d, p), Scale4(k, light));
    CombinationExpand(d, p, k, light);
  }

  /**
    On a floor `plane` with the normal (0, 2, 0) through the origin, the shadow of `p` under
    any light is `2 * (light.y * p - p.y * light)`: its height is zero, and after the
    homogeneous divide it is where the ray from the light through `p` meets the floor.
   */
  lemma FloorShadow(plane: Vec4, light: Vec4, p: Vec4)
    requires plane.x == 0.0 && plane.y == 2.0 && plane.z == 0.0 && plane.w == 0.0
    ensures Transform(ShadowMatrix(plane, light), p)
         == Vec4(2.0 * (light.y * p.x - p.y * light.x), 0.0,
                 2.0 * (light.y * p.z - p.y * light.z), 2.0 * (light.y * p.w - p.y * light.w))
  {
    assert Dot4(plane, light) == 2.0 * light.y by {
      DotExpand(plane, light);
    }
    assert Dot4(plane, p) == 2.0 * p.y by {
      DotExpand(plane, p);
    }
    ShadowWithDots(plane, light, p, 2.0 * light.y, 2.0 * p.y);
    FloorComponent(light.y, p.x, p.y, light.x);
    FloorComponent(light.y, p.y, p.y, light.y);
    FloorComponent(light.y, p.z, p.y, light.z);
    FloorComponent(light.y, p.w, p.y, light.w);
  }

  lemma FloorComponent(a: real, b: real, c: real, e: real)
    ensures 2.0 * a * b - 2.0 * c * e == 2.0 * (a * b - c * e)
  {
  }

  /** The floor the renderer computes is such a plane. */
  lemma SceneFloorShadow(light: Vec4, p: Vec4)
    ensures Transform(ShadowMatrix(FloorPlane(), light), p).y == 0.0
  {
    FloorPlaneIsUpward();
    FloorShadow(FloorPlane(), light, p);
  }

  /** The matrix of `glScalef(1, -1, 1)`, the mirror used for the reflection pass. */
  const MirrorMatrix: Mat4 :=
    Mat4(Vec4(1.0, 0.0, 0.0, 0.0), Vec4(0.0, -1.0, 0.0, 0.0), Vec4(0.0, 0.0, 1.0, 0.0), Vec4(0.0, 0.0, 0.0, 1.0))

  /**
    The mirror is the reflection across the floor plane: it maps every point to one on the
    other side at the same distance, so the midpoint is on the floor and the displacement is
    along the floor's normal.
   */
  lemma MirrorReflectsAcrossFloor(mirror: Mat4, floor: Vec4, q: Vec3)
    requires mirror == MirrorMatrix && floor == Vec4(0.0, 2.0, 0.0, 0.0)
    ensures var m := Transform(mirror, Point(q));
      m.w == 1.0
      && Evaluate(floor, Vec3(m.x, m.y, m.z)) == -Evaluate(floor, q)
      && OnPlane(floor, Vec3((q.x + m.x) / 2.0, (q.y + m.y) / 2.0, (q.z + m.z) / 2.0))
      && Sub3(Vec3(m.x, m.y, m.z), q) == Scale3(-q.y, Normal(floor))
  {
    TransformRowX(mirror, Point(q));
    TransformRowY(mirror, Point(q));
    TransformRowZ(mirror, Point(q));
    TransformRowW(mirror, Point(q));
    assert Transform(mirror, Point(q)) == Vec4(q.x, -q.y, q.z, 1.0);
    DotExpand(floor, Point(q));
    DotExpand(floor, Point(Vec3(q.x, -q.y, q.z)));
    DotExpand(floor, Point(Vec3(q.x, 0.0, q.z)));
  }
}
