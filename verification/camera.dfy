/**
  The orbiting camera of the demo: a position `pos` looking at a target `tgt`, the box
  clamp applied after a drag, the guarded zoom about the target, and the reset to the
  starting view. The interaction flags and drag anchors are event plumbing and are not
  part of the state here.
 */
module CameraControl {
  import opened Vectors

  datatype Camera = Camera(pos: Vec3, tgt: Vec3)

  /** The clamp box of the eye position. */
  const PosMin: Vec3 := Vec3(-3.0, 0.0, -5.5)
  const PosMax: Vec3 := Vec3(3.0, 5.5, 15.0)

  /** The clamp box of the target; its z bounds are both 0 but are never applied. */
  const TgtMin: Vec3 := Vec3(-3.0, -5.5, 0.0)
  const TgtMax: Vec3 := Vec3(3.0, 5.5, 0.0)

  predicate Within(v: real, lo: real, hi: real) {
    lo <= v <= hi
  }

  predicate InBox(v: Vec3, lo: Vec3, hi: Vec3) {
    Within(v.x, lo.x, hi.x) && Within(v.y, lo.y, hi.y) && Within(v.z, lo.z, hi.z)
  }

  /**
    The region `clamp` brings a camera into: the eye inside its box and the target's x and y
    inside theirs. The target's depth is free.
   */
  predicate Clamped(c: Camera) {
    InBox(c.pos, PosMin, PosMax) && Within(c.tgt.x, TgtMin.x, TgtMax.x) && Within(c.tgt.y, TgtMin.y, TgtMax.y)
  }

  /** `glm::clamp(v, lo, hi)`, which is `min(max(v, lo), hi)`. */
  function ClampValue(v: real, lo: real, hi: real): (r: real)
    requires lo <= hi
    ensures Within(r, lo, hi)
    ensures Within(v, lo, hi) ==> r == v
    ensures !Within(v, lo, hi) ==> r == lo || r == hi
  {
    var m := if v < lo then lo else v;
    if hi < m then hi else m
  }

  /** Among all values in `[lo, hi]`, the clamped value is a nearest one to `v`. */
  lemma ClampValueNearest(v: real, lo: real, hi: real, u: real)
    requires lo <= hi && Within(u, lo, hi)
    ensures Dist(ClampValue(v, lo, hi), v) <= Dist(u, v)
  {
  }

  function Dist(a: real, b: real): real {
    if a < b then b - a else a - b
  }

  /** `Camera::clamp`: each eye coordinate and the target's x and y are clamped. */
  function Clamp(c: Camera): (r: Camera)
    ensures Clamped(r)
    ensures r.tgt.z == c.tgt.z
  {
    Camera(Vec3(ClampValue(c.pos.x, PosMin.x, PosMax.x),
                ClampValue(c.pos.y, PosMin.y, PosMax.y),
                ClampValue(c.pos.z, PosMin.z, PosMax.z)),
           Vec3(ClampValue(c.tgt.x, TgtMin.x, TgtMax.x),
                ClampValue(c.tgt.y, TgtMin.y, TgtMax.y),
                c.tgt.z))
  }

  /** Clamping leaves a camera alone exactly when it is already inside the region. */
  lemma ClampFixesExactlyClamped(c: Camera)
    ensures Clamp(c) == c <==> Clamped(c)
  {
  }

  lemma ClampIdempotent(c: Camera)
    ensures Clamp(Clamp(c)) == Clamp(c)
  {
    ClampFixesExactlyClamped(Clamp(c));
  }

  /**
    The clamped camera is, coordinate by coordinate, at least as close to the original as any
    camera in the region that keeps the same target depth.
   */
  lemma ClampIsNearest(c: Camera, e: Camera)
    requires Clamped(e) && e.tgt.z == c.tgt.z
    ensures var r := Clamp(c);
      Dist(r.pos.x, c.pos.x) <= Dist(e.pos.x, c.pos.x)
      && Dist(r.pos.y, c.pos.y) <= Dist(e.pos.y, c.pos.y)
      && Dist(r.pos.z, c.pos.z) <= Dist(e.pos.z, c.pos.z)
      && Dist(r.tgt.x, c.tgt.x) <= Dist(e.tgt.x, c.tgt.x)
      && Dist(r.tgt.y, c.tgt.y) <= Dist(e.tgt.y, c.tgt.y)
      && r.tgt.z == e.tgt.z
  {
    ClampValueNearest(c.pos.x, PosMin.x, PosMax.x, e.pos.x);
    ClampValueNearest(c.pos.y, PosMin.y, PosMax.y, e.pos.y);
    ClampValueNearest(c.pos.z, PosMin.z, PosMax.z, e.pos.z);
    ClampValueNearest(c.tgt.x, TgtMin.x, TgtMax.x, e.tgt.x);
    ClampValueNearest(c.tgt.y, TgtMin.y, TgtMax.y, e.tgt.y);
  }

  /** The target's depth is outside its nominal box yet survives the clamp. */
  lemma ClampKeepsTargetDepth(c: Camera)
    requires c.tgt.z == 7.0
    ensures !InBox(Clamp(c).tgt, TgtMin, TgtMax)
  {
  }

  /** The eye box contains the plane z = 0, where the view direction has no depth. */
  lemma ClampAdmitsZeroDepth()
    ensures Clamped(Camera(Vec3(0.0, 1.0, 0.0), Vec3(0.0, 0.0, 0.0)))
  {
  }

  /** The distance test of the zoom, on squared lengths: `dist < 0.2` and `dist > 5`. */
  predicate TooClose(c: Camera) {
    Length2(Sub3(c.tgt, c.pos)) < 0.04
  }

  predicate TooFar(c: Camera) {
    Length2(Sub3(c.tgt, c.pos)) > 25.0
  }

  /** The dead zone: zooming in when already close, or out when already far, is refused. */
  predicate ZoomRefused(c: Camera, d: real) {
    (d > 0.0 && TooClose(c)) || (d < 0.0 && TooFar(c))
  }

  /** The factor `1 - 0.03 * d` applied to the eye offset for a zoom step `d`. */
  function ZoomScale(d: real): real {
    1.0 - 0.03 * d
  }

  /**
    `Camera::handle_zoom`: unless the step is refused, the eye moves along the line to the
    target so that its offset from the target is scaled by `1 - 0.03 * d`; the target stays.
   */
  function HandleZoom(c: Camera, d: real): (r: Camera)
    ensures r.tgt == c.tgt
    ensures ZoomRefused(c, d) ==> r == c
    ensures !ZoomRefused(c, d) ==> Sub3(r.pos, r.tgt) == Scale3(ZoomScale(d), Sub3(c.pos, c.tgt))
  {
    if ZoomRefused(c, d) then c
    else Camera(Add3(c.tgt, Scale3(ZoomScale(d), Sub3(c.pos, c.tgt))), c.tgt)
  }

  lemma SquareAtMostOne(s: real)
    requires -1.0 <= s <= 1.0
    ensures s * s <= 1.0
  {
    if s >= 0.0 {
      assert s * s <= s * 1.0;
    } else {
      assert s * s == (-s) * (-s) <= (-s) * 1.0;
    }
  }

  lemma LengthOfScaled(k: real, v: Vec3)
    ensures Length2(Scale3(k, v)) == k * k * Length2(v)
  {
  }

  lemma LengthOfNegated(a: Vec3, b: Vec3)
    ensures Length2(Sub3(a, b)) == Length2(Sub3(b, a))
  {
  }

  /** A step of zero leaves the camera exactly where it was. */
  lemma ZoomZeroIsIdentity(c: Camera)
    ensures HandleZoom(c, 0.0) == c
  {
    assert ZoomScale(0.0) == 1.0;
  }

  /** An accepted step scales the squared eye-target distance by the squared factor. */
  lemma ZoomScalesDistance(c: Camera, d: real)
    requires !ZoomRefused(c, d)
    ensures Length2(Sub3(HandleZoom(c, d).tgt, HandleZoom(c, d).pos))
         == ZoomScale(d) * ZoomScale(d) * Length2(Sub3(c.tgt, c.pos))
  {
    var r := HandleZoom(c, d);
    LengthOfScaled(ZoomScale(d), Sub3(c.pos, c.tgt));
    LengthOfNegated(r.tgt, r.pos);
    LengthOfNegated(c.tgt, c.pos);
  }

  /**
    A positive step no larger than 200/3 moves the eye no farther from the target, and a
    negative step moves it no nearer; a refused step does neither.
   */
  lemma ZoomDirection(c: Camera, d: real)
    ensures 0.0 <= d <= 200.0 / 3.0 ==>
      Length2(Sub3(HandleZoom(c, d).tgt, HandleZoom(c, d).pos)) <= Length2(Sub3(c.tgt, c.pos))
    ensures d <= 0.0 ==>
      Length2(Sub3(HandleZoom(c, d).tgt, HandleZoom(c, d).pos)) >= Length2(Sub3(c.tgt, c.pos))
  {
    if !ZoomRefused(c, d) {
      ZoomScalesDistance(c, d);
      var s := ZoomScale(d);
      var l := Length2(Sub3(c.tgt, c.pos));
      assert l >= 0.0;
      if 0.0 <= d <= 200.0 / 3.0 {
        SquareAtMostOne(s);
        assert s * s * l <= l;
      }
      if d <= 0.0 {
        assert s >= 1.0;
        assert s * s >= 1.0;
        assert s * s * l >= l;
      }
    }
  }

  /**
    A step larger than 100/3 makes the factor negative: the eye passes through the target and
    ends up on the far side of it.
   */
  lemma ZoomCanPassTarget(c: Camera, d: real)
    requires d > 100.0 / 3.0 && !TooClose(c)
    ensures Dot3(Sub3(HandleZoom(c, d).pos, c.tgt), Sub3(c.pos, c.tgt)) < 0.0
  {
    var v := Sub3(c.pos, c.tgt);
    LengthOfNegated(c.tgt, c.pos);
    assert Length2(v) >= 0.04;
    assert Sub3(HandleZoom(c, d).pos, c.tgt) == Scale3(ZoomScale(d), v);
    assert Dot3(Scale3(ZoomScale(d), v), v) == ZoomScale(d) * Length2(v);
  }

  /**
    The dead zone only tests the distance before the step: from 0.3 away, a step of 30 is
    accepted and lands the eye 0.03 from the target, well inside the distance the guard is
    meant to keep.
   */
  lemma ZoomCanEnterDeadZone(c: Camera)
    requires Length2(Sub3(c.tgt, c.pos)) == 0.09
    ensures !ZoomRefused(c, 30.0)
    ensures Length2(Sub3(HandleZoom(c, 30.0).tgt, HandleZoom(c, 30.0).pos)) == 0.0009
    ensures TooClose(HandleZoom(c, 30.0))
  {
    ZoomScalesDistance(c, 30.0);
  }

  /** `Camera::reset`: back to the starting view of the test scene, which the build selects. */
  const Start: Camera := Camera(Vec3(0.0, 1.6, 15.0), Vec3(0.0, 3.0, 0.0))

  /**
    Whatever the camera was, the reset puts the eye at (0, 1.6, 15) looking at (0, 3, 0), a
    view already inside the clamp region.
   */
  function Reset(c: Camera): (r: Camera)
    ensures r.pos == Vec3(0.0, 1.6, 15.0) && r.tgt == Vec3(0.0, 3.0, 0.0)
    ensures Clamped(r) && Clamp(r) == r
  {
    Start
  }

  /**
    The starting eye is about 15.07 from its target, beyond the zoom-out limit: right after a
    reset, zooming out is refused and zooming in is accepted.
   */
  lemma ResetZoomsOnlyIn(c: Camera, d: real)
    ensures d < 0.0 ==> HandleZoom(Reset(c), d) == Reset(c)
    ensures d > 0.0 ==> !ZoomRefused(Reset(c), d)
  {
    StartIsFar(Reset(c));
  }

  lemma StartIsFar(s: Camera)
    requires s == Camera(Vec3(0.0, 1.6, 15.0), Vec3(0.0, 3.0, 0.0))
    ensures TooFar(s) && !TooClose(s)
  {
  }
}
