/**
  Depth of field by accumulation: each frame is rendered eight times from an eye jittered
  across a small aperture, each pass looking at a point at the focus depth, and the eight
  images are averaged in the accumulation buffer.
 */
module DepthOfField {
  import opened Wrappers
  import opened Vectors
  import opened CameraControl

  /** The debug panel's settings that reach the renderer. */
  datatype DebugInfo = DebugInfo(showDepth: bool, dof: real, focus: real)

  const DefaultDebug: DebugInfo := DebugInfo(false, 0.1, 0.0)

  /** The panel's slider ranges for the aperture and the focus depth. */
  const DofMin: real := 0.0
  const DofMax: real := 0.2
  const FocusMin: real := -5.0
  const FocusMax: real := 3.5

  /** Settings the debug panel's sliders can produce. */
  predicate InPanel(dbg: DebugInfo) {
    DofMin <= dbg.dof <= DofMax && FocusMin <= dbg.focus <= FocusMax
  }

  /** The number of jittered passes per frame. */
  const NumAccum: nat := 8

  datatype JitterPoint = JitterPoint(x: real, y: real)

  /** The eight aperture offsets, in the order the passes use them. */
  const Jitter8: seq<JitterPoint> := [
    JitterPoint(-0.334818, 0.435331),
    JitterPoint(0.286438, -0.393495),
    JitterPoint(0.459462, 0.141540),
    JitterPoint(-0.414498, -0.192829),
    JitterPoint(-0.183790, 0.082102),
    JitterPoint(-0.079263, -0.317383),
    JitterPoint(0.102254, 0.299133),
    JitterPoint(0.164216, -0.054399)
  ]

  predicate InAperture(j: JitterPoint) {
    -0.5 < j.x < 0.5 && -0.5 < j.y < 0.5
  }

  /** There is one offset per pass, each inside the unit square centred on the eye. */
  lemma JitterTableInAperture()
    ensures |Jitter8| == NumAccum
    ensures forall i | 0 <= i < |Jitter8| :: InAperture(Jitter8[i])
  {
  }

  /** Where a pass's eye and look-at point are, for `gluLookAt`. */
  datatype View = View(eye: Vec3, look: Vec3)

  /** The fraction `(pos.z - focus) / pos.z` of the way from the eye's depth to depth zero. */
  function FocusRatio(pos: Vec3, focus: real): real
    requires pos.z != 0.0
  {
    (pos.z - focus) / pos.z
  }

  /** The aperture scale of a pass: the focus ratio, but never below 0.1. */
  function EyeJitter(pos: Vec3, focus: real): (ej: real)
    requires pos.z != 0.0
    ensures ej >= 0.1
    ensures FocusRatio(pos, focus) >= 0.1 ==> ej == FocusRatio(pos, focus)
    ensures FocusRatio(pos, focus) < 0.1 ==> ej == 0.1
  {
    var ratio := FocusRatio(pos, focus);
    if ratio < 0.1 then 0.1 else ratio
  }

  /**
    One pass's view. The eye is the camera's, moved in x and y by the jitter offset scaled by
    the aperture and `EyeJitter`. The look-at point keeps the target's x, sits at the focus
    depth, and takes the height where the line from the moved eye to the target's height
    reaches that depth. The source divides by the eye's depth. When that is zero the look-at
    height is never finite, while the look-at x and depth stay finite and the eye may too
    (a ratio of minus infinity is raised to 0.1). The whole pass is `None` here.
   */
  function SampleView(cam: Camera, dbg: DebugInfo, j: JitterPoint): (v: Option<View>)
    ensures v.None? <==> cam.pos.z == 0.0
  {
    if cam.pos.z == 0.0 then None
    else
      var ej := EyeJitter(cam.pos, dbg.focus);
      var eye := Vec3(cam.pos.x + dbg.dof * j.x * ej, cam.pos.y + dbg.dof * j.y * ej, cam.pos.z);
      var lookY := eye.y + (cam.tgt.y - eye.y) * FocusRatio(cam.pos, dbg.focus);
      Some(View(eye, Vec3(cam.tgt.x, lookY, dbg.focus)))
  }

  /**
    The eye stays at the camera's depth and moves sideways by at most half the aperture times
    `EyeJitter` in each of x and y; the look-at point is at the focus depth, straight across
    from the target in x.
   */
  lemma SampleViewShape(cam: Camera, dbg: DebugInfo, j: JitterPoint)
    requires cam.pos.z != 0.0 && InAperture(j) && dbg.dof >= 0.0
    ensures var v := SampleView(cam, dbg, j).value;
      var bound := dbg.dof * EyeJitter(cam.pos, dbg.focus) / 2.0;
      v.eye.z == cam.pos.z
      && Dist(v.eye.x, cam.pos.x) <= bound && Dist(v.eye.y, cam.pos.y) <= bound
      && v.look.z == dbg.focus && v.look.x == cam.tgt.x
  {
    var ej := EyeJitter(cam.pos, dbg.focus);
    OffsetBound(dbg.dof, j.x, ej);
    OffsetBound(dbg.dof, j.y, ej);
  }

  lemma OffsetBound(dof: real, t: real, ej: real)
    requires dof >= 0.0 && -0.5 < t < 0.5 && ej >= 0.0
    ensures Dist(dof * t * ej, 0.0) <= dof * ej / 2.0
  {
    var a := dof * ej;
    assert a >= 0.0;
    assert dof * t * ej == t * a;
    if t >= 0.0 {
      assert 0.0 <= t * a <= 0.5 * a;
    } else {
      assert 0.0 <= -(t * a) == (-t) * a <= 0.5 * a;
    }
    assert Dist(dof * t * ej, 0.0) == Dist(t * a, 0.0) <= 0.5 * a;
  }

  /** With a closed aperture every pass looks from the camera's own position. */
  lemma NoApertureNoJitter(cam: Camera, dbg: DebugInfo, j: JitterPoint)
    requires cam.pos.z != 0.0 && dbg.dof == 0.0
    ensures SampleView(cam, dbg, j).value.eye == cam.pos
  {
  }

  /**
    The sight line of every pass, continued to depth zero, meets the target's height there,
    whatever the jitter: the look-at height is the point of that line at the focus depth.
    Stated for a focus off the eye's depth, where the line is not horizontal.
   */
  lemma SightLineThroughTargetHeight(cam: Camera, dbg: DebugInfo, j: JitterPoint)
    requires cam.pos.z != 0.0 && cam.pos.z != dbg.focus
    ensures var v := SampleView(cam, dbg, j).value;
      v.eye.y + (v.look.y - v.eye.y) * (cam.pos.z / (cam.pos.z - dbg.focus)) == cam.tgt.y
  {
    var v := SampleView(cam, dbg, j).value;
    var r := FocusRatio(cam.pos, dbg.focus);
    var k := cam.pos.z / (cam.pos.z - dbg.focus);
    assert r * k == 1.0;
    assert v.look.y - v.eye.y == (cam.tgt.y - v.eye.y) * r;
    RatioCancels(cam.tgt.y - v.eye.y, r, k);
  }

  lemma RatioCancels(a: real, r: real, k: real)
    requires r * k == 1.0
    ensures a * r * k == a
  {
    assert a * r * k == a * (r * k);
  }

  /**
    With the focus at depth zero and the target on that plane, as the starting view and the
    target clamp box have it, every pass looks exactly at the target.
   */
  lemma FocusAtTargetDepthLooksAtTarget(cam: Camera, dbg: DebugInfo, j: JitterPoint)
    requires cam.pos.z != 0.0 && dbg.focus == 0.0 && cam.tgt.z == 0.0
    ensures SampleView(cam, dbg, j).value.look == cam.tgt
  {
    assert cam.pos.z - dbg.focus == cam.pos.z;
    assert cam.pos.z / cam.pos.z == 1.0;
  }

  /** A focus at the eye's own depth makes the sight line level with the eye. */
  lemma FocusAtEyeDepthIsLevel(cam: Camera, dbg: DebugInfo, j: JitterPoint)
    requires cam.pos.z != 0.0 && dbg.focus == cam.pos.z
    ensures var v := SampleView(cam, dbg, j).value;
      v.look.y == v.eye.y && v.look.z == v.eye.z
  {
    assert FocusRatio(cam.pos, dbg.focus) == 0.0;
  }

  /**
    With the settings the program starts with, from the starting view, every pass looks
    exactly at the target, whatever its jitter; the settings are ones the panel offers.
   */
  lemma StartLooksAtTarget(j: JitterPoint)
    ensures InPanel(DefaultDebug)
    ensures SampleView(Start, DefaultDebug, j).Some?
    ensures SampleView(Start, DefaultDebug, j).value.look == Start.tgt
  {
    FocusAtTargetDepthLooksAtTarget(Start, DefaultDebug, j);
  }

  /**
    The floor of 0.1 on the aperture scale is reached with settings the panel offers and a
    camera inside the clamp region: there the focus ratio is negative.
   */
  lemma PanelReachesJitterFloor(cam: Camera, dbg: DebugInfo)
    requires cam == Camera(Vec3(0.0, 1.0, 1.0), Vec3(0.0, 3.0, 0.0))
    requires dbg == DebugInfo(false, DofMax, FocusMax)
    ensures Clamped(cam) && InPanel(dbg)
    ensures FocusRatio(cam.pos, dbg.focus) < 0.0 && EyeJitter(cam.pos, dbg.focus) == 0.1
  {
    assert FocusRatio(cam.pos, dbg.focus) == -2.5;
  }

  /**
    The clamp box does not rule the division by zero out: a camera the clamp leaves alone
    has no defined view.
   */
  lemma ClampedCameraWithoutView(cam: Camera, dbg: DebugInfo, j: JitterPoint)
    requires cam == Camera(Vec3(0.0, 1.0, 0.0), Vec3(0.0, 0.0, 0.0))
    ensures Clamp(cam) == cam
    ensures SampleView(cam, dbg, j).None?
  {
    ClampFixesExactlyClamped(cam);
    ClampAdmitsZeroDepth();
  }

  // ---------------------------------------------------------------------------------------
  // The accumulation buffer

  /** One colour channel over the pixels of the window. */
  type Image = seq<real>

  /** The sum over the first `n` images of pixel `k`. */
  function SumAt(images: seq<Image>, k: nat, n: nat): real
    requires n <= |images|
    requires forall i | 0 <= i < n :: k < |images[i]|
  {
    if n == 0 then 0.0 else SumAt(images, k, n - 1) + images[n - 1][k]
  }

  predicate SameSize(images: seq<Image>, size: nat) {
    forall i | 0 <= i < |images| :: |images[i]| == size
  }

  /** `glAccum(GL_RETURN, 1.0)` into a fixed-point colour buffer clamps each value to [0, 1]. */
  function ClampUnit(v: real): (r: real)
    ensures 0.0 <= r <= 1.0
    ensures 0.0 <= v <= 1.0 ==> r == v
  {
    if v < 0.0 then 0.0 else if v > 1.0 then 1.0 else v
  }

  /**
    The frame's pixels: the accumulation buffer is cleared, each of the passes adds its image
    weighted by `1 / NumAccum`, and the total is returned at weight 1.
   */
  method Accumulate(images: seq<Image>, size: nat) returns (frame: Image)
    requires |images| == NumAccum && SameSize(images, size)
    ensures |frame| == size
    ensures forall k | 0 <= k < size :: frame[k] == ClampUnit(SumAt(images, k, NumAccum) / NumAccum as real)
  {
    var acc: seq<real> := seq(size, _ => 0.0);
    var i := 0;
    while i < NumAccum
      invariant 0 <= i <= NumAccum
      invariant |acc| == size
      invariant forall k | 0 <= k < size :: acc[k] == SumAt(images, k, i) / NumAccum as real
    {
      acc := seq(size, k requires 0 <= k < size && k < |acc| => acc[k] + images[i][k] * (1.0 / NumAccum as real));
      i := i + 1;
    }
    frame := seq(size, k requires 0 <= k < size && k < |acc| => ClampUnit(acc[k]));
  }

  /** The eight weights of 1/8 add up to one. */
  lemma WeightsSumToOne()
    ensures 1.0 / NumAccum as real * NumAccum as real == 1.0
  {
  }

  lemma {:induction false} SumOfEqual(images: seq<Image>, k: nat, n: nat, v: real)
    requires n <= |images|
    requires forall i | 0 <= i < n :: k < |images[i]| && images[i][k] == v
    ensures SumAt(images, k, n) == n as real * v
  {
    if n > 0 {
      SumOfEqual(images, k, n - 1, v);
    }
  }

  lemma {:induction false} SumInRange(images: seq<Image>, k: nat, n: nat)
    requires n <= |images|
    requires forall i | 0 <= i < n :: k < |images[i]| && 0.0 <= images[i][k] <= 1.0
    ensures 0.0 <= SumAt(images, k, n) <= n as real
  {
    if n > 0 {
      SumInRange(images, k, n - 1);
    }
  }

  /**
    When every pass renders the same value at a pixel (a closed aperture, or a pixel in
    focus), the frame shows that value.
   */
  lemma AccumulateSteadyPixel(images: seq<Image>, k: nat, v: real)
    requires |images| == NumAccum
    requires forall i | 0 <= i < NumAccum :: k < |images[i]| && images[i][k] == v
    requires 0.0 <= v <= 1.0
    ensures ClampUnit(SumAt(images, k, NumAccum) / NumAccum as real) == v
  {
    SumOfEqual(images, k, NumAccum, v);
  }

  /**
    With colour values in [0, 1] the returned value is the plain average of the passes: the
    clamp of the return never cuts anything off.
   */
  lemma AccumulateIsAverage(images: seq<Image>, k: nat)
    requires |images| == NumAccum
    requires forall i | 0 <= i < NumAccum :: k < |images[i]| && 0.0 <= images[i][k] <= 1.0
    ensures ClampUnit(SumAt(images, k, NumAccum) / NumAccum as real) == SumAt(images, k, NumAccum) / NumAccum as real
  {
    SumInRange(images, k, NumAccum);
  }
}
