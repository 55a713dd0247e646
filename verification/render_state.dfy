/**
  The fixed-function OpenGL state that the frame loop switches between its passes: the mask
  draw that marks the floor in the stencil buffer, the mirrored reflection and the flattened
  shadow restricted to the marked pixels, and the direct draw. Draw calls are events that
  record the state they run under; rasterisation itself is not modelled.
 */
module RenderState {
  import opened Wrappers
  import opened Vectors
  import opened Planar
  import opened CameraControl
  import opened DepthOfField

  datatype StencilFunc = Always | Equal
  datatype StencilOp = Replace | Keep
  datatype Face = Front | Back

  /**
    A factor of the modelview matrix, kept symbolic: the camera placement of `gluLookAt`
    (undefined when the view is), the mirror `glScalef(1, -1, 1)`, and the shadow matrix
    multiplied in by `glMultMatrixf`.
   */
  datatype MatOp = LookAt(view: Option<View>) | Mirror | ShadowOf(plane: Vec4, light: Vec4)

  /** The matrix a factor stands for, for the factors with a fixed matrix. */
  function MatrixOf(op: MatOp): Mat4
    requires !op.LookAt?
  {
    match op
    case Mirror => MirrorMatrix
    case ShadowOf(plane, light) => ShadowMatrix(plane, light)
  }

  datatype Rgba = Rgba(r: real, g: real, b: real, a: real)

  /** The colour the shadow pass forces: black at 50% opacity. */
  const HalfBlack: Rgba := Rgba(0.0, 0.0, 0.0, 0.5)

  /**
    The part of the GL state the passes touch. The modelview stack is `below` plus the current
    matrix `top`, so it is never empty; `lightUnder` is the modelview under which the light
    position was last given, which is how GL stores it. `stackError` records a pop that GL
    refused because only one matrix was left. `polygonOffset` is the `GL_POLYGON_OFFSET_FILL`
    enable flag only: the program never calls `glPolygonOffset`, so factor and units stay 0.
   */
  datatype GlState = GlState(
    depthTest: bool,
    colorMask: bool,
    stencilTest: bool,
    stencilFunc: StencilFunc,
    stencilRef: int,
    stencilOp: StencilOp,
    cullFace: Face,
    lighting: bool,
    polygonOffset: bool,
    color: Rgba,
    below: seq<seq<MatOp>>,
    top: seq<MatOp>,
    lightUnder: seq<MatOp>,
    stackError: bool)

  function StackDepth(s: GlState): nat {
    |s.below| + 1
  }

  /** The floor plane and the light the shadow matrix is built from. */
  datatype Scene = Scene(floor: Vec4, light: Vec4)

  const TheScene: Scene := Scene(FloorPlane(), SceneLight)

  /**
    The state after start-up: depth test and back-face culling on, lighting on, the light
    given under the identity modelview, and GL's defaults for the rest (stencil test off,
    function `GL_ALWAYS` with reference 0, operation `GL_KEEP`, current colour white).
   */
  const Initial: GlState :=
    GlState(true, true, false, Always, 0, Keep, Back, true, false, Rgba(1.0, 1.0, 1.0, 1.0), [], [], [], false)

  /**
    The configuration every pass is meant to leave behind: depth test and colour writes on,
    stencil test off, back faces culled, lighting on, no polygon offset.
   */
  predicate NormalConfig(s: GlState) {
    s.depthTest && s.colorMask && !s.stencilTest && s.cullFace == Back && s.lighting && !s.polygonOffset
  }

  lemma InitialIsNormal()
    ensures NormalConfig(Initial) && StackDepth(Initial) == 1 && !Initial.stackError
  {
  }

  // ---------------------------------------------------------------------------------------
  // Matrix stack

  /** `glPushMatrix`: the current matrix is duplicated. */
  function Push(s: GlState): (r: GlState)
    ensures StackDepth(r) == StackDepth(s) + 1
    ensures r.top == s.top && r.below == s.below + [s.top]
  {
    s.(below := s.below + [s.top])
  }

  /** `glPopMatrix`: the matrix below becomes current; with one matrix left GL only flags an error. */
  function Pop(s: GlState): (r: GlState)
    ensures |s.below| > 0 ==> StackDepth(r) == StackDepth(s) - 1 && r.stackError == s.stackError
    ensures |s.below| > 0 ==> r.top == s.below[|s.below| - 1] && r.below + [r.top] == s.below
    ensures |s.below| == 0 ==> r == s.(stackError := true)
  {
    if |s.below| == 0 then s.(stackError := true)
    else s.(below := s.below[..|s.below| - 1], top := s.below[|s.below| - 1])
  }

  /** Pushing and then popping gives back the state, matrices and all. */
  lemma PopUndoesPush(s: GlState)
    ensures Pop(Push(s)) == s
  {
    assert (s.below + [s.top])[..|s.below|] == s.below;
  }

  /**
    A factor multiplied in after a push is gone after the pop: the bracket `glPushMatrix`,
    `glScalef` or `glMultMatrixf`, `glPopMatrix` leaves the stack as it found it.
   */
  lemma PopDiscardsFactor(s: GlState, op: MatOp)
    ensures Pop(MultTop(Push(s), op)) == s
  {
    assert (s.below + [s.top])[..|s.below|] == s.below;
  }

  /** The configuration switches and the colour: everything but the matrices. */
  predicate SameSwitches(a: GlState, b: GlState) {
    a.depthTest == b.depthTest && a.colorMask == b.colorMask && a.stencilTest == b.stencilTest
    && a.stencilFunc == b.stencilFunc && a.stencilRef == b.stencilRef && a.stencilOp == b.stencilOp
    && a.cullFace == b.cullFace && a.lighting == b.lighting && a.polygonOffset == b.polygonOffset
    && a.color == b.color
  }

  /**
    The matrix-stack calls and the light placement touch no switch; only a push or a pop
    changes the depth, and only the light placement changes where the light is.
   */
  lemma MatrixCallsKeepSwitches(s: GlState, op: MatOp)
    ensures SameSwitches(Push(s), s) && Push(s).lightUnder == s.lightUnder
    ensures SameSwitches(Pop(s), s) && Pop(s).lightUnder == s.lightUnder
    ensures SameSwitches(MultTop(s, op), s) && MultTop(s, op).lightUnder == s.lightUnder
    ensures StackDepth(MultTop(s, op)) == StackDepth(s)
    ensures SameSwitches(SetLight(s), s) && SetLight(s).top == s.top && SetLight(s).below == s.below
  {
    if |s.below| > 0 {
      assert Pop(s) == s.(below := s.below[..|s.below| - 1], top := s.below[|s.below| - 1]);
    }
  }

  /** Right-multiplying the current matrix by a factor, as `glScalef` and `glMultMatrixf` do. */
  function MultTop(s: GlState, op: MatOp): (r: GlState)
    ensures r.top == s.top + [op] && r.below == s.below
  {
    s.(top := s.top + [op])
  }

  /** `glLightfv(GL_LIGHT0, GL_POSITION, ...)`: the position is fixed under the current modelview. */
  function SetLight(s: GlState): (r: GlState)
    ensures r.lightUnder == s.top
  {
    s.(lightUnder := s.top)
  }

  // ---------------------------------------------------------------------------------------
  // The state helpers of the frame loop

  /** Start of a pass: `glLoadIdentity` then `gluLookAt`. */
  function BeginSample(s: GlState, view: Option<View>): GlState {
    s.(top := [LookAt(view)])
  }

  /** `display_axis` turns lighting and the depth test on before drawing the axes. */
  function AxisSetup(s: GlState): GlState {
    s.(lighting := true, depthTest := true)
  }

  /** `set_stencil_one_before`: write 1 into the stencil buffer, nothing into colour or depth. */
  function StencilOneBefore(s: GlState): GlState {
    s.(depthTest := false, colorMask := false, stencilTest := true,
       stencilOp := Replace, stencilFunc := Always, stencilRef := 1)
  }

  /** `set_stencil_one_after`: colour writes and the depth test back on. */
  function StencilOneAfter(s: GlState): GlState {
    s.(colorMask := true, depthTest := true)
  }

  /** `set_stencil_if_one_before`: draw only where the stencil holds 1, and keep it. */
  function StencilIfOneBefore(s: GlState): GlState {
    s.(stencilFunc := Equal, stencilRef := 1, stencilOp := Keep)
  }

  /** `set_stencil_if_one_after`: stencil test off. */
  function StencilIfOneAfter(s: GlState): GlState {
    s.(stencilTest := false)
  }

  /** `set_reflection_before`: depth test off, push, mirror, and place the light in the mirror. */
  function ReflectionBefore(s: GlState): GlState {
    SetLight(MultTop(Push(s.(depthTest := false)), Mirror))
  }

  /** `set_reflection_after`: pop the mirror and place the light again. The depth test stays off. */
  function ReflectionAfter(s: GlState): GlState {
    SetLight(Pop(s))
  }

  /**
    `set_shadow_before`: polygon-offset fill enabled, lighting off, colour half black, push,
    multiply by the shadow matrix of the floor and the light, and cull front faces.
   */
  function ShadowBefore(s: GlState, sc: Scene): GlState {
    var t := s.(polygonOffset := true, lighting := false, color := HalfBlack);
    MultTop(Push(t), ShadowOf(sc.floor, sc.light)).(cullFace := Front)
  }

  /**
    `set_shadow_after`: cull back faces, pop, lighting on, polygon-offset fill disabled, depth
    test on.
   */
  function ShadowAfter(s: GlState): GlState {
    Pop(s.(cullFace := Back)).(lighting := true, polygonOffset := false, depthTest := true)
  }

  function SetCull(s: GlState, f: Face): GlState {
    s.(cullFace := f)
  }

  // ---------------------------------------------------------------------------------------
  // One pass of the frame loop

  datatype DrawKind = Axis | Floor | FloorMask | Reflection | Shadow | Actor

  /** A draw call and the state it runs under. */
  datatype Draw = Draw(kind: DrawKind, st: GlState)

  datatype Pass = Pass(state: GlState, draws: seq<Draw>)

  /**
    One jittered pass: the axes, the floor, the floor again into the stencil only, the
    reflected actors and their shadows on the marked pixels, then the actors themselves with
    front faces culled (the teapot's winding is reversed).
   */
  function Sample(s: GlState, sc: Scene, view: Option<View>): Pass {
    var s1 := AxisSetup(BeginSample(s, view));
    var dAxis := Draw(Axis, s1);
    var dFloor := Draw(Floor, s1);
    var s2 := StencilOneBefore(s1);
    var dMask := Draw(FloorMask, s2);
    var s3 := ReflectionBefore(StencilIfOneBefore(StencilOneAfter(s2)));
    var dRefl := Draw(Reflection, s3);
    var s4 := ShadowBefore(ReflectionAfter(s3), sc);
    var dShadow := Draw(Shadow, s4);
    var s5 := SetCull(StencilIfOneAfter(ShadowAfter(s4)), Front);
    var dActor := Draw(Actor, s5);
    Pass(SetCull(s5, Back), [dAxis, dFloor, dMask, dRefl, dShadow, dActor])
  }

  // ---------------------------------------------------------------------------------------
  // The discipline the passes are meant to follow

  const PassOrder: seq<DrawKind> := [Axis, Floor, FloorMask, Reflection, Shadow, Actor]

  /** Ordinary drawing: depth-tested, lit, colour written, no stencil test. */
  predicate Plain(st: GlState) {
    st.depthTest && st.colorMask && !st.stencilTest && st.lighting
  }

  /** Marking: every fragment writes 1 into the stencil and nothing else. */
  predicate Marking(st: GlState) {
    st.stencilTest && st.stencilFunc == Always && st.stencilRef == 1 && st.stencilOp == Replace
    && !st.colorMask && !st.depthTest
  }

  /** Restricted to the marked pixels, leaving the marks alone, without depth testing. */
  predicate Restricted(st: GlState) {
    st.stencilTest && st.stencilFunc == Equal && st.stencilRef == 1 && st.stencilOp == Keep
    && st.colorMask && !st.depthTest
  }

  /**
    The six draws of a pass for `view`, in order, each under the state it should have. The
    axes and the floor are lit with the light wherever it was last placed (`stale`).
   */
  predicate Disciplined(draws: seq<Draw>, view: Option<View>, sc: Scene, stale: seq<MatOp>) {
    var eye := [LookAt(view)];
    |draws| == |PassOrder|
    && (forall i | 0 <= i < |draws| :: draws[i].kind == PassOrder[i])
    && Plain(draws[0].st) && draws[0].st.cullFace == Back
    && draws[0].st.top == eye && draws[0].st.lightUnder == stale
    && Plain(draws[1].st) && draws[1].st.cullFace == Back
    && draws[1].st.top == eye && draws[1].st.lightUnder == stale
    && Marking(draws[2].st) && draws[2].st.top == eye
    && Restricted(draws[3].st) && draws[3].st.lighting && draws[3].st.cullFace == Back
    && draws[3].st.top == eye + [Mirror] && draws[3].st.lightUnder == eye + [Mirror]
    && Restricted(draws[4].st) && !draws[4].st.lighting && draws[4].st.cullFace == Front
    && draws[4].st.polygonOffset && draws[4].st.color == HalfBlack
    && draws[4].st.top == eye + [ShadowOf(sc.floor, sc.light)] && draws[4].st.lightUnder == eye
    && Plain(draws[5].st) && draws[5].st.cullFace == Front
    && draws[5].st.top == eye && draws[5].st.lightUnder == eye
  }

  /** From the normal configuration a pass draws by the discipline. */
  lemma SampleIsDisciplined(s: GlState, sc: Scene, view: Option<View>)
    requires NormalConfig(s)
    ensures Disciplined(Sample(s, sc, view).draws, view, sc, s.lightUnder)
  {
  }

  /**
    A pass puts everything it changed in the configuration back, keeps the matrix stack at
    its depth without a refused pop, and leaves the camera placement current with the light
    placed under it.
   */
  lemma SampleRestoresState(s: GlState, sc: Scene, view: Option<View>)
    requires NormalConfig(s)
    ensures var r := Sample(s, sc, view).state;
      NormalConfig(r) && r.below == s.below && StackDepth(r) == StackDepth(s)
      && r.stackError == s.stackError
      && r.top == [LookAt(view)] && r.lightUnder == [LookAt(view)]
  {
  }

  /**
    The stencil function, reference, operation and the current colour are not put back; they
    only matter while the stencil test or lighting is off. From the second pass on, a pass
    changes nothing but the camera placement and the light placed under it, both of which
    become its own view; a pass repeated with the same view changes nothing at all.
   */
  lemma SampleIsSteady(s: GlState, sc: Scene, v1: Option<View>, v2: Option<View>)
    requires NormalConfig(s)
    ensures var r := Sample(s, sc, v1).state;
      Sample(r, sc, v2).state == r.(top := [LookAt(v2)], lightUnder := [LookAt(v2)])
      && (v1 == v2 ==> Sample(r, sc, v2).state == r)
      && r.stencilFunc == Equal && r.stencilRef == 1 && r.stencilOp == Keep && r.color == HalfBlack
  {
    SampleRestoresState(s, sc, v1);
    SampleRestoresState(Sample(s, sc, v1).state, sc, v2);
  }

  /** The first pass from start-up is not exact: GL's default stencil settings and colour are lost. */
  lemma FirstSampleChangesDefaults(sc: Scene, view: Option<View>)
    ensures Sample(Initial, sc, view).state.stencilFunc != Initial.stencilFunc
    ensures Sample(Initial, sc, view).state.color != Initial.color
  {
  }

  /**
    The axes and floor of a pass are lit by the light as placed under the previous pass's
    camera, which differs from this pass's by the jitter.
   */
  lemma AxesLitFromPreviousView(s: GlState, sc: Scene, v1: Option<View>, v2: Option<View>)
    requires NormalConfig(s)
    ensures var d := Sample(Sample(s, sc, v1).state, sc, v2).draws;
      d[0].st.lightUnder == [LookAt(v1)] && d[1].st.lightUnder == [LookAt(v1)]
  {
    SampleRestoresState(s, sc, v1);
    SampleIsDisciplined(Sample(s, sc, v1).state, sc, v2);
  }

  /**
    Every vertex of the shadow draw is flattened onto the floor before the camera transform:
    the last factor of its modelview is the shadow matrix, whose image lies on the plane.
   */
  lemma ShadowDrawLandsOnFloor(s: GlState, sc: Scene, view: Option<View>, p: Vec4)
    requires NormalConfig(s)
    ensures var st := Sample(s, sc, view).draws[4].st;
      |st.top| == 2 && st.top[1] == ShadowOf(sc.floor, sc.light)
      && Dot4(sc.floor, Transform(MatrixOf(st.top[1]), p)) == 0.0
  {
    SampleIsDisciplined(s, sc, view);
    ShadowLandsOnPlane(sc.floor, sc.light, p);
  }

  /**
    The reflection draw mirrors every vertex across the floor y = 0 (the plane (0, 2, 0, 0)
    the renderer computes) before the camera transform, and its light is mirrored with it.
   */
  lemma ReflectionDrawMirrorsAcrossFloor(s: GlState, sc: Scene, view: Option<View>, floor: Vec4, q: Vec3)
    requires NormalConfig(s) && floor == Vec4(0.0, 2.0, 0.0, 0.0)
    ensures var st := Sample(s, sc, view).draws[3].st;
      |st.top| == 2 && st.top[1] == Mirror && st.lightUnder == st.top
      && var m := Transform(MatrixOf(st.top[1]), Point(q));
      m.w == 1.0 && Evaluate(floor, Vec3(m.x, m.y, m.z)) == -Evaluate(floor, q)
  {
    SampleIsDisciplined(s, sc, view);
    MirrorReflectsAcrossFloor(MirrorMatrix, floor, q);
  }

  /**
    In the scene as built (the floor plane `find_plane` gives and the light at (15, 15, 15)),
    every vertex of the shadow draw is flattened to height 0 before the camera transform.
   */
  lemma SceneShadowDrawIsFlat(s: GlState, view: Option<View>, p: Vec4)
    requires NormalConfig(s)
    ensures var st := Sample(s, TheScene, view).draws[4].st;
      |st.top| == 2 && st.top[1] == ShadowOf(FloorPlane(), SceneLight)
      && Transform(MatrixOf(st.top[1]), p).y == 0.0
  {
    var st := Sample(s, TheScene, view).draws[4].st;
    assert |st.top| == 2 && st.top[1] == ShadowOf(FloorPlane(), SceneLight) by {
      SampleIsDisciplined(s, TheScene, view);
    }
    SceneFloorShadow(SceneLight, p);
  }

  // ---------------------------------------------------------------------------------------
  // A whole frame

  /** Where the light was last placed when pass `k` begins: by the previous pass, or before the frame. */
  function LightBefore(views: seq<Option<View>>, first: seq<MatOp>, k: nat): seq<MatOp>
    requires k <= |views|
  {
    if k == 0 then first else [LookAt(views[k - 1])]
  }

  /** Each pass of a frame drew by the discipline. */
  predicate PassesDisciplined(passes: seq<seq<Draw>>, views: seq<Option<View>>, sc: Scene, first: seq<MatOp>)
    requires |passes| <= |views|
  {
    forall k | 0 <= k < |passes| :: Disciplined(passes[k], views[k], sc, LightBefore(views, first, k))
  }

  /** One more pass keeps the frame disciplined and the configuration normal. */
  lemma NextPass(r: GlState, sc: Scene, views: seq<Option<View>>, first: seq<MatOp>, passes: seq<seq<Draw>>)
    requires |passes| < |views| && NormalConfig(r) && r.lightUnder == LightBefore(views, first, |passes|)
    requires PassesDisciplined(passes, views, sc, first)
    ensures var p := Sample(r, sc, views[|passes|]);
      NormalConfig(p.state) && p.state.below == r.below && p.state.stackError == r.stackError
      && p.state.lightUnder == LightBefore(views, first, |passes| + 1)
      && PassesDisciplined(passes + [p.draws], views, sc, first)
  {
    var p := Sample(r, sc, views[|passes|]);
    SampleIsDisciplined(r, sc, views[|passes|]);
    SampleRestoresState(r, sc, views[|passes|]);
    AppendDisciplined(passes, views, sc, first, p.draws);
  }

  lemma AppendDisciplined(passes: seq<seq<Draw>>, views: seq<Option<View>>, sc: Scene, first: seq<MatOp>,
                          d: seq<Draw>)
    requires |passes| < |views| && PassesDisciplined(passes, views, sc, first)
    requires Disciplined(d, views[|passes|], sc, LightBefore(views, first, |passes|))
    ensures PassesDisciplined(passes + [d], views, sc, first)
  {
    var all := passes + [d];
    forall k | 0 <= k < |all|
      ensures Disciplined(all[k], views[k], sc, LightBefore(views, first, k))
    {
      if k < |passes| {
        assert all[k] == passes[k];
      }
    }
  }

  /** The pass views of a frame: one per jitter offset, in order. */
  function FrameViews(cam: Camera, dbg: DebugInfo): (views: seq<Option<View>>)
    ensures |views| == NumAccum
    ensures forall i | 0 <= i < NumAccum :: views[i] == SampleView(cam, dbg, Jitter8[i])
  {
    JitterTableInAperture();
    seq(NumAccum, i requires 0 <= i < NumAccum => SampleView(cam, dbg, Jitter8[i]))
  }

  /**
    The frame loop of `display`: eight jittered passes, one after the other. Every pass draws
    by the discipline, with the light of the pass before, and the frame ends in the normal
    configuration with the stack as it started.
   */
  method RenderFrame(s: GlState, sc: Scene, cam: Camera, dbg: DebugInfo) returns (r: GlState, passes: seq<seq<Draw>>)
    requires NormalConfig(s)
    ensures NormalConfig(r) && r.below == s.below && r.stackError == s.stackError
    ensures |passes| == NumAccum
    ensures PassesDisciplined(passes, FrameViews(cam, dbg), sc, s.lightUnder)
  {
    var views := FrameViews(cam, dbg);
    r := s;
    passes := [];
    while |passes| < NumAccum
      invariant |passes| <= NumAccum
      invariant NormalConfig(r) && r.below == s.below && r.stackError == s.stackError
      invariant r.lightUnder == LightBefore(views, s.lightUnder, |passes|)
      invariant PassesDisciplined(passes, views, sc, s.lightUnder)
    {
      var draws;
      r, draws := RunPass(r, sc, views, s.lightUnder, passes);
      passes := passes + [draws];
    }
  }

  /** One iteration of the frame loop: the pass for the next view, from state `r`. */
  method RunPass(r: GlState, sc: Scene, views: seq<Option<View>>, first: seq<MatOp>, passes: seq<seq<Draw>>)
    returns (next: GlState, draws: seq<Draw>)
    requires |passes| < |views| && NormalConfig(r) && r.lightUnder == LightBefore(views, first, |passes|)
    requires PassesDisciplined(passes, views, sc, first)
    ensures NormalConfig(next) && next.below == r.below && next.stackError == r.stackError
    ensures next.lightUnder == LightBefore(views, first, |passes| + 1)
    ensures PassesDisciplined(passes + [draws], views, sc, first)
  {
    var pass := Sample(r, sc, views[|passes|]);
    NextPass(r, sc, views, first, passes);
    next, draws := pass.state, pass.draws;
  }
}
