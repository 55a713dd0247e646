# Water-surface-wavelets demo: geometry, camera, render state and screenshots in Dafny

The demo is a single GLUT/OpenGL program (`src/water-surface-wavelets.cpp`). It draws a row
of teapots over a checkered floor. The floor shows their stencil-masked mirror reflection
and their flattened planar shadow. Each frame is rendered eight times from a jittered eye
and averaged, which gives depth of field. Its water simulation is empty, so this model
covers the logic that does exist:

- **Planar geometry** (`planar.dfy`, module `Planar`):
  - `find_plane`, the plane through three points;
  - `calc_shadow_matrix`, the point-light flattening matrix, stored column-major as
    `glMultMatrixf` reads it;
  - the `glScalef(1, -1, 1)` mirror of the reflection pass.
- **Camera** (`camera.dfy`, module `CameraControl`): the box clamp, the guarded zoom about
  the target, and the reset to the starting view.
- **Depth of field** (`depth_of_field.dfy`, module `DepthOfField`):
  - the per-pass eye and look-at point computed from the camera, the aperture, the focus
    depth and the jitter table;
  - the accumulation of the eight passes at weight 1/8.
- **Render state** (`render_state.dfy`, module `RenderState`):
  - the part of the fixed-function GL state that the frame loop switches (depth test, colour
    mask, stencil test, function and operation, culled face, lighting, polygon offset, current
    colour, the modelview stack and the modelview the light position was given under);
  - the `set_*_before/after` helpers as transformers of that record;
  - a pass as the sequence of draw events with the state each runs under, and a frame as
    eight passes.
- **Screenshots** (`ppm.dfy`, module `Ppm`): `write_ppm`, which writes the read-back buffer
  as a binary Netpbm file: a P6 pixmap for colour, a P5 graymap for depth. It writes the
  header, then the rows top first, taking the first three bytes of each RGBA pixel or the
  single depth byte.

Shared support: `vectors.dfy` (`Vec3`, `Vec4`, column-major `Mat4` over `real`) and
`wrappers.dfy` (`Option`).

All arithmetic is over exact `real`s. Each file starts with the operation as the source
performs it. Then come lemmas that connect it to an independent description of what it is
for:

- the plane contains its points;
- the shadow lands on the plane, on the ray from the light;
- the clamp is the nearest point of the box;
- the look-at point lies on the line through the target height;
- the frame keeps the stencil/reflection/shadow discipline;
- the header parses back;
- the body is the image top row first.

## Model

| member | source | states |
|---|---|---|
| Planar.FindPlaneContainsPoints | src/water-surface-wavelets.cpp:554-561 | all three input points satisfy the found plane's equation, and its normal is the cross product of the edges `v1 - v0` and `v2 - v0` |
| Planar.OnFoundPlaneIff | src/water-surface-wavelets.cpp:557-560 | a point is on the found plane exactly when its offset from `v0` is orthogonal to the normal, so `d` places the plane through `v0` |
| Planar.FindPlaneSwap | src/water-surface-wavelets.cpp:554-561 | exchanging the last two points negates all four coefficients |
| Planar.FindPlaneRotate | src/water-surface-wavelets.cpp:554-561 | rotating the three points cyclically gives the same plane |
| Planar.CrossOrthogonal | src/water-surface-wavelets.cpp:557-559 | the normal formula is orthogonal to both edges |
| Planar.FloorPlaneIsUpward | src/water-surface-wavelets.cpp:656-659 | the floor points give the plane (0, 2, 0, 0): y = 0 with an upward, non-unit normal |
| Planar.OnFloorIff | src/water-surface-wavelets.cpp:656-659 | a point is on the floor exactly when its height is 0 |
| Planar.ShadowIsCombination | src/water-surface-wavelets.cpp:563-584 | the matrix the sixteen assignments build, read column-major as `glMultMatrixf` does, maps `p` to `(P . L) p - (P . p) L`, i.e. it is `(P . L) I - L P^T` |
| Planar.ShadowLandsOnPlane | src/water-surface-wavelets.cpp:563-584 | for every homogeneous point and light, the flattened point satisfies the plane equation |
| Planar.ShadowFixesPlanePoints | src/water-surface-wavelets.cpp:563-584 | a point already on the plane maps to itself scaled by `P . L` |
| Planar.ShadowCollapsesLight | src/water-surface-wavelets.cpp:563-584 | the light maps to the zero vector |
| Planar.ShadowOnLightRay | src/water-surface-wavelets.cpp:563-584 | for an affine point and a positional light, the flattened point is, up to its w, where the line from the light through the point meets the plane |
| Planar.FloorShadow | src/water-surface-wavelets.cpp:563-584 | on the floor plane (0, 2, 0, 0) the shadow of `p` is `2 (L.y p - p.y L)`, with height 0 |
| Planar.SceneFloorShadow | src/water-surface-wavelets.cpp:656-659 | with the floor the renderer computes, every shadow vertex has height 0 |
| Planar.MirrorReflectsAcrossFloor | src/water-surface-wavelets.cpp:800 | `glScalef(1, -1, 1)` maps each point to the other side of the floor: plane value negated, midpoint on the floor, displacement along the normal |
| CameraControl.ClampValue | src/water-surface-wavelets.cpp:117-121 | `glm::clamp` returns a value inside the bounds, equal to the input when the input is inside, and a bound otherwise |
| CameraControl.ClampValueNearest | src/water-surface-wavelets.cpp:117-121 | the clamped value is a nearest value of the interval to the input |
| CameraControl.Clamp | src/water-surface-wavelets.cpp:116-122 | afterwards the eye is in its box and the target's x and y are in theirs; the target's z is untouched |
| CameraControl.ClampFixesExactlyClamped | src/water-surface-wavelets.cpp:116-122 | the clamp leaves a camera unchanged exactly when it is already inside the region |
| CameraControl.ClampIdempotent | src/water-surface-wavelets.cpp:116-122 | clamping twice is clamping once |
| CameraControl.ClampIsNearest | src/water-surface-wavelets.cpp:116-122 | coordinate by coordinate, the clamped camera is at least as close to the original as any camera in the region with the same target depth |
| CameraControl.ClampKeepsTargetDepth | src/water-surface-wavelets.cpp:120-121 | a target depth outside the nominal [0, 0] bounds survives the clamp |
| CameraControl.ClampAdmitsZeroDepth | src/water-surface-wavelets.cpp:66-67 | the eye box contains eye positions at depth 0 |
| CameraControl.HandleZoom | src/water-surface-wavelets.cpp:93-100 | the target never moves; a refused step leaves the camera alone; otherwise the eye offset from the target is scaled by `1 - 0.03 d` |
| CameraControl.ZoomZeroIsIdentity | src/water-surface-wavelets.cpp:93-100 | a step of 0 changes nothing |
| CameraControl.ZoomScalesDistance | src/water-surface-wavelets.cpp:93-100 | an accepted step multiplies the squared eye-target distance by `(1 - 0.03 d)^2` |
| CameraControl.ZoomDirection | src/water-surface-wavelets.cpp:93-100 | a positive step of at most 200/3 never moves the eye away, and a negative step never moves it closer |
| CameraControl.ZoomCanPassTarget | src/water-surface-wavelets.cpp:93-100 | a step above 100/3 puts the eye on the far side of the target |
| CameraControl.ZoomCanEnterDeadZone | src/water-surface-wavelets.cpp:95-99 | from distance 0.3, a step of 30 is accepted and lands at distance 0.03, inside the dead zone |
| CameraControl.Reset | src/water-surface-wavelets.cpp:123-131 | whatever the camera was, the eye goes to (0, 1.6, 15) and the target to (0, 3, 0), the test scene's pose; that view is inside the clamp region and a fixed point of the clamp |
| CameraControl.ResetZoomsOnlyIn | src/water-surface-wavelets.cpp:93-131 | right after a reset the eye is farther than 5, so zooming out is refused and zooming in is accepted |
| DepthOfField.JitterTableInAperture | src/water-surface-wavelets.cpp:826-837 | there is one offset per pass, each inside the unit square centred on the eye |
| DepthOfField.EyeJitter | src/water-surface-wavelets.cpp:846-847 | the aperture scale is at least 0.1: the focus ratio when that is at least 0.1, else 0.1 |
| DepthOfField.SampleView | src/water-surface-wavelets.cpp:845-853 | a pass has a view exactly when the eye's depth is non-zero |
| DepthOfField.SampleViewShape | src/water-surface-wavelets.cpp:845-853 | the eye keeps the camera's depth and moves by at most half the aperture times the scale in x and in y; the look-at point is at the focus depth with the target's x |
| DepthOfField.NoApertureNoJitter | src/water-surface-wavelets.cpp:848-849 | with aperture 0 every pass looks from the camera's own eye |
| DepthOfField.SightLineThroughTargetHeight | src/water-surface-wavelets.cpp:850-853 | every pass's sight line, continued to depth 0, meets the target's height, whatever the jitter |
| DepthOfField.FocusAtTargetDepthLooksAtTarget | src/water-surface-wavelets.cpp:850-853 | with focus 0 and the target at depth 0, every pass looks exactly at the target |
| DepthOfField.FocusAtEyeDepthIsLevel | src/water-surface-wavelets.cpp:852-853 | a focus at the eye's depth gives a level sight line |
| DepthOfField.StartLooksAtTarget | src/water-surface-wavelets.cpp:845-853 | with the start-up settings (aperture 0.1, focus 0, line 76), which the panel offers, every pass from the starting view looks exactly at the target |
| DepthOfField.PanelReachesJitterFloor | src/water-surface-wavelets.cpp:846-847 | with panel settings and a clamped camera the focus ratio can be negative, and the aperture scale is then the floor 0.1 |
| DepthOfField.ClampedCameraWithoutView | src/water-surface-wavelets.cpp:845-853 | a camera the clamp leaves alone can have eye depth 0 and so no defined view |
| DepthOfField.ClampUnit | src/water-surface-wavelets.cpp:882 | returning the accumulation buffer yields values in [0, 1], unchanged when already there |
| DepthOfField.Accumulate | src/water-surface-wavelets.cpp:880-882 | each frame pixel is the clamped sum of the passes' values weighted by 1/8 |
| DepthOfField.WeightsSumToOne | src/water-surface-wavelets.cpp:880 | the eight weights of 1/8 add up to 1 |
| DepthOfField.SumOfEqual | src/water-surface-wavelets.cpp:880 | n passes with the same value v sum to n v |
| DepthOfField.SumInRange | src/water-surface-wavelets.cpp:880 | n passes with values in [0, 1] sum to a value in [0, n] |
| DepthOfField.AccumulateSteadyPixel | src/water-surface-wavelets.cpp:880-882 | a pixel that all passes render alike shows that value |
| DepthOfField.AccumulateIsAverage | src/water-surface-wavelets.cpp:880-882 | with values in [0, 1] the frame pixel is the plain average of the passes |
| RenderState.InitialIsNormal | src/water-surface-wavelets.cpp:608-617 | after start-up the state is the normal configuration with one matrix on the stack |
| RenderState.Pop | src/water-surface-wavelets.cpp:818 | `glPopMatrix` makes the matrix below current and removes it from below, one level shallower; with one matrix left it only flags an error |
| RenderState.PopDiscardsFactor | src/water-surface-wavelets.cpp:797-822 | a push, a factor multiplied in, and a pop leave the state exactly as before, as the reflection and shadow brackets do |
| RenderState.MatrixCallsKeepSwitches | src/water-surface-wavelets.cpp:797-822 | the push, pop, multiply and light-placement calls change none of the switches or the colour; only the light placement moves the light, and it leaves the stack alone |
| RenderState.PopUndoesPush | src/water-surface-wavelets.cpp:799-804 | a pop after a push restores the state |
| RenderState.SampleIsDisciplined | src/water-surface-wavelets.cpp:779-878 | from the normal configuration, the six draws come in order, each under its intended state: the mask draw writes stencil 1 with colour and depth off; reflection and shadow are restricted to stencil 1 with depth off; the shadow is unlit, half black, front-culled, with polygon-offset fill enabled; the direct draw has the stencil test off |
| RenderState.SampleRestoresState | src/water-surface-wavelets.cpp:779-878 | a pass returns to the normal configuration at the same stack depth, with its camera placement current and the light under it |
| RenderState.SampleIsSteady | src/water-surface-wavelets.cpp:790-811 | the stencil function, operation and current colour are left changed; from the second pass on, a pass with any view changes only the camera placement and the light under it, both to its own view, and a pass with the same view changes nothing |
| RenderState.FirstSampleChangesDefaults | src/water-surface-wavelets.cpp:790-811 | the first pass after start-up does not restore GL's default stencil function and colour |
| RenderState.AxesLitFromPreviousView | src/water-surface-wavelets.cpp:797-806 | the axes and floor of a pass are lit with the light as placed under the previous pass's camera |
| RenderState.ShadowDrawLandsOnFloor | src/water-surface-wavelets.cpp:807-815 | the shadow draw's last modelview factor is the shadow matrix, whose image lies on the floor plane |
| RenderState.ReflectionDrawMirrorsAcrossFloor | src/water-surface-wavelets.cpp:797-802 | the reflection draw mirrors every vertex across the floor, and its light is placed under the mirror |
| RenderState.SceneShadowDrawIsFlat | src/water-surface-wavelets.cpp:807-815 | with the floor `find_plane` gives and the scene light, the shadow draw flattens every vertex to height 0 |
| RenderState.NextPass | src/water-surface-wavelets.cpp:840-881 | one more pass keeps every pass of the frame disciplined and the configuration normal |
| RenderState.RenderFrame | src/water-surface-wavelets.cpp:840-881 | the eight passes of `display` all keep the discipline, and the frame ends in the normal configuration at the same stack depth |
| Ppm.Decimal | src/water-surface-wavelets.cpp:355 | `%u` prints at least one digit and no leading zero |
| Ppm.DecimalValue | src/water-surface-wavelets.cpp:355 | the printed digits read back as the number |
| Ppm.ParseDecimal | src/water-surface-wavelets.cpp:355 | a printed number followed by a non-digit parses back as itself and the rest |
| Ppm.SizeRoundTrip | src/water-surface-wavelets.cpp:355 | the size line parses back as the width and height |
| Ppm.MagicRoundTrip | src/water-surface-wavelets.cpp:354 | the first line parses back as the format written |
| Ppm.MaxValueRoundTrip | src/water-surface-wavelets.cpp:356 | the maximum-value line is recognised and skipped |
| Ppm.HeaderRoundTrip | src/water-surface-wavelets.cpp:354-356 | the header followed by any body parses back as the format, width, height and that body |
| Ppm.HeaderInjective | src/water-surface-wavelets.cpp:354-356 | different formats or sizes give different headers |
| Ppm.ReadInside | src/water-surface-wavelets.cpp:359-364 | when the buffer fits the traversal, every pixel read, alpha included, lies inside it |
| Ppm.WriteRow | src/water-surface-wavelets.cpp:358-371 | the inner loop emits output row `y` pixel by pixel |
| Ppm.WriteBody | src/water-surface-wavelets.cpp:357-372 | the two loops emit the body of `h` rows of `w * Channels` bytes |
| Ppm.RowLength | src/water-surface-wavelets.cpp:358-371 | `n` pixels give `n * Channels` bytes |
| Ppm.BodyLength | src/water-surface-wavelets.cpp:357-372 | the body has `m * w * 3` bytes for RGBA and `m * w` for depth |
| Ppm.RowIndex | src/water-surface-wavelets.cpp:358-370 | byte `c` of pixel `x` of an output row is byte `c` of that pixel in the buffer |
| Ppm.BodyIndex | src/water-surface-wavelets.cpp:357-370 | body byte `(y w + x) Channels + c` is byte `c` of pixel `x` of buffer row `h - 1 - y` |
| Ppm.Align4 | src/water-surface-wavelets.cpp:382 | the packed row length is the least multiple of 4 not below the row's bytes |
| Ppm.RowMatches | src/water-surface-wavelets.cpp:358-370 | reading a buffer that holds the image, output row `y` is image row `h - 1 - y` with alpha dropped |
| Ppm.TraversalFaithful | src/water-surface-wavelets.cpp:357-372 | reading with the stride the image was stored at, the body is the image top row first, alpha dropped |
| Ppm.AllocationFits | src/water-surface-wavelets.cpp:377-383 | the `w * h * 4` bytes allocated hold every pixel read, for either format and either stride |
| Ppm.RgbaStridesAgree | src/water-surface-wavelets.cpp:359 | for colour, the writer's row stride equals the packed one |
| Ppm.DepthStridesAgreeIff | src/water-surface-wavelets.cpp:359 | for depth, the strides agree exactly when the width is a multiple of 4 |
| Ppm.WritePpm | src/water-surface-wavelets.cpp:344-375 | the file as written: no read leaves the allocation, and the file parses as the header followed by the body read with stride `w * pix_sz` |
| Ppm.WritePpmPacked | src/water-surface-wavelets.cpp:344-375 | the corrected file: the same, with the body read at the packed stride |
| Ppm.PackedFileFaithful | src/water-surface-wavelets.cpp:357-372 | the corrected body is the read-back image top row first, alpha dropped, for both formats |
| Ppm.RgbaFileFaithful | src/water-surface-wavelets.cpp:357-372 | the colour screenshot as written is faithful |
| Ppm.DepthStrideShearsNarrowWindow | src/water-surface-wavelets.cpp:357-372 | for a depth window 3 wide and 2 high, the body as written starts 0 4 5 where the image's top row is 4 5 6 |

## Left out

- Window, input and UI glue: `main`, `reshape`, `idle`, mouse, motion and keyboard callbacks,
  and the ImGui panels. They are event plumbing, so the camera operations are modelled as
  functions of the values the callbacks would pass.
- Reachability in this build is not modelled. `main` registers none of the program's mouse,
  motion or keyboard callbacks (lines 1053-1055 are commented out), and
  `ImGui_ImplGLUT_InstallFuncs` (line 534) installs ImGui's own handlers. So `handle_zoom` and
  the clamp after a drag are never called, and the camera changes only through the panel's
  Reset button and sliders (lines 701-708). `USE_CAPTURE` is 0 (line 62), so the screenshot
  call at lines 954-955 is compiled out and `write_ppm` is not reached either. The model
  states what these operations do when called.
- The GL, GLU and GLUT calls themselves:
  - rasterisation, `glAccum`'s buffer and `gluLookAt`'s matrix are not computed;
  - a draw is an event recording the state it runs under;
  - the camera placement is a symbolic matrix factor;
  - the accumulation is modelled on one colour channel of real values.
- `glReadPixels` is a foreign call. Its output is described by the `Holds` predicate: rows
  packed at `GL_PACK_ALIGNMENT`, initially 4, because the program never changes it. The
  buffer is then a parameter.
- File output in `write_ppm` (`fopen`, `putc`, `fclose`, the frame-numbered file name) and the
  failure of `fopen`: the file is the byte sequence that would be written.
- `write_image`, `display_depth` and `display_string`: framebuffer I/O and commented-out code.
- `Camera::handle_motion`: it normalises vectors (square roots) and divides by zero when the
  view is vertical.
- `render_pipe`, `render_arrow`, `render_floor`, `display_actor` and `display_axis`: geometry
  emission (trigonometry, immediate-mode vertices). The state `display_axis` sets is
  modelled by `AxisSetup`. The `glPushMatrix`/`glPopMatrix` pairs inside the geometry
  helpers are balanced and not modelled.
- `time_step`'s busy-wait and wall-clock timing; the empty `SceneDefault`; material tables.
- The projection matrix: it is set once in `reshape` and never jittered, so with aperture 0
  all eight passes coincide.
- Float rounding: all geometry is over exact reals, and bytes are exact integers 0..255.
- CameraControl.HandleZoom: the distance tests `dist < 0.2` and `dist > 5` are modelled on
  squared lengths, which is exact over the reals.
- Ppm.WritePpm: `w`, `h` and `index` are C `int`s, and the model does not bound them. For a
  window over about 2^31 / 4 pixels, `index` overflows.
- Ppm.At: reading past the end of the buffer yields 0 instead of undefined behaviour. This
  only matters when the buffer does not fit, and `AllocationFits` shows it always fits.
- DepthOfField.SampleView: at eye depth 0 the source divides by zero and draws with
  non-finite values. The model returns `None` for that pass instead of computing them.

## Notes on the code as written

- The zoom guard looks only at the distance before the step. A single accepted step can
  therefore end inside the dead zone (`ZoomCanEnterDeadZone`) or beyond the target
  (`ZoomCanPassTarget`). The guard at line 96 compares only the distance before the step
  with 0.2 and 5.0, so it does not keep the distance within [0.2, 5].
- `clamp()` is called only after `handle_motion` (line 1022), not after `handle_zoom`
  (line 1016). `HandleZoom` is therefore not followed by `Clamp`.
- The clamp box admits an eye at depth 0, where the depth-of-field divide is undefined. The
  floor of 0.1 on the aperture scale does not prevent this (`ClampedCameraWithoutView`).
- Not everything a pass changes is restored. The stencil function, reference and operation,
  and the current colour, keep the values set for the last pass (`SampleIsSteady`). The
  depth test is still off during the shadow draw, because `set_reflection_after` does not
  turn it back on. The light used for the axes and floor is the one placed under the
  previous pass's camera (`AxesLitFromPreviousView`).
- The shadow pass enables `GL_POLYGON_OFFSET_FILL` (lines 808 and 820), but nothing calls
  `glPolygonOffset`. Factor and units stay 0, so no depth bias is applied; the depth test is
  off during that draw anyway. `polygonOffset` records only the enable flag.
- Line 852 compensates the look-at height for depth but leaves the look-at x at the target's
  x. Horizontally the passes' sight lines therefore converge at depth `focus`, because
  `look.x == tgt.x` at that depth (`SampleViewShape`). Vertically they converge at depth 0
  (`SightLineThroughTargetHeight`). Unless the focus is 0, the blur is focused at different
  depths in x and in y.

## Findings

| source | as written | input that shows it | evidently intended | confidence | as-written member | corrected member |
|---|---|---|---|---|---|---|
| src/water-surface-wavelets.cpp:359 | the pixel index uses a row stride of `w * pix_sz` bytes, but `glReadPixels` at line 382 packs rows to `GL_PACK_ALIGNMENT`, initially 4, which the program never changes; for depth (1 byte a pixel) with a width not a multiple of 4, rows are padded and every row but the bottom one is read shifted | a depth screenshot of a window 3 wide and 2 high with bottom row 1 2 3 and top row 4 5 6 (buffer 1 2 3 pad 4 5 6 pad) gives a body starting 0 4 5 instead of 4 5 6 | read row `h - 1 - y` at `(h - 1 - y) * Align4(w * pix_sz)`, or set `GL_PACK_ALIGNMENT` to 1 before reading | not executed; latent in this build, where `USE_CAPTURE` is 0 and no keyboard callback is registered, so `write_ppm` is never called; the pad byte shown as 0 is whatever the allocation held | Ppm.DepthStrideShearsNarrowWindow | Ppm.PackedFileFaithful |
