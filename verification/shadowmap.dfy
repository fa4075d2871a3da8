/** The shadow-map demo (demo_shadowmap.cpp): the per-light state machine that decides
    which depth maps DepthMapsGeneration redraws each frame, the light-space matrices
    it stores in DepthMVP, the texture units the shaders sample them from, and what
    RenderTavern reads back.

    Each light is in one of three shadow modes (none, static, dynamic) and carries a
    ShadowGenerated flag. The light editor clears the flag; generation sets it. */
module ShadowMap {
  import opened Wrappers
  import opened Maths
  import opened FloatLib
  import opened Scene

  // ---------------------------------------------------------------------------
  // Texture units
  // ---------------------------------------------------------------------------

  /** Number of depth maps and of depth cube maps the constructor allocates, and the
      number of DepthMVP slots. */
  const MaxShadowLights := 8

  const DiffuseUnit := 0
  const EmissiveUnit := 1

  /** uDepthMap0i samples unit 2 + i. */
  function DepthMapUnit(i: int): int { 2 + i }

  /** uDepthCubeMap0i samples unit 2 + 8 + i. */
  function DepthCubeMapUnit(i: int): int { 2 + MaxShadowLights + i }

  /** For the eight shadow slots, the two material textures, the eight depth maps and
      the eight cube maps use eighteen different units, 0 to 17. */
  lemma TextureUnitsAreDistinct(i: int, j: int)
    requires 0 <= i < MaxShadowLights && 0 <= j < MaxShadowLights
    ensures DepthMapUnit(i) !in {DiffuseUnit, EmissiveUnit}
    ensures DepthCubeMapUnit(i) !in {DiffuseUnit, EmissiveUnit}
    ensures DepthMapUnit(i) != DepthCubeMapUnit(j)
    ensures DepthMapUnit(i) == DepthMapUnit(j) <==> i == j
    ensures DepthCubeMapUnit(i) == DepthCubeMapUnit(j) <==> i == j
    ensures 0 <= DepthMapUnit(i) < 18 && 0 <= DepthCubeMapUnit(i) < 18
  {
  }

  /** A ninth light would sample its depth map from the unit of cube map 0: the unit
      layout only works for at most eight lights. */
  lemma NinthLightCollides()
    ensures DepthMapUnit(MaxShadowLights) == DepthCubeMapUnit(0)
  {
  }

  // ---------------------------------------------------------------------------
  // Light-space matrices
  // ---------------------------------------------------------------------------

  /** The floating-point pieces of the projection code: Mat4::Perspective (through
      tanf), Mat4::LookAt (through normalisation and an epsilon test), Math::Acos and
      the square root Vec3::Normalize uses. */
  datatype Lens = Lens(perspective: (real, real, real, real) -> M4, lookAt: (V3, V3, V3) -> M4,
                       acos: real -> real, sqrt: SqrtFn)

  /** Math::ToRadians. */
  function ToRadians(degrees: real): real { degrees * Pi / 180.0 }

  /** Mat4::Orthographic: a scale by 2 / extent on each axis (negated on z) and a
      translation of -(max + min) / extent, in column-major order. */
  function Orthographic(left: real, right: real, bottom: real, top: real, near: real, far: real): (m: M4)
    requires left != right && bottom != top && near != far
    ensures IsAffine(m)
    ensures m.c0.y == m.c0.z == m.c1.x == m.c1.z == m.c2.x == m.c2.y == 0.0
  {
    var rl := 1.0 / (right - left);
    var tb := 1.0 / (top - bottom);
    var fn := 1.0 / (far - near);
    M4(V4(2.0 * rl, 0.0, 0.0, 0.0),
       V4(0.0, 2.0 * tb, 0.0, 0.0),
       V4(0.0, 0.0, -2.0 * fn, 0.0),
       V4(-(right + left) * rl, -(top + bottom) * tb, -(far + near) * fn, 1.0))
  }

  /** The box [left, right] x [bottom, top] x [-near, -far] lands exactly on the clip
      cube, for every box: its near-lower-left corner goes to (-1, -1, -1) and its
      far-upper-right corner to (1, 1, 1), both with w = 1. */
  lemma OrthographicFillsClipCube(left: real, right: real, bottom: real, top: real, near: real, far: real)
    requires left != right && bottom != top && near != far
    ensures Apply(Orthographic(left, right, bottom, top, near, far), Point(V3(left, bottom, -near)))
            == V4(-1.0, -1.0, -1.0, 1.0)
    ensures Apply(Orthographic(left, right, bottom, top, near, far), Point(V3(right, top, -far)))
            == V4(1.0, 1.0, 1.0, 1.0)
  {
    var rl := 1.0 / (right - left);
    var tb := 1.0 / (top - bottom);
    var fn := 1.0 / (far - near);
    assert rl * (right - left) == 1.0;
    assert tb * (top - bottom) == 1.0;
    assert fn * (far - near) == 1.0;
    assert left * (2.0 * rl) - (right + left) * rl == -(rl * (right - left));
    assert right * (2.0 * rl) - (right + left) * rl == rl * (right - left);
    assert bottom * (2.0 * tb) - (top + bottom) * tb == -(tb * (top - bottom));
    assert top * (2.0 * tb) - (top + bottom) * tb == tb * (top - bottom);
    assert -near * (-2.0 * fn) - (far + near) * fn == -(fn * (far - near));
    assert -far * (-2.0 * fn) - (far + near) * fn == fn * (far - near);
  }

  /** The projection of a directional light's shadow: a 20 x 20 x 30 box. */
  function SunProjection(): M4 {
    Orthographic(-10.0, 10.0, -10.0, 10.0, -10.0, 20.0)
  }

  /** The sun's box lands exactly on the clip cube: its near-lower-left corner (view
      depth -near = 10) goes to (-1, -1, -1) and its far-upper-right corner (view depth
      -far = -20) to (1, 1, 1). */
  lemma SunProjectionFillsClipCube()
    ensures Apply(SunProjection(), Point(V3(-10.0, -10.0, 10.0))) == V4(-1.0, -1.0, -1.0, 1.0)
    ensures Apply(SunProjection(), Point(V3(10.0, 10.0, -20.0))) == V4(1.0, 1.0, 1.0, 1.0)
  {
    OrthographicFillsClipCube(-10.0, 10.0, -10.0, 10.0, -10.0, 20.0);
  }

  /** The fixed eye of every directional light. */
  const SunEye := V3(0.0, 2.0, 0.0)

  /** demo_shadowmap::GetLightMVP: projection * view * model with an identity model.
      A directional light looks from (0, 2, 0) along its direction through the
      orthographic box; a spot light looks from its position along its direction with
      a field of view twice the arc cosine of its outer cut-off; any other light gets
      the identity. */
  function LightMVP(l: Light, lens: Lens): M4 {
    if l.kind == LightDirectional then
      Mul(Mul(SunProjection(), lens.lookAt(SunEye, SunEye.Add(l.direction), Normalize(V3(0.0, 1.0, 0.0), lens.sqrt))), Identity())
    else if l.kind == LightSpot then
      Mul(Mul(lens.perspective(lens.acos(l.cutOff.y) * 2.0, 1.0, 2.0, 50.0),
              lens.lookAt(l.position, l.position.Add(l.direction), V3(0.0, 1.0, 0.0))), Identity())
    else Identity()
  }

  /** What a light's matrix depends on: a directional light's only on its direction
      (its position is ignored), a spot light's on its position, direction and outer
      cut-off, and nothing else; the model matrix drops out. */
  lemma LightMVPDependsOn(l: Light, l2: Light, lens: Lens)
    requires l.kind == l2.kind && l.direction == l2.direction
    requires l.kind == LightSpot ==> l.position == l2.position && l.cutOff.y == l2.cutOff.y
    ensures LightMVP(l, lens) == LightMVP(l2, lens)
    ensures l.kind == LightDirectional ==>
      LightMVP(l, lens) == Mul(SunProjection(), lens.lookAt(SunEye, SunEye.Add(l.direction), Normalize(V3(0.0, 1.0, 0.0), lens.sqrt)))
    ensures l.kind != LightDirectional && l.kind != LightSpot ==> LightMVP(l, lens) == Identity()
  {
    if l.kind == LightDirectional {
      IdentityIsUnit(Mul(SunProjection(), lens.lookAt(SunEye, SunEye.Add(l.direction), Normalize(V3(0.0, 1.0, 0.0), lens.sqrt))));
    }
  }

  /** One entry of gCameraDirections: a cube-map face, the direction to look along
      and the up vector. */
  datatype CameraDirection = CameraDirection(face: int, target: V3, up: V3)

  /** GL_TEXTURE_CUBE_MAP_POSITIVE_X; the other five faces follow it in the order
      -X, +Y, -Y, +Z, -Z. */
  const CubeMapPositiveX := 0x8515

  const CameraDirections: seq<CameraDirection> := [
    CameraDirection(CubeMapPositiveX,     V3(1.0, 0.0, 0.0),  V3(0.0, -1.0, 0.0)),
    CameraDirection(CubeMapPositiveX + 1, V3(-1.0, 0.0, 0.0), V3(0.0, -1.0, 0.0)),
    CameraDirection(CubeMapPositiveX + 2, V3(0.0, 1.0, 0.0),  V3(0.0, 0.0, 1.0)),
    CameraDirection(CubeMapPositiveX + 3, V3(0.0, -1.0, 0.0), V3(0.0, 0.0, -1.0)),
    CameraDirection(CubeMapPositiveX + 4, V3(0.0, 0.0, 1.0),  V3(0.0, -1.0, 0.0)),
    CameraDirection(CubeMapPositiveX + 5, V3(0.0, 0.0, -1.0), V3(0.0, -1.0, 0.0))]

  /** The unit axis with the given sign along the given axis. */
  function Axis(axis: int, sign: real): V3 {
    if axis == 0 then V3(sign, 0.0, 0.0) else if axis == 1 then V3(0.0, sign, 0.0) else V3(0.0, 0.0, sign)
  }

  /** The six directions are in cube-map face order: face k looks along axis k / 2,
      positive for even k, and its up vector is a unit vector perpendicular to where
      it looks, so no view is degenerate. */
  lemma CameraDirectionsFollowFaceOrder(k: int)
    requires 0 <= k < 6
    ensures |CameraDirections| == 6
    ensures CameraDirections[k].face == CubeMapPositiveX + k
    ensures CameraDirections[k].target == Axis(k / 2, if k % 2 == 0 then 1.0 else -1.0)
    ensures Dot(CameraDirections[k].up, CameraDirections[k].target) == 0.0
    ensures SquaredLength(CameraDirections[k].up) == 1.0
  {
  }

  /** demo_shadowmap::GetPointLightMVP: one matrix per cube face, looking from the
      light along that face's direction with a 90 degree, square frustum from 1 to 25. */
  function PointLightMVP(l: Light, lens: Lens): (r: seq<M4>)
    ensures |r| == 6
  {
    seq(6, k requires 0 <= k < 6 =>
      Mul(Mul(lens.perspective(ToRadians(90.0), 1.0, 1.0, 25.0),
              lens.lookAt(l.position, l.position.Add(CameraDirections[k].target), CameraDirections[k].up)), Identity()))
  }

  /** Matrix k of a point light is the view from its position towards face k. */
  lemma PointLightFaces(l: Light, lens: Lens, k: int)
    requires 0 <= k < 6
    ensures PointLightMVP(l, lens)[k] ==
      Mul(lens.perspective(ToRadians(90.0), 1.0, 1.0, 25.0),
          lens.lookAt(l.position, l.position.Add(CameraDirections[k].target), CameraDirections[k].up))
    ensures ToRadians(90.0) == Pi / 2.0
  {
    IdentityIsUnit(Mul(lens.perspective(ToRadians(90.0), 1.0, 1.0, 25.0),
                       lens.lookAt(l.position, l.position.Add(CameraDirections[k].target), CameraDirections[k].up)));
  }

  // ---------------------------------------------------------------------------
  // DepthMapsGeneration
  // ---------------------------------------------------------------------------

  /** mat4(): every entry zero. */
  const ZeroMatrix := M4(V4(0.0, 0.0, 0.0, 0.0), V4(0.0, 0.0, 0.0, 0.0), V4(0.0, 0.0, 0.0, 0.0), V4(0.0, 0.0, 0.0, 0.0))

  /** Whether DepthMapsGeneration redraws a light's shadow: not for a light without
      shadows, and not for a static light whose shadow is already generated. */
  predicate Regenerates(l: Light) {
    l.shadow != CastShadowNone && !(l.shadow == CastShadowStatic && l.shadowGenerated)
  }

  /** `DepthMVP[i].push_back(mat4()); DepthMVP[i][0] = m;`: the list grows by one zero
      matrix and its first entry becomes m. */
  function Pushed(d: seq<M4>, m: M4): (r: seq<M4>)
    ensures |r| == |d| + 1 && r[0] == m
    ensures forall k | 0 < k < |d| :: r[k] == d[k]
    ensures |d| > 0 ==> r[|d|] == ZeroMatrix
  {
    (d + [ZeroMatrix])[0 := m]
  }

  /** DepthMVP[i] after light l is redrawn: six face matrices for a point light,
      otherwise the grown list with the light's matrix first. */
  function Redrawn(l: Light, d: seq<M4>, lens: Lens): (r: seq<M4>)
    ensures |r| > 0
    ensures l.kind == LightPoint ==> r == PointLightMVP(l, lens)
    ensures l.kind != LightPoint ==> |r| == |d| + 1 && r[0] == LightMVP(l, lens)
  {
    if l.kind == LightPoint then PointLightMVP(l, lens) else Pushed(d, LightMVP(l, lens))
  }

  /** A depth pass: GenerateDepthMap with one matrix into depth map i, or
      GenerateDepthCubeMap with six into cube map i. */
  datatype Pass = DepthMapPass(light: nat, mvp: M4) | DepthCubeMapPass(light: nat, mvps: seq<M4>)

  /** The pass that redraws light i. */
  function PassFor(i: nat, l: Light, d: seq<M4>, lens: Lens): (p: Pass)
    ensures p.light == i
    ensures p.DepthCubeMapPass? <==> l.kind == LightPoint
    ensures p.DepthCubeMapPass? ==> p.mvps == PointLightMVP(l, lens)
    ensures p.DepthMapPass? ==> p.mvp == LightMVP(l, lens)
  {
    var r := Redrawn(l, d, lens);
    if l.kind == LightPoint then DepthCubeMapPass(i, r) else DepthMapPass(i, r[0])
  }

  /** A light after DepthMapsGeneration visits it. */
  function Visited(l: Light): (r: Light)
    ensures r.shadowGenerated <==> l.shadowGenerated || l.shadow != CastShadowNone
    ensures r == l.(shadowGenerated := r.shadowGenerated)
  {
    if Regenerates(l) then l.(shadowGenerated := true) else l
  }

  /** The passes of the first n lights, in light order. */
  function PassesUpTo(lights: seq<Light>, d: seq<seq<M4>>, n: int, lens: Lens): (r: seq<Pass>)
    requires n <= |lights| && n <= |d|
    ensures forall k | 0 <= k < |r| :: r[k].light < n && Regenerates(lights[r[k].light]) &&
                                       r[k] == PassFor(r[k].light, lights[r[k].light], d[r[k].light], lens)
    ensures forall k, m | 0 <= k < m < |r| :: r[k].light < r[m].light
    decreases n
  {
    if n <= 0 then []
    else
      PassesUpTo(lights, d, n - 1, lens) +
      (if Regenerates(lights[n - 1]) then [PassFor(n - 1, lights[n - 1], d[n - 1], lens)] else [])
  }

  /** The uniform uploads of the first n lights, in light order. */
  function UploadsUpTo(lights: seq<Light>, n: int): (r: seq<SlotUpload>)
    requires n <= |lights|
    ensures forall k | 0 <= k < |r| :: r[k].slot < n && Regenerates(lights[r[k].slot]) &&
                                       !lights[r[k].slot].shadowGenerated && r[k].light == Visited(lights[r[k].slot])
    ensures forall k, m | 0 <= k < m < |r| :: r[k].slot < r[m].slot
    decreases n
  {
    if n <= 0 then []
    else
      var l := lights[n - 1];
      UploadsUpTo(lights, n - 1) +
      (if Regenerates(l) && !l.shadowGenerated then [SlotUpload(n - 1, Visited(l))] else [])
  }

  /** The lights after the first n are visited. */
  function VisitedUpTo(lights: seq<Light>, n: int): (r: seq<Light>)
    ensures |r| == |lights|
    ensures forall j | 0 <= j < |lights| :: r[j] == if j < n then Visited(lights[j]) else lights[j]
  {
    seq(|lights|, j requires 0 <= j < |lights| => if j < n then Visited(lights[j]) else lights[j])
  }

  /** The DepthMVP lists after the first n lights are visited. */
  function RedrawnUpTo(lights: seq<Light>, d: seq<seq<M4>>, n: int, lens: Lens): (r: seq<seq<M4>>)
    requires n <= |lights|
    ensures |r| == |d|
    ensures forall j | 0 <= j < |d| ::
      r[j] == if j < n && Regenerates(lights[j]) then Redrawn(lights[j], d[j], lens) else d[j]
  {
    seq(|d|, j requires 0 <= j < |d| => if j < n && Regenerates(lights[j]) then Redrawn(lights[j], d[j], lens) else d[j])
  }

  /** Visiting light i extends the visited prefix by one. */
  lemma VisitStep(lights: seq<Light>, d: seq<seq<M4>>, i: int, lens: Lens)
    requires 0 <= i < |lights| && i < |d|
    ensures VisitedUpTo(lights, i + 1) == VisitedUpTo(lights, i)[i := Visited(lights[i])]
    ensures RedrawnUpTo(lights, d, i + 1, lens) ==
      RedrawnUpTo(lights, d, i, lens)[i := if Regenerates(lights[i]) then Redrawn(lights[i], d[i], lens) else d[i]]
  {
  }

  /** One iteration of DepthMapsGeneration's loop, for light l in slot i with stored
      matrices d: the light after the visit, its new matrices, and the pass and the
      upload it causes, if any. */
  method VisitLight(l: Light, i: nat, d: seq<M4>, lens: Lens)
    returns (l2: Light, d2: seq<M4>, pass: seq<Pass>, upload: seq<SlotUpload>)
    ensures l2 == Visited(l)
    ensures d2 == if Regenerates(l) then Redrawn(l, d, lens) else d
    ensures pass == if Regenerates(l) then [PassFor(i, l, d, lens)] else []
    ensures upload == if Regenerates(l) && !l.shadowGenerated then [SlotUpload(i, Visited(l))] else []
  {
    if l.shadow == CastShadowNone || (l.shadow == CastShadowStatic && l.shadowGenerated) {
      return l, d, [], [];
    }
    if l.kind == LightPoint {
      d2 := PointLightMVP(l, lens);
      pass := [DepthCubeMapPass(i, d2)];
    } else {
      d2 := Pushed(d, LightMVP(l, lens));
      pass := [DepthMapPass(i, d2[0])];
    }
    l2, upload := l, [];
    if !l.shadowGenerated {
      l2 := l.(shadowGenerated := true);
      upload := [SlotUpload(i, l2)];
    }
  }

  /** demo_shadowmap::DepthMapsGeneration over the first lightCount lights, with the
      eight DepthMVP lists. Each light is fetched through GetLight; a light without
      shadows, or a static one already generated, is passed over; otherwise its
      matrices are recomputed, its depth map is drawn, and if its flag was clear the
      flag is set and its slot of the light uniform block is re-uploaded. */
  method DepthMapsGeneration(lights: seq<Light>, lightCount: int, depthMVP: seq<seq<M4>>, lens: Lens)
    returns (lights2: seq<Light>, depthMVP2: seq<seq<M4>>, passes: seq<Pass>, uploads: seq<SlotUpload>)
    requires lightCount <= |lights| && lightCount <= MaxShadowLights && |depthMVP| == MaxShadowLights
    ensures lights2 == VisitedUpTo(lights, lightCount)
    ensures depthMVP2 == RedrawnUpTo(lights, depthMVP, lightCount, lens)
    ensures passes == PassesUpTo(lights, depthMVP, lightCount, lens)
    ensures uploads == UploadsUpTo(lights, lightCount)
  {
    lights2, depthMVP2, passes, uploads := lights, depthMVP, [], [];
    var i := 0;
    while i < lightCount
      invariant 0 <= i <= (if lightCount < 0 then 0 else lightCount)
      invariant lights2 == VisitedUpTo(lights, i)
      invariant depthMVP2 == RedrawnUpTo(lights, depthMVP, i, lens)
      invariant passes == PassesUpTo(lights, depthMVP, i, lens)
      invariant uploads == UploadsUpTo(lights, i)
    {
      var current := GetLight(lights2, i).value;
      var l, d, pass, upload := VisitLight(lights2[current], i, depthMVP2[i], lens);
      VisitStep(lights, depthMVP, i, lens);
      lights2 := lights2[i := l];
      depthMVP2 := depthMVP2[i := d];
      passes := passes + pass;
      uploads := uploads + upload;
      i := i + 1;
    }
  }

  // ---------------------------------------------------------------------------
  // Properties of the state machine
  // ---------------------------------------------------------------------------

  /** Every visited light with a shadow mode is redrawn in order, exactly once. */
  lemma {:induction false} RegeneratingLightsArePassed(lights: seq<Light>, d: seq<seq<M4>>, n: int, lens: Lens, i: int)
    requires n <= |lights| && n <= |d| && 0 <= i < n && Regenerates(lights[i])
    ensures PassFor(i, lights[i], d[i], lens) in PassesUpTo(lights, d, n, lens)
    decreases n
  {
    if i < n - 1 {
      RegeneratingLightsArePassed(lights, d, n - 1, lens, i);
    }
  }

  /** A light's uniform slot is uploaded when its flag goes from clear to set, and
      only then. */
  lemma {:induction false} FirstGenerationIsUploaded(lights: seq<Light>, n: int, i: int)
    requires n <= |lights| && 0 <= i < n
    ensures SlotUpload(i, Visited(lights[i])) in UploadsUpTo(lights, n) <==>
      !lights[i].shadowGenerated && Visited(lights[i]).shadowGenerated
    decreases n
  {
    if i < n - 1 {
      FirstGenerationIsUploaded(lights, n - 1, i);
      var l := lights[n - 1];
      assert UploadsUpTo(lights, n) == UploadsUpTo(lights, n - 1) +
        (if Regenerates(l) && !l.shadowGenerated then [SlotUpload(n - 1, Visited(l))] else []);
    }
  }

  /** How each mode behaves from frame to frame: a light without shadows is never
      redrawn; a static light is redrawn while its flag is clear and then not again; a
      dynamic light is redrawn on every call. */
  lemma ModesAcrossFrames(l: Light)
    ensures l.shadow == CastShadowNone ==> !Regenerates(l) && Visited(l) == l
    ensures l.shadow == CastShadowStatic ==> (Regenerates(l) <==> !l.shadowGenerated) && !Regenerates(Visited(l))
    ensures l.shadow == CastShadowDynamic ==> Regenerates(l) && Regenerates(Visited(l))
  {
  }

  /** Calling DepthMapsGeneration a second time uploads nothing and redraws exactly
      the lights whose mode is neither none nor static. */
  lemma {:induction false} SecondGenerationIsQuiet(lights: seq<Light>, n: int, i: int)
    requires n <= |lights| && 0 <= i < n
    ensures var after := VisitedUpTo(lights, n);
            UploadsUpTo(after, n) == [] &&
            (Regenerates(after[i]) <==> lights[i].shadow != CastShadowNone && lights[i].shadow != CastShadowStatic)
  {
    NothingToUpload(VisitedUpTo(lights, n), n);
  }

  /** Lights whose shadowed members all have their flag set cause no upload. */
  lemma {:induction false} NothingToUpload(lights: seq<Light>, n: int)
    requires n <= |lights|
    requires forall j | 0 <= j < n :: lights[j].shadow != CastShadowNone ==> lights[j].shadowGenerated
    ensures UploadsUpTo(lights, n) == []
    decreases n
  {
    if n > 0 {
      NothingToUpload(lights, n - 1);
    }
  }

  /** A static light is redrawn once per invalidation: after a frame's generation it
      is not redrawn again unless the light editor reports a change to it, and then it
      is redrawn in the next frame. */
  lemma StaticRedrawnOncePerEdit(l: Light, e: Option<Edits>)
    requires l.shadow == CastShadowStatic
    ensures var inspected := Inspected(Visited(l), e);
            inspected.0.shadow == CastShadowStatic ==> (Regenerates(inspected.0) <==> inspected.1)
  {
  }

  // ---------------------------------------------------------------------------
  // Stored matrices and RenderTavern
  // ---------------------------------------------------------------------------

  /** The stored DepthMVP list matches light l: the face matrices of a point light, or
      a list whose first entry is the light's matrix. */
  predicate Matches(l: Light, d: seq<M4>, lens: Lens) {
    if l.kind == LightPoint then d == PointLightMVP(l, lens) else |d| > 0 && d[0] == LightMVP(l, lens)
  }

  /** The invariant the flag maintains: a light whose flag is set has matrices that
      match it. */
  predicate Fresh(lights: seq<Light>, n: int, d: seq<seq<M4>>, lens: Lens)
    requires n <= |lights| && n <= |d|
  {
    forall i | 0 <= i < n :: lights[i].shadowGenerated ==> Matches(lights[i], d[i], lens)
  }

  /** Freshly built lights (all flags clear, as GL::light's initialiser leaves them)
      are trivially fresh, with the eight empty lists of the constructor. */
  lemma NewLightsAreFresh(lights: seq<Light>, n: int, lens: Lens)
    requires n <= |lights| && n <= MaxShadowLights
    requires forall i | 0 <= i < |lights| :: !lights[i].shadowGenerated
    ensures Fresh(lights, n, seq(MaxShadowLights, _ => []), lens)
  {
  }

  /** DepthMapsGeneration keeps the invariant, and afterwards every light with a
      shadow mode has its flag set and so matching matrices. */
  lemma GenerationRefreshes(lights: seq<Light>, n: int, d: seq<seq<M4>>, lens: Lens)
    requires n <= |lights| && n <= MaxShadowLights && |d| == MaxShadowLights && Fresh(lights, n, d, lens)
    ensures Fresh(VisitedUpTo(lights, n), n, RedrawnUpTo(lights, d, n, lens), lens)
    ensures forall i | 0 <= i < n :: VisitedUpTo(lights, n)[i].shadow != CastShadowNone ==>
      Matches(VisitedUpTo(lights, n)[i], RedrawnUpTo(lights, d, n, lens)[i], lens)
  {
    var lights2, d2 := VisitedUpTo(lights, n), RedrawnUpTo(lights, d, n, lens);
    forall i | 0 <= i < n && lights2[i].shadowGenerated
      ensures Matches(lights2[i], d2[i], lens)
    {
      if Regenerates(lights[i]) {
        assert lights2[i] == lights[i].(shadowGenerated := true);
        if lights[i].kind != LightPoint {
          LightMVPDependsOn(lights[i], lights2[i], lens);
        } else {
          assert PointLightMVP(lights[i], lens) == PointLightMVP(lights2[i], lens);
        }
      }
    }
  }

  /** The light editor keeps the invariant: a light it changes loses its flag, and a
      light it does not change keeps its matrices. */
  lemma InspectionKeepsFresh(lights: seq<Light>, n: int, d: seq<seq<M4>>, lens: Lens, edits: seq<Option<Edits>>)
    requires n <= |lights| && n <= |d| && n <= |edits| && Fresh(lights, n, d, lens)
    ensures Fresh(InspectLights(lights, n, edits), n, d, lens)
  {
  }

  /** What RenderTavern binds for light i: nothing for a light without shadows; the
      cube map on unit 2 + 8 + i for a point light; otherwise the first stored matrix
      and the depth map on unit 2 + i. */
  datatype Binding = CubeMapBinding(light: nat, unit: int) | DepthMapBinding(light: nat, unit: int, mvp: M4)

  /** RenderTavern's shadow bindings for the first n lights. It reads DepthMVP[i][0]
      for every shadowed light that is not a point light. */
  function RenderBindings(lights: seq<Light>, n: int, d: seq<seq<M4>>): (r: seq<Binding>)
    requires n <= |lights| && n <= |d|
    requires forall i | 0 <= i < n :: lights[i].shadow != CastShadowNone && lights[i].kind != LightPoint ==> |d[i]| > 0
    ensures forall k | 0 <= k < |r| :: r[k].light < n && lights[r[k].light].shadow != CastShadowNone
    ensures forall k | 0 <= k < |r| :: r[k].CubeMapBinding? <==> lights[r[k].light].kind == LightPoint
    ensures forall k | 0 <= k < |r| :: r[k].unit == if r[k].CubeMapBinding? then DepthCubeMapUnit(r[k].light) else DepthMapUnit(r[k].light)
    ensures forall k | 0 <= k < |r| :: r[k].DepthMapBinding? ==> r[k].mvp == d[r[k].light][0]
    decreases n
  {
    if n <= 0 then []
    else
      var i := n - 1;
      var l := lights[i];
      RenderBindings(lights, i, d) +
      (if l.shadow == CastShadowNone then []
       else if l.kind == LightPoint then [CubeMapBinding(i, DepthCubeMapUnit(i))]
       else [DepthMapBinding(i, DepthMapUnit(i), d[i][0])])
  }

  /** After DepthMapsGeneration, RenderTavern's reads are in range and every depth
      map it binds is drawn with the matrix of the light as it is now. */
  lemma RenderSeesCurrentMatrices(lights: seq<Light>, n: int, d: seq<seq<M4>>, lens: Lens)
    requires n <= |lights| && n <= |d|
    requires forall i | 0 <= i < n :: lights[i].shadow != CastShadowNone ==> Matches(lights[i], d[i], lens)
    ensures forall i | 0 <= i < n :: lights[i].shadow != CastShadowNone && lights[i].kind != LightPoint ==> |d[i]| > 0
    ensures forall k | 0 <= k < |RenderBindings(lights, n, d)| ::
      var b := RenderBindings(lights, n, d)[k];
      b.DepthMapBinding? ==> b.mvp == LightMVP(lights[b.light], lens)
  {
  }
}
