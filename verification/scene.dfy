/** The scene base class (scene.h/.cpp) and the light record it keeps (GL::light in
    opengl_helpers.h): default field values, GetLight, CreateMesh, the decision logic of
    the light editor and the shadow invalidation it triggers, and the attenuation
    formula.

    ImGui widgets are inputs: for each widget, `Some(v)` means the user changed it to
    `v` this frame (and the widget reports a change), `None` that it was left alone. */
module Scene {
  import opened Wrappers
  import opened Maths
  import opened FloatLib
  import Mesh
  import ObjLoad
  import GLCache

  // ---------------------------------------------------------------------------
  // Light codes and GL::light
  // ---------------------------------------------------------------------------

  /** lightType. */
  const LightDirectional := 0
  const LightPoint := 1
  const LightSpot := 2

  /** ShadowCastType. */
  const CastShadowNone := 0
  const CastShadowStatic := 1
  const CastShadowDynamic := 2

  /** GL::light, the layout the shaders read from the light uniform block. Enabled
      and ShadowGenerated are ints used as booleans. */
  datatype Light = Light(
    kind: int, enabled: bool, shadow: int, shadowGenerated: bool,
    position: V3, direction: V3,
    ambient: V3, diffuse: V3, specular: V3, attenuation: V3,
    cutOff: V2)

  /** `GL::light L = {}` and the lights Lights.resize adds: value-initialised, so the
      default member initialisers (Type 0, Shadow CASTSHADOW_STATIC, ShadowGenerated
      false) apply and every other field is zero. */
  const DefaultLight := Light(0, false, 1, false, Zero3, Zero3, Zero3, Zero3, Zero3, Zero3, Zero2)

  /** A new light is a directional light casting static shadows that have not been
      generated yet. */
  lemma DefaultLightCodes()
    ensures DefaultLight.kind == LightDirectional && DefaultLight.shadow == CastShadowStatic
    ensures !DefaultLight.shadowGenerated && !DefaultLight.enabled
  {
  }

  // ---------------------------------------------------------------------------
  // scene
  // ---------------------------------------------------------------------------

  /** The GL texture names a scene holds. */
  datatype SceneTextures = SceneTextures(diffuse: nat, normal: nat, metallic: nat, ao: nat,
                                         roughness: nat, emissive: nat, skybox: nat)

  /** The fields of scene. MeshDesc has no initialiser and is unset until CreateMesh.
      LightCount and Lights are separate fields. */
  datatype SceneState = SceneState(
    vao: nat, meshBuffer: nat, meshVertexCount: int, meshDesc: Option<Mesh.Descriptor>,
    lightsUniformBuffer: nat, lightCount: int, lights: seq<Light>, textures: SceneTextures)

  /** A scene as `scene() = default` leaves it. */
  const DefaultScene := SceneState(0, 0, 0, None, 0, 8, [], SceneTextures(0, 0, 0, 0, 0, 0, 0))

  /** The default scene claims eight lights but holds none: LightCount and Lights.size()
      only agree once a subclass resizes Lights. */
  lemma DefaultSceneCounts()
    ensures DefaultScene.lightCount == 8 && |DefaultScene.lights| == 0 && DefaultScene.meshVertexCount == 0
    ensures GetLight(DefaultScene.lights, 0).None?
  {
  }

  /** `GetLight(i)`: null when `Lights.size() <= i`, otherwise a pointer to Lights[i].
      A pointer into Lights is the index of its element. There is no lower bound
      check. */
  function GetLight(lights: seq<Light>, i: int): (r: Option<nat>)
    requires 0 <= i
    ensures r.None? <==> |lights| <= i
    ensures r.Some? ==> r.value == i && r.value < |lights|
  {
    if |lights| <= i then None else Some(i)
  }

  /** A write through the pointer GetLight returns lands in Lights[i] and persists: the
      next GetLight(i) sees it, and no other light changes. */
  lemma WriteThroughGetLight(lights: seq<Light>, i: int, l: Light)
    requires 0 <= i < |lights|
    ensures var p := GetLight(lights, i).value;
            var after := lights[p := l];
            GetLight(after, i).Some? && after[GetLight(after, i).value] == l &&
            forall j | 0 <= j < |lights| && j != i :: after[j] == lights[j]
  {
  }

  /** `LightCount = n; Lights.resize(LightCount)`, as every scene subclass does in
      GenerateLights: the prefix is kept and new lights are default. */
  function ResizeLights(s: SceneState, n: int): (r: SceneState)
    requires 0 <= n
    ensures r.lightCount == n && |r.lights| == n
    ensures forall i | 0 <= i < n :: r.lights[i] == if i < |s.lights| then s.lights[i] else DefaultLight
    ensures r == s.(lightCount := n, lights := r.lights)
  {
    var kept := if n <= |s.lights| then s.lights[..n] else s.lights + seq(n - |s.lights|, _ => DefaultLight);
    s.(lightCount := n, lights := kept)
  }

  /** After the resize every index below LightCount reaches a light. */
  lemma ResizedLightsAreReachable(s: SceneState, n: int, i: int)
    requires 0 <= i < n
    ensures GetLight(ResizeLights(s, n).lights, i).Some?
  {
  }

  // ---------------------------------------------------------------------------
  // CreateMesh
  // ---------------------------------------------------------------------------

  /** sizeof(vertex_full): four v3 fields and one v2. */
  const FullVertexBytes := 3 * Mesh.Vec3Bytes + Mesh.Vec2Bytes + Mesh.Vec3Bytes

  /** The descriptor CreateMesh sets: vertex_full's own layout, with normals and UVs. */
  function FullDescriptor(): (d: Mesh.Descriptor)
    ensures d.stride == FullVertexBytes == 56 && d.hasNormal && d.hasUV
    ensures d.positionOffset == 0
    ensures d.positionOffset + Mesh.Vec3Bytes == d.normalOffset
    ensures d.normalOffset + Mesh.Vec3Bytes == d.uvOffset
    ensures d.uvOffset + Mesh.Vec2Bytes == d.tangentOffset
    ensures d.tangentOffset + Mesh.Vec3Bytes == d.bitangentOffset
    ensures d.bitangentOffset + Mesh.Vec3Bytes == d.stride
    ensures Mesh.WellFormed(d)
  {
    Mesh.Descriptor(56, 0, true, 12, true, 24, 32, 44)
  }

  /** scene::CreateMesh: the buffer and vertex count come from the cache at scale 1,
      and the descriptor is vertex_full's layout. */
  method CreateMesh(s: SceneState, c: GLCache.Cache, gl: GLCache.Gl, disk: ObjLoad.Disk, filepath: string,
                    parse: string -> ObjLoad.Parsed, sqrt: SqrtFn, trig: Trig)
    returns (s2: SceneState, c2: GLCache.Cache, gl2: GLCache.Gl, disk2: ObjLoad.Disk)
    requires ObjLoad.Triangulated(parse(filepath))
    ensures filepath in c2.meshes
    ensures s2 == s.(meshBuffer := c2.meshes[filepath].buffer, meshVertexCount := c2.meshes[filepath].size,
                     meshDesc := Some(FullDescriptor()))
    ensures filepath in c.meshes ==> c2 == c && gl2 == gl
    ensures filepath !in c.meshes ==>
      s2.meshVertexCount == |GLCache.Fetched(disk, filepath, 1.0, parse, sqrt, trig)|
  {
    var buffer, count;
    c2, gl2, disk2, buffer, count := GLCache.LoadObj(c, gl, disk, filepath, 1.0, true, parse, sqrt, trig);
    s2 := s.(meshBuffer := buffer, meshVertexCount := count.value, meshDesc := Some(FullDescriptor()));
  }

  // ---------------------------------------------------------------------------
  // EditLight and InspectLights
  // ---------------------------------------------------------------------------

  /** The three shadow radio buttons, by the value each one stores in selected_radio. */
  datatype ShadowButton = NoShadowButton | StaticShadowsButton | DynamicShadowsButton

  /** The value a radio button writes into selected_radio. */
  function RadioValue(b: ShadowButton): int {
    match b
    case NoShadowButton => 0
    case StaticShadowsButton => 1
    case DynamicShadowsButton => 2
  }

  /** The shadow mode a radio button stores in the light. */
  function RadioMode(b: ShadowButton): int {
    match b
    case NoShadowButton => CastShadowNone
    case StaticShadowsButton => CastShadowStatic
    case DynamicShadowsButton => CastShadowDynamic
  }

  /** The radio buttons map 0, 1, 2 to NONE, STATIC, DYNAMIC: each stores the mode
      whose code is its radio value, and different buttons store different modes. */
  lemma RadioValueIsMode(b: ShadowButton, b2: ShadowButton)
    ensures RadioMode(b) == RadioValue(b)
    ensures RadioMode(b) == RadioMode(b2) <==> b == b2
  {
  }

  /** The widgets of one EditLight frame. */
  datatype Edits = Edits(
    enabled: Option<bool>,
    kind: Option<int>, position: Option<V3>, direction: Option<V3>,
    ambient: Option<V3>, diffuse: Option<V3>, specular: Option<V3>,
    constant: Option<real>, linear: Option<real>, quadratic: Option<real>,
    innerCutOff: Option<real>, outerCutOff: Option<real>,
    shadow: Option<ShadowButton>)

  /** `v` if the widget changed it, `current` otherwise. */
  function Edited<T>(w: Option<T>, current: T): T {
    if w.Some? then w.value else current
  }

  /** Whether any widget of the light editor after the Enabled checkbox reported a
      change, the shadow radio aside. */
  predicate SlidersChanged(l: Light, e: Edits) {
    e.kind.Some? || e.position.Some? ||
    ((l.kind == LightSpot || l.kind == LightDirectional) && e.direction.Some?) ||
    e.ambient.Some? || e.diffuse.Some? || e.specular.Some? ||
    e.constant.Some? || e.linear.Some? || e.quadratic.Some? ||
    (l.kind == LightSpot && (e.innerCutOff.Some? || e.outerCutOff.Some?))
  }

  /** EditLight: the Enabled checkbox first; a disabled light returns right after it.
      Then the type and position; the direction only for a spot or directional light
      and the cut-offs only for a spot light, judged by the type just edited; the
      colours and attenuation; and the shadow radio, which counts as a change only
      when it selects a mode other than the light's. Returns the edited light and
      whether anything changed. ShadowGenerated is never touched here. */
  function EditLight(l: Light, e: Edits): (r: (Light, bool))
    ensures !r.0.enabled ==> r.0 == l.(enabled := false) && (r.1 <==> e.enabled.Some?)
    ensures !r.1 ==> r.0 == l
    ensures r.0.shadowGenerated == l.shadowGenerated
    ensures r.0.kind != LightSpot && r.0.kind != LightDirectional ==> r.0.direction == l.direction
    ensures r.0.kind != LightSpot ==> r.0.cutOff == l.cutOff
    ensures r.0.enabled && e.shadow.Some? ==>
      r.0.shadow == RadioMode(e.shadow.value) && (RadioMode(e.shadow.value) != l.shadow ==> r.1)
    ensures r.0.enabled && e.shadow.None? ==> r.0.shadow == l.shadow
  {
    var checked := l.(enabled := Edited(e.enabled, l.enabled));
    if !checked.enabled then (checked, e.enabled.Some?)
    else
      var typed := checked.(kind := Edited(e.kind, l.kind), position := Edited(e.position, l.position));
      var aimed := if typed.kind == LightSpot || typed.kind == LightDirectional
                   then typed.(direction := Edited(e.direction, l.direction)) else typed;
      var att := V3(Edited(e.constant, l.attenuation.x), Edited(e.linear, l.attenuation.y), Edited(e.quadratic, l.attenuation.z));
      var coloured := aimed.(ambient := Edited(e.ambient, l.ambient), diffuse := Edited(e.diffuse, l.diffuse),
                             specular := Edited(e.specular, l.specular), attenuation := att);
      var cut := if coloured.kind == LightSpot
                 then coloured.(cutOff := V2(Edited(e.innerCutOff, l.cutOff.x), Edited(e.outerCutOff, l.cutOff.y)))
                 else coloured;
      var selected := if e.shadow.Some? then RadioValue(e.shadow.value) else l.shadow;
      var shadowed := if e.shadow.Some? then cut.(shadow := RadioMode(e.shadow.value)) else cut;
      (shadowed, e.enabled.Some? || SlidersChanged(typed, e) || l.shadow != selected)
  }

  /** A light left disabled by the checkbox keeps every field: nothing after the
      checkbox can reach it. */
  lemma DisabledLightIsFrozen(l: Light, e: Edits)
    requires !l.enabled && e.enabled.None?
    ensures EditLight(l, e) == (l, false)
  {
  }

  /** One light of InspectLights: when the editor is open and reports a change, the
      light's shadow map is marked stale. */
  function Inspected(l: Light, e: Option<Edits>): (r: (Light, bool))
    ensures r.1 ==> !r.0.shadowGenerated
    ensures !r.1 ==> r.0 == l
  {
    match e
    case None => (l, false)
    case Some(edits) =>
      var (edited, changed) := EditLight(l, edits);
      (if changed then edited.(shadowGenerated := false) else edited, changed)
  }

  /** A GPU copy of one light into the light uniform block: glBufferSubData at byte
      offset slot * sizeof(GL::light). */
  datatype SlotUpload = SlotUpload(slot: nat, light: Light)

  /** scene::InspectLights on the lights it edits. `edits[i]` is None when light i's
      tree node is closed. Lights at or beyond LightCount are not visited. */
  function InspectLights(lights: seq<Light>, lightCount: int, edits: seq<Option<Edits>>): (r: seq<Light>)
    requires lightCount <= |lights| && lightCount <= |edits|
    ensures |r| == |lights|
    ensures forall i | 0 <= i < |lights| :: r[i] == if i < lightCount then Inspected(lights[i], edits[i]).0 else lights[i]
  {
    seq(|lights|, i requires 0 <= i < |lights| => if i < lightCount then Inspected(lights[i], edits[i]).0 else lights[i])
  }

  /** The uniform uploads of InspectLights, in light order: slot i is uploaded, with
      the edited light, exactly when light i's editor reported a change. */
  function InspectUploads(lights: seq<Light>, lightCount: int, edits: seq<Option<Edits>>): (u: seq<SlotUpload>)
    requires lightCount <= |lights| && lightCount <= |edits|
    ensures forall k | 0 <= k < |u| :: u[k].slot < lightCount && Inspected(lights[u[k].slot], edits[u[k].slot]).1 &&
                                       u[k].light == Inspected(lights[u[k].slot], edits[u[k].slot]).0
    ensures forall k, m | 0 <= k < m < |u| :: u[k].slot < u[m].slot
    decreases lightCount
  {
    if lightCount <= 0 then []
    else
      var i := lightCount - 1;
      var (edited, changed) := Inspected(lights[i], edits[i]);
      InspectUploads(lights, i, edits) + (if changed then [SlotUpload(i, edited)] else [])
  }

  /** Every light whose editor reported a change is uploaded. */
  lemma {:induction false} ChangedLightsAreUploaded(lights: seq<Light>, lightCount: int, edits: seq<Option<Edits>>, i: int)
    requires lightCount <= |lights| && lightCount <= |edits|
    requires 0 <= i < lightCount && Inspected(lights[i], edits[i]).1
    ensures SlotUpload(i, InspectLights(lights, lightCount, edits)[i]) in InspectUploads(lights, lightCount, edits)
    decreases lightCount
  {
    if i < lightCount - 1 {
      ChangedLightsAreUploaded(lights, lightCount - 1, edits, i);
    }
  }

  // ---------------------------------------------------------------------------
  // Attenuation
  // ---------------------------------------------------------------------------

  /** The denominator of the attenuation calculator and of the Phong shader as
      written: c + l * d + q * q * d, for Attenuation = (c, l, q). */
  function AttenuationDenominatorAsWritten(att: V3, d: real): real {
    att.x + att.y * d + att.z * att.z * d
  }

  /** The on-screen label `att(d) = 1.0 / (c + ld + qdd)`: the quadratic term is
      q * d * d. */
  function AttenuationDenominator(att: V3, d: real): real {
    att.x + att.y * d + att.z * d * d
  }

  /** As written the quadratic coefficient is squared and the distance is not: for
      (c, l, q) = (1, 0, 2) at distance 3 the code divides by 13 where the label's
      formula divides by 19, and a purely quadratic light fades only linearly. */
  lemma AttenuationAsWrittenIsLinearInDistance(q: real, d: real)
    ensures AttenuationDenominatorAsWritten(V3(1.0, 0.0, 2.0), 3.0) == 13.0
    ensures AttenuationDenominator(V3(1.0, 0.0, 2.0), 3.0) == 19.0
    ensures AttenuationDenominatorAsWritten(V3(0.0, 0.0, q), 2.0 * d) == 2.0 * AttenuationDenominatorAsWritten(V3(0.0, 0.0, q), d)
  {
    assert q * q * (2.0 * d) == 2.0 * (q * q * d);
  }

  /** With the label's formula a purely quadratic light falls off with the square of
      the distance: doubling the distance quadruples the denominator. */
  lemma AttenuationIsQuadratic(q: real, d: real)
    ensures AttenuationDenominator(V3(0.0, 0.0, q), 2.0 * d) == 4.0 * AttenuationDenominator(V3(0.0, 0.0, q), d)
  {
    assert q * (2.0 * d) * (2.0 * d) == 4.0 * (q * d * d);
  }
}
