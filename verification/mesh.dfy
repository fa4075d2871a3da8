/** The vertex-buffer builders of mesh.cpp. Each one writes interleaved vertices into a
    buffer the caller sized, through a vertex_descriptor that says where each attribute
    sits inside one vertex, and returns a cursor just past what it wrote.

    The buffer is modelled as a sequence of vertex slots: slot k is the vertex that
    starts at byte k * Stride, read through the descriptor's offsets. A cursor into the
    buffer is a slot index; the `End` argument of the builders is a byte offset from
    the start of the buffer, because GetVertexCount divides the byte distance by the
    stride and truncates. */
module Mesh {
  import opened Maths
  import opened FloatLib

  // ---------------------------------------------------------------------------
  // vertex_descriptor and vertex_full
  // ---------------------------------------------------------------------------

  /** vertex_descriptor: the byte layout of one interleaved vertex. Only the normal and
      the texture coordinates have presence flags; the position is always written and
      no builder here uses the tangent offsets. */
  datatype Descriptor = Descriptor(
    stride: int,
    positionOffset: int,
    hasNormal: bool, normalOffset: int,
    hasUV: bool, uvOffset: int,
    tangentOffset: int, bitangentOffset: int)

  /** sizeof(v3) and sizeof(v2): three and two floats. */
  const Vec3Bytes := 12
  const Vec2Bytes := 8

  /** A field of Size bytes at Offset lies inside one vertex of Stride bytes. */
  predicate FieldInside(offset: int, size: int, stride: int) {
    0 <= offset && offset + size <= stride
  }

  /** Two fields share no byte. */
  predicate FieldsDisjoint(a: int, sizeA: int, b: int, sizeB: int) {
    a + sizeA <= b || b + sizeB <= a
  }

  /** The layouts the slot model stands for: the position, and the normal and UV when
      present, each lie inside the stride and no two of them overlap. Writing one vertex
      then neither aliases its own fields nor reaches into the next vertex. Nothing in
      mesh.cpp checks this; the one descriptor the demos build satisfies it. */
  predicate WellFormed(d: Descriptor) {
    d.stride > 0 && FieldInside(d.positionOffset, Vec3Bytes, d.stride) &&
    (d.hasNormal ==> FieldInside(d.normalOffset, Vec3Bytes, d.stride) &&
                     FieldsDisjoint(d.positionOffset, Vec3Bytes, d.normalOffset, Vec3Bytes)) &&
    (d.hasUV ==> FieldInside(d.uvOffset, Vec2Bytes, d.stride) &&
                 FieldsDisjoint(d.positionOffset, Vec3Bytes, d.uvOffset, Vec2Bytes)) &&
    (d.hasNormal && d.hasUV ==> FieldsDisjoint(d.normalOffset, Vec3Bytes, d.uvOffset, Vec2Bytes))
  }

  /** vertex_full, the vertex the builders produce before converting it to the
      descriptor's layout. */
  datatype FullVertex = FullVertex(position: V3, normal: V3, uv: V2, tangent: V3, bitangent: V3)

  /** The default member initialisers of vertex_full. */
  const DefaultNormal := V3(0.0, 1.0, 0.0)
  const DefaultTangent := V3(1.0, 0.0, 0.0)
  const DefaultBitangent := V3(0.0, 0.0, 1.0)

  /** `vertex_full V = { Position, Normal, UV }`: the tangent frame keeps its defaults. */
  function MakeVertex(position: V3, normal: V3, uv: V2): FullVertex {
    FullVertex(position, normal, uv, DefaultTangent, DefaultBitangent)
  }

  /** `vertex_full V = {}`: position and UV value-initialised to zero, the rest at the
      defaults. */
  const BlankVertex := FullVertex(Zero3, DefaultNormal, Zero2, DefaultTangent, DefaultBitangent)

  /** One vertex of the destination buffer, read through the descriptor's offsets. */
  type Slot = FullVertex

  type Buffer = seq<Slot>

  // ---------------------------------------------------------------------------
  // GetVertexCount
  // ---------------------------------------------------------------------------

  /** GetVertexCount(Vertices, End, Descriptor): the byte distance from the cursor at
      slot `at` to byte `endByte`, divided by the stride with C's truncation. So the
      count is the number of whole vertices that fit, and is negative or zero when End
      lies before the cursor. */
  function GetVertexCount(at: int, endByte: int, d: Descriptor): (n: int)
    requires d.stride > 0
    ensures endByte >= at * d.stride ==>
      0 <= n && at * d.stride + n * d.stride <= endByte < at * d.stride + n * d.stride + d.stride
    ensures endByte < at * d.stride ==>
      n <= 0 && at * d.stride + n * d.stride - d.stride < endByte <= at * d.stride + n * d.stride
  {
    var size := endByte - at * d.stride;
    var q := TruncDiv(size, d.stride);
    assert size == d.stride * q + Mod(size, d.stride);
    q
  }

  /** The count is determined by the bounds above: n whole vertices fit and n + 1 do not. */
  lemma CountIs(at: int, endByte: int, d: Descriptor, n: int)
    requires d.stride > 0 && n >= 0
    requires at * d.stride + n * d.stride <= endByte < at * d.stride + n * d.stride + d.stride
    ensures GetVertexCount(at, endByte, d) == n
  {
    var s := d.stride;
    if n > 0 {
      MulAtLeast(s, n);
    }
    var m := GetVertexCount(at, endByte, d);
    assert s * (m - n) == m * s - n * s;
    SmallMultipleIsZero(s, m - n);
  }

  /** An End exactly k vertices past the cursor gives a count of k. */
  lemma ExactCount(at: int, k: int, d: Descriptor)
    requires d.stride > 0 && k >= 0
    ensures GetVertexCount(at, (at + k) * d.stride, d) == k
  {
    assert (at + k) * d.stride == at * d.stride + k * d.stride;
    CountIs(at, (at + k) * d.stride, d, k);
  }

  /** Advancing the cursor by k of the n vertices that fit leaves room for n - k. */
  lemma CountAfter(at: int, endByte: int, d: Descriptor, k: int)
    requires d.stride > 0 && 0 <= k <= GetVertexCount(at, endByte, d)
    ensures GetVertexCount(at + k, endByte, d) == GetVertexCount(at, endByte, d) - k
  {
    var n := GetVertexCount(at, endByte, d);
    if k > 0 {
      var s := d.stride;
      assert (at + k) * s + (n - k) * s == at * s + n * s;
      CountIs(at + k, endByte, d, n - k);
    }
  }

  /** The builders' shared precondition: a positive stride (GetVertexCount divides by
      it), a cursor inside the buffer and an End that does not lie past its last byte. */
  predicate Fits(buf: Buffer, at: int, endByte: int, d: Descriptor) {
    d.stride > 0 && 0 <= at <= |buf| && endByte <= |buf| * d.stride
  }

  /** Under Fits, every vertex the count admits lies inside the buffer. */
  lemma CountFits(buf: Buffer, at: int, endByte: int, d: Descriptor)
    requires Fits(buf, at, endByte, d)
    ensures GetVertexCount(at, endByte, d) <= |buf| - at
  {
    var s := d.stride;
    var n := GetVertexCount(at, endByte, d);
    if n > |buf| - at {
      assert s * (at + n - |buf|) == at * s + n * s - |buf| * s;
      MulAtLeast(s, at + n - |buf|);
    }
  }

  /** Multiplying by the stride keeps the order, so an End k vertices past a cursor that
      still has k slots left is within the buffer. */
  lemma ScaledEndFits(buf: Buffer, at: int, k: int, d: Descriptor)
    requires d.stride > 0 && 0 <= at && 0 <= k && at + k <= |buf|
    ensures Fits(buf, at, (at + k) * d.stride, d)
  {
    var s := d.stride;
    if at + k < |buf| {
      assert |buf| * s - (at + k) * s == s * (|buf| - at - k);
      MulAtLeast(s, |buf| - at - k);
    }
  }

  // ---------------------------------------------------------------------------
  // ConvertVertices
  // ---------------------------------------------------------------------------

  /** The slot after one vertex_full is converted into it: the position always, the
      normal only if the descriptor has one, the UV only if it has one, and never the
      tangent or bitangent. */
  function Store(prior: Slot, v: FullVertex, d: Descriptor): Slot {
    prior.(position := v.position,
           normal := if d.hasNormal then v.normal else prior.normal,
           uv := if d.hasUV then v.uv else prior.uv)
  }

  /** `after` is `before` with the first `count` vertices of `src` converted into the
      slots from `at` on, and every other slot unchanged. */
  predicate Wrote(before: Buffer, after: Buffer, at: int, src: seq<FullVertex>, count: int, d: Descriptor) {
    |after| == |before| && 0 <= at && 0 <= count <= |src| && at + count <= |before| &&
    (forall k | 0 <= k < |before| && !(at <= k < at + count) :: after[k] == before[k]) &&
    (forall i | 0 <= i < count :: after[at + i] == Store(before[at + i], src[i], d))
  }

  /** The field-by-field reading of Store: `after` holds the position of `v`, its normal
      exactly when the descriptor has normals, its UV exactly when it has UVs, and keeps the
      tangent and bitangent of `prior`. */
  predicate Converted(prior: Slot, after: Slot, v: FullVertex, d: Descriptor) {
    after.position == v.position &&
    after.normal == (if d.hasNormal then v.normal else prior.normal) &&
    after.uv == (if d.hasUV then v.uv else prior.uv) &&
    after.tangent == prior.tangent && after.bitangent == prior.bitangent
  }

  /** ConvertVertices(VerticesDst, Descriptor, VerticesSrc, Count): converts the first
      Count source vertices and returns the cursor Count vertices further on. A negative
      Count converts nothing and moves the cursor back. */
  method ConvertVertices(buf: Buffer, at: int, d: Descriptor, src: seq<FullVertex>, count: int)
    returns (out: Buffer, end: int)
    requires 0 <= at && count <= |src| && at + Max(count, 0) <= |buf|
    ensures end == at + count
    ensures Wrote(buf, out, at, src, Max(count, 0), d)
    ensures forall i | 0 <= i < count :: Converted(buf[at + i], out[at + i], src[i], d)
  {
    out := buf;
    var i := 0;
    while i < count
      invariant 0 <= i <= Max(count, 0)
      invariant Wrote(buf, out, at, src, i, d)
    {
      out := out[at + i := Store(buf[at + i], src[i], d)];
      i := i + 1;
    }
    forall i | 0 <= i < count
      ensures Converted(buf[at + i], out[at + i], src[i], d)
    {
      assert out[at + i] == Store(buf[at + i], src[i], d);
    }
    end := at + count;
  }

  // ---------------------------------------------------------------------------
  // Transform
  // ---------------------------------------------------------------------------

  /** The matrix Mesh::Transform applies to normals: the transpose of the inverse. */
  function NormalMatrix(m: M4): M4 {
    Transpose(Inverse(m))
  }

  /** A transform together with the normal matrix Mesh::Transform derives from it once,
      before its loop. */
  datatype Placement = Placement(matrix: M4, normalMatrix: M4)

  function Place(m: M4): Placement {
    Placement(m, NormalMatrix(m))
  }

  /** One vertex after Mesh::Transform: the position through the matrix with the
      homogeneous division, the normal (if the descriptor has one) through the normal
      matrix and normalised; the UV and the tangent frame untouched. */
  function TransformVertex(v: Slot, d: Descriptor, p: Placement, sqrt: SqrtFn): Slot {
    v.(position := HomogeneousPoint(p.matrix, v.position),
       normal := if d.hasNormal then Normalize(Apply(p.normalMatrix, Direction(v.normal)).Xyz(), sqrt)
                 else v.normal)
  }

  /** `after` is `before` with the `count` slots from `at` on transformed by `p`, and
      every other slot unchanged. */
  predicate Transformed(before: Buffer, after: Buffer, at: int, count: int, d: Descriptor, p: Placement, sqrt: SqrtFn) {
    |after| == |before| && 0 <= at && 0 <= count && at + count <= |before| &&
    (forall k | 0 <= k < |before| && !(at <= k < at + count) :: after[k] == before[k]) &&
    (forall k | at <= k < at + count :: after[k] == TransformVertex(before[k], d, p, sqrt))
  }

  /** Mesh::Transform(Vertices, End, Descriptor, Transform): transforms the vertices
      between the cursor and End in place and returns the cursor past them. */
  method Transform(buf: Buffer, at: int, endByte: int, d: Descriptor, m: M4, sqrt: SqrtFn)
    returns (out: Buffer, end: int)
    requires Fits(buf, at, endByte, d)
    ensures end == at + GetVertexCount(at, endByte, d)
    ensures Transformed(buf, out, at, Max(GetVertexCount(at, endByte, d), 0), d, Place(m), sqrt)
  {
    out, end := TransformBy(buf, at, endByte, d, Place(m), sqrt);
  }

  /** Mesh::Transform called with End at the cursor, as the builders do when they wrote
      nothing: it changes nothing. */
  method TransformNone(buf: Buffer, at: int, d: Descriptor, p: Placement, sqrt: SqrtFn) returns (out: Buffer, end: int)
    requires d.stride > 0 && 0 <= at <= |buf|
    ensures out == buf && end == at
  {
    ScaledEndFits(buf, at, 0, d);
    ExactCount(at, 0, d);
    out, end := TransformBy(buf, at, (at + 0) * d.stride, d, p, sqrt);
    NothingTransformed(buf, out, at, d, p, sqrt);
  }

  lemma NothingTransformed(before: Buffer, after: Buffer, at: int, d: Descriptor, p: Placement, sqrt: SqrtFn)
    requires Transformed(before, after, at, 0, d, p, sqrt)
    ensures after == before
  {
    assert forall k | 0 <= k < |before| :: after[k] == before[k];
  }

  /** The loop of Mesh::Transform, once the normal matrix is known. */
  method TransformBy(buf: Buffer, at: int, endByte: int, d: Descriptor, p: Placement, sqrt: SqrtFn)
    returns (out: Buffer, end: int)
    requires Fits(buf, at, endByte, d)
    ensures end == at + GetVertexCount(at, endByte, d)
    ensures Transformed(buf, out, at, Max(GetVertexCount(at, endByte, d), 0), d, p, sqrt)
  {
    var count := GetVertexCount(at, endByte, d);
    CountFits(buf, at, endByte, d);
    var f := v => TransformVertex(v, d, p, sqrt);
    out := MapSlots(buf, at, Max(count, 0), f);
    forall k | at <= k < at + Max(count, 0)
      ensures out[k] == TransformVertex(buf[k], d, p, sqrt)
    {
      assert out[k] == f(buf[k]);
    }
    end := at + count;
  }

  /** `after` is `before` with each of the `count` slots from `at` on replaced by its
      image under `f`, and every other slot unchanged. */
  predicate Mapped(before: Buffer, after: Buffer, at: int, count: int, f: Slot -> Slot) {
    |after| == |before| && 0 <= at && 0 <= count && at + count <= |before| &&
    (forall k | 0 <= k < |before| && !(at <= k < at + count) :: after[k] == before[k]) &&
    (forall k | at <= k < at + count :: after[k] == f(before[k]))
  }

  /** The in-place loop of Mesh::Transform over any per-vertex map. */
  method MapSlots(buf: Buffer, at: int, count: int, f: Slot -> Slot) returns (out: Buffer)
    requires 0 <= at && 0 <= count && at + count <= |buf|
    ensures Mapped(buf, out, at, count, f)
  {
    out := buf;
    for i := 0 to count
      invariant Mapped(buf, out, at, i, f)
    {
      out := out[at + i := f(buf[at + i])];
    }
  }

  /** A translation moves the position and leaves the direction of the normal alone:
      the normal matrix of Translate(T) maps (n, 0) to (n, *). */
  lemma TranslateMovesVertex(v: Slot, d: Descriptor, t: V3, sqrt: SqrtFn)
    ensures TransformVertex(v, d, Place(Translate(t)), sqrt) ==
      v.(position := v.position.Add(t),
         normal := if d.hasNormal then Normalize(v.normal, sqrt) else v.normal)
  {
    InverseOfTranslate(t);
  }

  /** A uniform scale by k scales the position by k and the normal, before it is
      normalised, by 1/k. */
  lemma ScaleScalesVertex(v: Slot, d: Descriptor, k: real, sqrt: SqrtFn)
    requires k != 0.0
    ensures TransformVertex(v, d, Place(Scale(V3(k, k, k))), sqrt) ==
      v.(position := v.position.Times(k),
         normal := if d.hasNormal then Normalize(v.normal.Times(1.0 / k), sqrt) else v.normal)
  {
    NormalMatrixOfScale(k);
    ScaledDirection(1.0 / k, v.normal);
    ScaledPoint(k, v.position);
  }

  lemma NormalMatrixOfScale(k: real)
    requires k != 0.0
    ensures NormalMatrix(Scale(V3(k, k, k))) == Scale(V3(1.0 / k, 1.0 / k, 1.0 / k))
  {
    InverseOfScale(V3(k, k, k));
  }

  lemma ScaledDirection(k: real, n: V3)
    ensures Apply(Scale(V3(k, k, k)), Direction(n)).Xyz() == n.Times(k)
  {
  }

  lemma ScaledPoint(k: real, p: V3)
    ensures HomogeneousPoint(Scale(V3(k, k, k)), p) == p.Times(k)
  {
  }

  /** The identity moves nothing; it only normalises the normal. */
  lemma IdentityKeepsVertex(v: Slot, d: Descriptor, sqrt: SqrtFn)
    ensures TransformVertex(v, d, Place(Identity()), sqrt) ==
      v.(normal := if d.hasNormal then Normalize(v.normal, sqrt) else v.normal)
  {
    InverseOfIdentity();
  }

  // ---------------------------------------------------------------------------
  // BuildQuad
  // ---------------------------------------------------------------------------

  const QuadNormal := V3(0.0, 0.0, 1.0)
  const TopLeft := MakeVertex(V3(-0.5, 0.5, 0.0), QuadNormal, V2(0.0, 1.0))
  const TopRight := MakeVertex(V3(0.5, 0.5, 0.0), QuadNormal, V2(1.0, 1.0))
  const BottomLeft := MakeVertex(V3(-0.5, -0.5, 0.0), QuadNormal, V2(0.0, 0.0))
  const BottomRight := MakeVertex(V3(0.5, -0.5, 0.0), QuadNormal, V2(1.0, 0.0))

  /** The two triangles of the quad, in the order BuildQuad emits them. */
  const QuadVertices: seq<FullVertex> := [TopLeft, BottomLeft, TopRight, BottomLeft, BottomRight, TopRight]

  /** Mesh::BuildQuad: refuses, writing nothing and returning the cursor, when fewer than
      6 vertices fit; otherwise converts the six quad vertices and returns the cursor 6
      vertices on. */
  method BuildQuad(buf: Buffer, at: int, endByte: int, d: Descriptor) returns (out: Buffer, end: int)
    requires Fits(buf, at, endByte, d)
    ensures GetVertexCount(at, endByte, d) < 6 ==> out == buf && end == at
    ensures GetVertexCount(at, endByte, d) >= 6 ==> end == at + 6 && Wrote(buf, out, at, QuadVertices, 6, d)
  {
    if GetVertexCount(at, endByte, d) < 6 {
      return buf, at;
    }
    CountFits(buf, at, endByte, d);
    out, end := ConvertVertices(buf, at, d, QuadVertices, 6);
  }

  /** Twice the signed area vector of the triangle starting at ps[i]: Cross(B - A, C - A).
      It points to the side from which the triangle winds counter-clockwise. */
  function TriangleNormal(ps: seq<V3>, i: int): V3
    requires 0 <= i && i + 2 < |ps|
  {
    Winding(ps[i], ps[i + 1], ps[i + 2])
  }

  /** Cross(B - A, C - A) for the triangle A, B, C. */
  function Winding(a: V3, b: V3, c: V3): V3 {
    Cross(b.Sub(a), c.Sub(a))
  }

  function Positions(vs: seq<FullVertex>): (ps: seq<V3>)
    ensures |ps| == |vs|
  {
    seq(|vs|, i requires 0 <= i < |vs| => vs[i].position)
  }

  /** The corner positions of the six quad vertices after a transform by `m`. */
  function QuadPositions(m: M4): (ps: seq<V3>)
    ensures |ps| == 6
  {
    [HomogeneousPoint(m, V3(-0.5, 0.5, 0.0)), HomogeneousPoint(m, V3(-0.5, -0.5, 0.0)),
     HomogeneousPoint(m, V3(0.5, 0.5, 0.0)), HomogeneousPoint(m, V3(-0.5, -0.5, 0.0)),
     HomogeneousPoint(m, V3(0.5, -0.5, 0.0)), HomogeneousPoint(m, V3(0.5, 0.5, 0.0))]
  }

  /** QuadPositions lists the quad's vertices in the order BuildQuad writes them. */
  lemma QuadPositionsFollowQuad(m: M4)
    ensures forall c | 0 <= c < 6 :: QuadPositions(m)[c] == HomogeneousPoint(m, QuadVertices[c].position)
  {
    QuadCornerPositions();
  }

  predicate HalfUnit(a: real) {
    a == 0.5 || a == -0.5
  }

  /** The quad is the unit square centred on the origin in the z = 0 plane: every
      corner is at (+-0.5, +-0.5, 0), faces +z, keeps the default tangent frame, and has
      as UV its position shifted by (0.5, 0.5), so the texture covers [0,1]^2 once. */
  lemma QuadIsUnitSquare()
    ensures forall c | 0 <= c < |QuadVertices| ::
      HalfUnit(QuadVertices[c].position.x) && HalfUnit(QuadVertices[c].position.y) &&
      QuadVertices[c].position.z == 0.0 &&
      QuadVertices[c].uv == V2(QuadVertices[c].position.x + 0.5, QuadVertices[c].position.y + 0.5) &&
      QuadVertices[c].normal == QuadNormal &&
      QuadVertices[c].tangent == DefaultTangent && QuadVertices[c].bitangent == DefaultBitangent
  {
  }

  lemma QuadCornerPositions()
    ensures Positions(QuadVertices) == [V3(-0.5, 0.5, 0.0), V3(-0.5, -0.5, 0.0), V3(0.5, 0.5, 0.0),
                                        V3(-0.5, -0.5, 0.0), V3(0.5, -0.5, 0.0), V3(0.5, 0.5, 0.0)]
  {
  }

  /** Both triangles wind counter-clockwise seen from +z, so they face the normal they
      carry. */
  lemma QuadTrianglesFaceNormal()
    ensures TriangleNormal(Positions(QuadVertices), 0) == QuadNormal
    ensures TriangleNormal(Positions(QuadVertices), 3) == QuadNormal
  {
    assert Positions(QuadVertices) == [TopLeft.position, BottomLeft.position, TopRight.position,
                                       BottomLeft.position, BottomRight.position, TopRight.position];
  }

  /** The two triangles share the diagonal from bottom-left to top-right. */
  lemma QuadTrianglesShareDiagonal()
    ensures QuadVertices[1] == QuadVertices[3] == BottomLeft && QuadVertices[2] == QuadVertices[5] == TopRight
  {
  }

  // ---------------------------------------------------------------------------
  // Faces: a quad built and then transformed into place
  // ---------------------------------------------------------------------------

  /** Quad vertex `c` converted over the slot `prior` and transformed by `p`. */
  function FaceVertex(prior: Slot, c: int, p: Placement, d: Descriptor, sqrt: SqrtFn): Slot
    requires 0 <= c < 6
  {
    TransformVertex(Store(prior, QuadVertices[c], d), d, p, sqrt)
  }

  /** `after` holds, from slot `at` on, one quad per matrix of `faces`, each built by
      BuildQuad and transformed by its matrix, and agrees with `before` elsewhere. Slot
      at + 6f + c holds corner c of face f. */
  predicate FacesWritten(before: Buffer, after: Buffer, at: int, faces: seq<Placement>, d: Descriptor, sqrt: SqrtFn) {
    |after| == |before| && 0 <= at && at + 6 * |faces| <= |before| &&
    (forall k | 0 <= k < |before| && !(at <= k < at + 6 * |faces|) :: after[k] == before[k]) &&
    (forall k | at <= k < at + 6 * |faces| ::
      after[k] == FaceVertex(before[k], (k - at) % 6, faces[(k - at) / 6], d, sqrt))
  }

  /** Building one more quad after the faces already written and transforming it by `m`
      extends the faces by `m`. */
  lemma FacesWrittenStep(buf: Buffer, prev: Buffer, mid: Buffer, out: Buffer, at: int, start: int,
                         faces: seq<Placement>, p: Placement, d: Descriptor, sqrt: SqrtFn)
    requires start == at + 6 * |faces| && FacesWritten(buf, prev, at, faces, d, sqrt)
    requires Wrote(prev, mid, start, QuadVertices, 6, d)
    requires Transformed(mid, out, start, 6, d, p, sqrt)
    ensures FacesWritten(buf, out, at, faces + [p], d, sqrt)
  {
    var n := |faces|;
    var more := faces + [p];
    forall k | 0 <= k < |buf| && !(at <= k < at + 6 * (n + 1))
      ensures out[k] == buf[k]
    {
      assert out[k] == mid[k] && mid[k] == prev[k];
    }
    EarlierFacesKept(buf, prev, mid, out, at, start, faces, p, d, sqrt);
    NewFaceWritten(buf, prev, mid, out, start, p, d, sqrt);
    forall k | start <= k < start + 6
      ensures out[k] == FaceVertex(buf[k], (k - at) % 6, more[(k - at) / 6], d, sqrt)
    {
      ModUnique(k - at, 6, n, k - start);
      assert more[n] == p;
    }
  }

  lemma EarlierFacesKept(buf: Buffer, prev: Buffer, mid: Buffer, out: Buffer, at: int, start: int,
                         faces: seq<Placement>, p: Placement, d: Descriptor, sqrt: SqrtFn)
    requires start == at + 6 * |faces| && FacesWritten(buf, prev, at, faces, d, sqrt)
    requires Wrote(prev, mid, start, QuadVertices, 6, d)
    requires Transformed(mid, out, start, 6, d, p, sqrt)
    ensures forall k | at <= k < start :: out[k] == FaceVertex(buf[k], (k - at) % 6, (faces + [p])[(k - at) / 6], d, sqrt)
  {
    forall k | at <= k < start
      ensures out[k] == FaceVertex(buf[k], (k - at) % 6, (faces + [p])[(k - at) / 6], d, sqrt)
    {
      assert out[k] == mid[k] && mid[k] == prev[k];
      assert (faces + [p])[(k - at) / 6] == faces[(k - at) / 6];
    }
  }

  lemma NewFaceWritten(buf: Buffer, prev: Buffer, mid: Buffer, out: Buffer, start: int,
                       p: Placement, d: Descriptor, sqrt: SqrtFn)
    requires 0 <= start && |prev| == |buf| && start + 6 <= |buf|
    requires forall k | start <= k < start + 6 :: prev[k] == buf[k]
    requires Wrote(prev, mid, start, QuadVertices, 6, d)
    requires Transformed(mid, out, start, 6, d, p, sqrt)
    ensures forall k | start <= k < start + 6 :: out[k] == FaceVertex(buf[k], k - start, p, d, sqrt)
  {
    forall k | start <= k < start + 6
      ensures out[k] == FaceVertex(buf[k], k - start, p, d, sqrt)
    {
      var c := k - start;
      assert mid[start + c] == Store(prev[start + c], QuadVertices[c], d);
    }
  }

  /** FacesWrittenStep for face f of `faces`, written after the first f. */
  lemma NextFaceWritten(buf: Buffer, prev: Buffer, mid: Buffer, out: Buffer, at: int, start: int,
                        faces: seq<Placement>, f: int, d: Descriptor, sqrt: SqrtFn)
    requires 0 <= f < |faces| && start == at + 6 * f && FacesWritten(buf, prev, at, faces[..f], d, sqrt)
    requires Wrote(prev, mid, start, QuadVertices, 6, d)
    requires Transformed(mid, out, start, 6, d, faces[f], sqrt)
    ensures FacesWritten(buf, out, at, faces[..f + 1], d, sqrt)
  {
    FacesWrittenStep(buf, prev, mid, out, at, start, faces[..f], faces[f], d, sqrt);
    assert faces[..f + 1] == faces[..f] + [faces[f]];
  }

  // ---------------------------------------------------------------------------
  // BuildCube
  // ---------------------------------------------------------------------------

  // The face matrices of BuildCube, written out. Each XFaceIsSourceProduct lemma shows
  // the matrix is the source's product Translate(T) * RotateY(C, S) (or RotateX) with
  // the exact cosine and sine of a quarter or half turn.

  function BackFace(): M4 {
    M4(V4(-1.0, 0.0, 0.0, 0.0), V4(0.0, 1.0, 0.0, 0.0), V4(0.0, 0.0, -1.0, 0.0), V4(0.0, 0.0, -0.5, 1.0))
  }

  function FrontFace(): M4 {
    M4(V4(1.0, 0.0, 0.0, 0.0), V4(0.0, 1.0, 0.0, 0.0), V4(0.0, 0.0, 1.0, 0.0), V4(0.0, 0.0, 0.5, 1.0))
  }

  function LeftFace(): M4 {
    M4(V4(0.0, 0.0, 1.0, 0.0), V4(0.0, 1.0, 0.0, 0.0), V4(-1.0, 0.0, 0.0, 0.0), V4(-0.5, 0.0, 0.0, 1.0))
  }

  function RightFace(): M4 {
    M4(V4(0.0, 0.0, -1.0, 0.0), V4(0.0, 1.0, 0.0, 0.0), V4(1.0, 0.0, 0.0, 0.0), V4(0.5, 0.0, 0.0, 1.0))
  }

  function TopFace(): M4 {
    M4(V4(1.0, 0.0, 0.0, 0.0), V4(0.0, 0.0, -1.0, 0.0), V4(0.0, 1.0, 0.0, 0.0), V4(0.0, 0.5, 0.0, 1.0))
  }

  function BottomFace(): M4 {
    M4(V4(1.0, 0.0, 0.0, 0.0), V4(0.0, 0.0, 1.0, 0.0), V4(0.0, -1.0, 0.0, 0.0), V4(0.0, -0.5, 0.0, 1.0))
  }

  /** BuildCube's faces in the order it writes them: back, front, left, right, top,
      bottom. */
  function CubeFaces(): (faces: seq<Placement>)
    ensures |faces| == 6
  {
    [Place(BackFace()), Place(FrontFace()), Place(LeftFace()), Place(RightFace()), Place(TopFace()), Place(BottomFace())]
  }

  /** One face as BuildCube and BuildInvertedCube write it:
      `Transform(V, BuildQuad(V, End, Descriptor), Descriptor, M)`, when the quad fits.
      `quad` is the buffer between the two calls. */
  method AddFace(buf: Buffer, at: int, endByte: int, d: Descriptor, p: Placement, sqrt: SqrtFn)
    returns (quad: Buffer, out: Buffer, end: int)
    requires Fits(buf, at, endByte, d) && GetVertexCount(at, endByte, d) >= 6
    ensures end == at + 6
    ensures Wrote(buf, quad, at, QuadVertices, 6, d) && Transformed(quad, out, at, 6, d, p, sqrt)
  {
    var quadEnd;
    quad, quadEnd := BuildQuad(buf, at, endByte, d);
    ScaledEndFits(quad, at, 6, d);
    ExactCount(at, 6, d);
    out, end := TransformBy(quad, at, quadEnd * d.stride, d, p, sqrt);
  }

  /** The faces of `faces` written one after the other from the cursor, when there is
      room for all of them. */
  method AddFaces(buf: Buffer, at: int, endByte: int, d: Descriptor, faces: seq<Placement>, sqrt: SqrtFn)
    returns (out: Buffer, end: int)
    requires Fits(buf, at, endByte, d) && GetVertexCount(at, endByte, d) >= 6 * |faces|
    ensures end == at + 6 * |faces| && FacesWritten(buf, out, at, faces, d, sqrt)
  {
    out, end := buf, at;
    for f := 0 to |faces|
      invariant end == at + 6 * f
      invariant FacesWritten(buf, out, at, faces[..f], d, sqrt)
    {
      out, end := FaceAfter(buf, at, endByte, d, faces, sqrt, f, out, end);
    }
    assert faces[..|faces|] == faces;
  }

  /** Face f of AddFaces: with the first f faces written, AddFace writes face f. */
  method FaceAfter(buf: Buffer, at: int, endByte: int, d: Descriptor, faces: seq<Placement>, sqrt: SqrtFn,
                   f: int, cur: Buffer, curEnd: int)
    returns (next: Buffer, nextEnd: int)
    requires Fits(buf, at, endByte, d) && 0 <= f < |faces| && GetVertexCount(at, endByte, d) >= 6 * |faces|
    requires curEnd == at + 6 * f && FacesWritten(buf, cur, at, faces[..f], d, sqrt)
    ensures nextEnd == at + 6 * (f + 1) && FacesWritten(buf, next, at, faces[..f + 1], d, sqrt)
  {
    CountFits(buf, at, endByte, d);
    CountAfter(at, endByte, d, 6 * f);
    assert GetVertexCount(curEnd, endByte, d) >= 6 && curEnd <= |cur|;
    var quad;
    quad, next, nextEnd := AddFace(cur, curEnd, endByte, d, faces[f], sqrt);
    NextFaceWritten(buf, cur, quad, next, at, curEnd, faces, f, d, sqrt);
  }

  /** Mesh::BuildCube: refuses, writing nothing and returning the cursor, when fewer than
      36 vertices fit; otherwise writes the six faces in order and returns the cursor 36
      vertices on. */
  method BuildCube(buf: Buffer, at: int, endByte: int, d: Descriptor, sqrt: SqrtFn)
    returns (out: Buffer, end: int)
    requires Fits(buf, at, endByte, d)
    ensures GetVertexCount(at, endByte, d) < 36 ==> out == buf && end == at
    ensures GetVertexCount(at, endByte, d) >= 36 ==>
      end == at + 36 && FacesWritten(buf, out, at, CubeFaces(), d, sqrt)
  {
    if GetVertexCount(at, endByte, d) < 36 {
      return buf, at;
    }
    out, end := AddFaces(buf, at, endByte, d, CubeFaces(), sqrt);
  }

  // ---------------------------------------------------------------------------
  // BuildInvertedCube
  // ---------------------------------------------------------------------------

  /** The quad pushed half a unit along -z: the front face of the inverted cube, and the
      face every other one is rotated from. */
  function InvertedFront(): M4 {
    Translate(V3(0.0, 0.0, -0.5))
  }

  /** The faces of BuildInvertedCube in the order it writes them: front, back, right,
      left, top, bottom, each a rotation through the float cosine and sine applied after
      the push. */
  function InvertedCubeFaces(trig: Trig): (faces: seq<Placement>)
    ensures |faces| == 6
  {
    [Place(InvertedFront()),
     Place(Mul(RotateYAngle(trig, Pi), InvertedFront())),
     Place(Mul(RotateYAngle(trig, HalfPi), InvertedFront())),
     Place(Mul(RotateYAngle(trig, -HalfPi), InvertedFront())),
     Place(Mul(Mul(RotateYAngle(trig, -HalfPi), RotateXAngle(trig, HalfPi)), InvertedFront())),
     Place(Mul(Mul(RotateYAngle(trig, -HalfPi), RotateXAngle(trig, -HalfPi)), InvertedFront()))]
  }

  /** How many whole faces fit in room for n vertices: n / 6, at most 6. */
  function FacesThatFit(n: int): (w: int)
    ensures 0 <= w <= 6
    ensures n >= 0 ==> 6 * w <= n && (w < 6 ==> n < 6 * w + 6)
    ensures n < 0 ==> w == 0
  {
    if n < 0 then 0 else Min(n / 6, 6)
  }

  /** One face of BuildInvertedCube, `Transform(V, BuildQuad(V, End, D), D, M)`. When the
      quad does not fit, BuildQuad returns V itself and Transform then has nothing to do,
      so the face is skipped without a guard of its own. */
  method InvertedFace(buf: Buffer, at: int, endByte: int, d: Descriptor, p: Placement, sqrt: SqrtFn)
    returns (quad: Buffer, out: Buffer, end: int)
    requires Fits(buf, at, endByte, d)
    ensures GetVertexCount(at, endByte, d) < 6 ==> out == buf && end == at
    ensures GetVertexCount(at, endByte, d) >= 6 ==>
      end == at + 6 && Wrote(buf, quad, at, QuadVertices, 6, d) && Transformed(quad, out, at, 6, d, p, sqrt)
  {
    if GetVertexCount(at, endByte, d) >= 6 {
      quad, out, end := AddFace(buf, at, endByte, d, p, sqrt);
    } else {
      quad, out, end := SkippedFace(buf, at, endByte, d, p, sqrt);
    }
  }

  /** A face with fewer than six vertices of room: BuildQuad returns the cursor without
      writing and Transform then covers no vertex. */
  method SkippedFace(buf: Buffer, at: int, endByte: int, d: Descriptor, p: Placement, sqrt: SqrtFn)
    returns (quad: Buffer, out: Buffer, end: int)
    requires Fits(buf, at, endByte, d) && GetVertexCount(at, endByte, d) < 6
    ensures quad == buf && out == buf && end == at
  {
    var quadEnd;
    quad, quadEnd := BuildQuad(buf, at, endByte, d);
    out, end := TransformNone(quad, quadEnd, d, p, sqrt);
  }

  /** Face f of AddFacesWhileRoom when it fits (f < w): with the first f faces written,
      InvertedFace writes face f whole. */
  method FaceThatFits(buf: Buffer, at: int, endByte: int, d: Descriptor, faces: seq<Placement>, sqrt: SqrtFn,
                      f: int, cur: Buffer, curEnd: int)
    returns (next: Buffer, nextEnd: int)
    requires Fits(buf, at, endByte, d) && |faces| == 6
    requires 0 <= f < FacesThatFit(GetVertexCount(at, endByte, d))
    requires curEnd == at + 6 * f && FacesWritten(buf, cur, at, faces[..f], d, sqrt)
    ensures nextEnd == at + 6 * (f + 1) && FacesWritten(buf, next, at, faces[..f + 1], d, sqrt)
  {
    CountFits(buf, at, endByte, d);
    CountAfter(at, endByte, d, 6 * f);
    assert GetVertexCount(curEnd, endByte, d) >= 6 && curEnd <= |cur|;
    var quad;
    quad, next, nextEnd := InvertedFace(cur, curEnd, endByte, d, faces[f], sqrt);
    NextFaceWritten(buf, cur, quad, next, at, curEnd, faces, f, d, sqrt);
  }

  /** A face of AddFacesWhileRoom after the w that fit: fewer than six vertices are left
      past the faces written, so InvertedFace changes nothing. */
  method FaceThatDoesNotFit(buf: Buffer, at: int, endByte: int, d: Descriptor, p: Placement, sqrt: SqrtFn,
                            cur: Buffer)
    returns (next: Buffer, nextEnd: int)
    requires Fits(buf, at, endByte, d) && |cur| == |buf|
    requires FacesThatFit(GetVertexCount(at, endByte, d)) < 6
    ensures next == cur && nextEnd == at + 6 * FacesThatFit(GetVertexCount(at, endByte, d))
  {
    var w := FacesThatFit(GetVertexCount(at, endByte, d));
    CountFits(buf, at, endByte, d);
    if w > 0 {
      CountAfter(at, endByte, d, 6 * w);
    }
    var quad;
    quad, next, nextEnd := SkippedFace(cur, at + 6 * w, endByte, d, p, sqrt);
  }

  /** The faces of `faces` each written by InvertedFace, one after the other: the w that
      fit are written whole and the rest change nothing. */
  method AddFacesWhileRoom(buf: Buffer, at: int, endByte: int, d: Descriptor, faces: seq<Placement>, sqrt: SqrtFn)
    returns (out: Buffer, end: int)
    requires Fits(buf, at, endByte, d) && |faces| == 6
    ensures var w := FacesThatFit(GetVertexCount(at, endByte, d));
      end == at + 6 * w && FacesWritten(buf, out, at, faces[..w], d, sqrt)
  {
    var w := FacesThatFit(GetVertexCount(at, endByte, d));
    out, end := buf, at;
    for f := 0 to w
      invariant end == at + 6 * f
      invariant FacesWritten(buf, out, at, faces[..f], d, sqrt)
    {
      out, end := FaceThatFits(buf, at, endByte, d, faces, sqrt, f, out, end);
    }
    for f := w to 6
      invariant end == at + 6 * w
      invariant FacesWritten(buf, out, at, faces[..w], d, sqrt)
    {
      out, end := FaceThatDoesNotFit(buf, at, endByte, d, faces[f], sqrt, out);
    }
  }

  /** Mesh::BuildInvertedCube has no capacity guard: with room for n vertices it writes
      the first min(n / 6, 6) faces whole, nothing of the rest, and returns the cursor
      six vertices on per face written. */
  method BuildInvertedCube(buf: Buffer, at: int, endByte: int, d: Descriptor, trig: Trig, sqrt: SqrtFn)
    returns (out: Buffer, end: int)
    requires Fits(buf, at, endByte, d)
    ensures var w := FacesThatFit(GetVertexCount(at, endByte, d));
      end == at + 6 * w && FacesWritten(buf, out, at, InvertedCubeFaces(trig)[..w], d, sqrt)
  {
    out, end := AddFacesWhileRoom(buf, at, endByte, d, InvertedCubeFaces(trig), sqrt);
  }

  /** p is a corner of the unit cube centred on the origin, on the face whose outward
      normal is the axis vector n: the coordinate along n's axis is half of n's. */
  predicate OnCubeFace(p: V3, n: V3) {
    HalfUnit(p.x) && HalfUnit(p.y) && HalfUnit(p.z) &&
    (n.x != 0.0 ==> p.x == 0.5 * n.x) && (n.y != 0.0 ==> p.y == 0.5 * n.y) && (n.z != 0.0 ==> p.z == 0.5 * n.z)
  }

  // Each face of BuildCube lies on the face of the unit cube whose outward normal is N:
  // all six quad corners are corners of that face, and the face's normal matrix turns
  // the quad's +z normal into N, so lighting sees the cube from outside.

  lemma BackFaceFactors()
    ensures Translate(V3(0.0, 0.0, -0.5)) == M4(V4(1.0, 0.0, 0.0, 0.0), V4(0.0, 1.0, 0.0, 0.0), V4(0.0, 0.0, 1.0, 0.0), V4(0.0, 0.0, -0.5, 1.0))
    ensures RotateY(-1.0, 0.0) == M4(V4(-1.0, 0.0, 0.0, 0.0), V4(0.0, 1.0, 0.0, 0.0), V4(0.0, 0.0, -1.0, 0.0), V4(0.0, 0.0, 0.0, 1.0))
    ensures Mul(M4(V4(1.0, 0.0, 0.0, 0.0), V4(0.0, 1.0, 0.0, 0.0), V4(0.0, 0.0, 1.0, 0.0), V4(0.0, 0.0, -0.5, 1.0)), M4(V4(-1.0, 0.0, 0.0, 0.0), V4(0.0, 1.0, 0.0, 0.0), V4(0.0, 0.0, -1.0, 0.0), V4(0.0, 0.0, 0.0, 1.0))) == BackFace()
  {
  }

  lemma BackFaceIsSourceProduct()
    ensures BackFace() == Mul(Translate(V3(0.0, 0.0, -0.5)), RotateY(-1.0, 0.0))
  {
    BackFaceFactors();
  }

  lemma BackFaceCorners()
    ensures QuadPositions(BackFace()) == [V3(0.5, 0.5, -0.5), V3(0.5, -0.5, -0.5), V3(-0.5, 0.5, -0.5), V3(0.5, -0.5, -0.5), V3(-0.5, -0.5, -0.5), V3(-0.5, 0.5, -0.5)]
  {
  }

  lemma BackFaceInverse()
    ensures Inverse(BackFace()) == M4(V4(-1.0, 0.0, 0.0, 0.0), V4(0.0, 1.0, 0.0, 0.0), V4(0.0, 0.0, -1.0, 0.0), V4(0.0, 0.0, -0.5, 1.0))
  {
  }

  lemma BackFaceNormal()
    ensures Apply(NormalMatrix(BackFace()), V4(0.0, 0.0, 1.0, 0.0)) == V4(0.0, 0.0, -1.0, -0.5)
  {
    BackFaceInverse();
  }

  lemma BackFaceOnSurface()
    ensures forall c | 0 <= c < 6 :: OnCubeFace(QuadPositions(BackFace())[c], V3(0.0, 0.0, -1.0))
  {
    BackFaceCorners();
  }

  lemma BackFaceFacesOut()
    ensures Apply(NormalMatrix(BackFace()), Direction(QuadNormal)).Xyz() == V3(0.0, 0.0, -1.0)
  {
    BackFaceNormal();
  }

  lemma FrontFaceFactors()
    ensures Translate(V3(0.0, 0.0, 0.5)) == M4(V4(1.0, 0.0, 0.0, 0.0), V4(0.0, 1.0, 0.0, 0.0), V4(0.0, 0.0, 1.0, 0.0), V4(0.0, 0.0, 0.5, 1.0))
    ensures RotateY(1.0, 0.0) == M4(V4(1.0, 0.0, 0.0, 0.0), V4(0.0, 1.0, 0.0, 0.0), V4(0.0, 0.0, 1.0, 0.0), V4(0.0, 0.0, 0.0, 1.0))
    ensures Mul(M4(V4(1.0, 0.0, 0.0, 0.0), V4(0.0, 1.0, 0.0, 0.0), V4(0.0, 0.0, 1.0, 0.0), V4(0.0, 0.0, 0.5, 1.0)), M4(V4(1.0, 0.0, 0.0, 0.0), V4(0.0, 1.0, 0.0, 0.0), V4(0.0, 0.0, 1.0, 0.0), V4(0.0, 0.0, 0.0, 1.0))) == FrontFace()
  {
  }

  lemma FrontFaceIsSourceProduct()
    ensures FrontFace() == Mul(Translate(V3(0.0, 0.0, 0.5)), RotateY(1.0, 0.0))
  {
    FrontFaceFactors();
  }

  lemma FrontFaceCorners()
    ensures QuadPositions(FrontFace()) == [V3(-0.5, 0.5, 0.5), V3(-0.5, -0.5, 0.5), V3(0.5, 0.5, 0.5), V3(-0.5, -0.5, 0.5), V3(0.5, -0.5, 0.5), V3(0.5, 0.5, 0.5)]
  {
  }

  lemma FrontFaceInverse()
    ensures Inverse(FrontFace()) == M4(V4(1.0, 0.0, 0.0, 0.0), V4(0.0, 1.0, 0.0, 0.0), V4(0.0, 0.0, 1.0, 0.0), V4(0.0, 0.0, -0.5, 1.0))
  {
  }

  lemma FrontFaceNormal()
    ensures Apply(NormalMatrix(FrontFace()), V4(0.0, 0.0, 1.0, 0.0)) == V4(0.0, 0.0, 1.0, -0.5)
  {
    FrontFaceInverse();
  }

  lemma FrontFaceOnSurface()
    ensures forall c | 0 <= c < 6 :: OnCubeFace(QuadPositions(FrontFace())[c], V3(0.0, 0.0, 1.0))
  {
    FrontFaceCorners();
  }

  lemma FrontFaceFacesOut()
    ensures Apply(NormalMatrix(FrontFace()), Direction(QuadNormal)).Xyz() == V3(0.0, 0.0, 1.0)
  {
    FrontFaceNormal();
  }

  lemma LeftFaceFactors()
    ensures Translate(V3(-0.5, 0.0, 0.0)) == M4(V4(1.0, 0.0, 0.0, 0.0), V4(0.0, 1.0, 0.0, 0.0), V4(0.0, 0.0, 1.0, 0.0), V4(-0.5, 0.0, 0.0, 1.0))
    ensures RotateY(0.0, 1.0) == M4(V4(0.0, 0.0, 1.0, 0.0), V4(0.0, 1.0, 0.0, 0.0), V4(-1.0, 0.0, 0.0, 0.0), V4(0.0, 0.0, 0.0, 1.0))
    ensures Mul(M4(V4(1.0, 0.0, 0.0, 0.0), V4(0.0, 1.0, 0.0, 0.0), V4(0.0, 0.0, 1.0, 0.0), V4(-0.5, 0.0, 0.0, 1.0)), M4(V4(0.0, 0.0, 1.0, 0.0), V4(0.0, 1.0, 0.0, 0.0), V4(-1.0, 0.0, 0.0, 0.0), V4(0.0, 0.0, 0.0, 1.0))) == LeftFace()
  {
  }

  lemma LeftFaceIsSourceProduct()
    ensures LeftFace() == Mul(Translate(V3(-0.5, 0.0, 0.0)), RotateY(0.0, 1.0))
  {
    LeftFaceFactors();
  }

  lemma LeftFaceCorners()
    ensures QuadPositions(LeftFace()) == [V3(-0.5, 0.5, -0.5), V3(-0.5, -0.5, -0.5), V3(-0.5, 0.5, 0.5), V3(-0.5, -0.5, -0.5), V3(-0.5, -0.5, 0.5), V3(-0.5, 0.5, 0.5)]
  {
  }

  lemma LeftFaceInverse()
    ensures Inverse(LeftFace()) == M4(V4(0.0, 0.0, -1.0, 0.0), V4(0.0, 1.0, 0.0, 0.0), V4(1.0, 0.0, 0.0, 0.0), V4(0.0, 0.0, -0.5, 1.0))
  {
  }

  lemma LeftFaceNormal()
    ensures Apply(NormalMatrix(LeftFace()), V4(0.0, 0.0, 1.0, 0.0)) == V4(-1.0, 0.0, 0.0, -0.5)
  {
    LeftFaceInverse();
  }

  lemma LeftFaceOnSurface()
    ensures forall c | 0 <= c < 6 :: OnCubeFace(QuadPositions(LeftFace())[c], V3(-1.0, 0.0, 0.0))
  {
    LeftFaceCorners();
  }

  lemma LeftFaceFacesOut()
    ensures Apply(NormalMatrix(LeftFace()), Direction(QuadNormal)).Xyz() == V3(-1.0, 0.0, 0.0)
  {
    LeftFaceNormal();
  }

  lemma RightFaceFactors()
    ensures Translate(V3(0.5, 0.0, 0.0)) == M4(V4(1.0, 0.0, 0.0, 0.0), V4(0.0, 1.0, 0.0, 0.0), V4(0.0, 0.0, 1.0, 0.0), V4(0.5, 0.0, 0.0, 1.0))
    ensures RotateY(0.0, -1.0) == M4(V4(0.0, 0.0, -1.0, 0.0), V4(0.0, 1.0, 0.0, 0.0), V4(1.0, 0.0, 0.0, 0.0), V4(0.0, 0.0, 0.0, 1.0))
    ensures Mul(M4(V4(1.0, 0.0, 0.0, 0.0), V4(0.0, 1.0, 0.0, 0.0), V4(0.0, 0.0, 1.0, 0.0), V4(0.5, 0.0, 0.0, 1.0)), M4(V4(0.0, 0.0, -1.0, 0.0), V4(0.0, 1.0, 0.0, 0.0), V4(1.0, 0.0, 0.0, 0.0), V4(0.0, 0.0, 0.0, 1.0))) == RightFace()
  {
  }

  lemma RightFaceIsSourceProduct()
    ensures RightFace() == Mul(Translate(V3(0.5, 0.0, 0.0)), RotateY(0.0, -1.0))
  {
    RightFaceFactors();
  }

  lemma RightFaceCorners()
    ensures QuadPositions(RightFace()) == [V3(0.5, 0.5, 0.5), V3(0.5, -0.5, 0.5), V3(0.5, 0.5, -0.5), V3(0.5, -0.5, 0.5), V3(0.5, -0.5, -0.5), V3(0.5, 0.5, -0.5)]
  {
  }

  lemma RightFaceInverse()
    ensures Inverse(RightFace()) == M4(V4(0.0, 0.0, 1.0, 0.0), V4(0.0, 1.0, 0.0, 0.0), V4(-1.0, 0.0, 0.0, 0.0), V4(0.0, 0.0, -0.5, 1.0))
  {
  }

  lemma RightFaceNormal()
    ensures Apply(NormalMatrix(RightFace()), V4(0.0, 0.0, 1.0, 0.0)) == V4(1.0, 0.0, 0.0, -0.5)
  {
    RightFaceInverse();
  }

  lemma RightFaceOnSurface()
    ensures forall c | 0 <= c < 6 :: OnCubeFace(QuadPositions(RightFace())[c], V3(1.0, 0.0, 0.0))
  {
    RightFaceCorners();
  }

  lemma RightFaceFacesOut()
    ensures Apply(NormalMatrix(RightFace()), Direction(QuadNormal)).Xyz() == V3(1.0, 0.0, 0.0)
  {
    RightFaceNormal();
  }

  lemma TopFaceFactors()
    ensures Translate(V3(0.0, 0.5, 0.0)) == M4(V4(1.0, 0.0, 0.0, 0.0), V4(0.0, 1.0, 0.0, 0.0), V4(0.0, 0.0, 1.0, 0.0), V4(0.0, 0.5, 0.0, 1.0))
    ensures RotateX(0.0, -1.0) == M4(V4(1.0, 0.0, 0.0, 0.0), V4(0.0, 0.0, -1.0, 0.0), V4(0.0, 1.0, 0.0, 0.0), V4(0.0, 0.0, 0.0, 1.0))
    ensures Mul(M4(V4(1.0, 0.0, 0.0, 0.0), V4(0.0, 1.0, 0.0, 0.0), V4(0.0, 0.0, 1.0, 0.0), V4(0.0, 0.5, 0.0, 1.0)), M4(V4(1.0, 0.0, 0.0, 0.0), V4(0.0, 0.0, -1.0, 0.0), V4(0.0, 1.0, 0.0, 0.0), V4(0.0, 0.0, 0.0, 1.0))) == TopFace()
  {
  }

  lemma TopFaceIsSourceProduct()
    ensures TopFace() == Mul(Translate(V3(0.0, 0.5, 0.0)), RotateX(0.0, -1.0))
  {
    TopFaceFactors();
  }

  lemma TopFaceCorners()
    ensures QuadPositions(TopFace()) == [V3(-0.5, 0.5, -0.5), V3(-0.5, 0.5, 0.5), V3(0.5, 0.5, -0.5), V3(-0.5, 0.5, 0.5), V3(0.5, 0.5, 0.5), V3(0.5, 0.5, -0.5)]
  {
  }

  lemma TopFaceInverse()
    ensures Inverse(TopFace()) == M4(V4(1.0, 0.0, 0.0, 0.0), V4(0.0, 0.0, 1.0, 0.0), V4(0.0, -1.0, 0.0, 0.0), V4(0.0, 0.0, -0.5, 1.0))
  {
  }

  lemma TopFaceNormal()
    ensures Apply(NormalMatrix(TopFace()), V4(0.0, 0.0, 1.0, 0.0)) == V4(0.0, 1.0, 0.0, -0.5)
  {
    TopFaceInverse();
  }

  lemma TopFaceOnSurface()
    ensures forall c | 0 <= c < 6 :: OnCubeFace(QuadPositions(TopFace())[c], V3(0.0, 1.0, 0.0))
  {
    TopFaceCorners();
  }

  lemma TopFaceFacesOut()
    ensures Apply(NormalMatrix(TopFace()), Direction(QuadNormal)).Xyz() == V3(0.0, 1.0, 0.0)
  {
    TopFaceNormal();
  }

  lemma BottomFaceFactors()
    ensures Translate(V3(0.0, -0.5, 0.0)) == M4(V4(1.0, 0.0, 0.0, 0.0), V4(0.0, 1.0, 0.0, 0.0), V4(0.0, 0.0, 1.0, 0.0), V4(0.0, -0.5, 0.0, 1.0))
    ensures RotateX(0.0, 1.0) == M4(V4(1.0, 0.0, 0.0, 0.0), V4(0.0, 0.0, 1.0, 0.0), V4(0.0, -1.0, 0.0, 0.0), V4(0.0, 0.0, 0.0, 1.0))
    ensures Mul(M4(V4(1.0, 0.0, 0.0, 0.0), V4(0.0, 1.0, 0.0, 0.0), V4(0.0, 0.0, 1.0, 0.0), V4(0.0, -0.5, 0.0, 1.0)), M4(V4(1.0, 0.0, 0.0, 0.0), V4(0.0, 0.0, 1.0, 0.0), V4(0.0, -1.0, 0.0, 0.0), V4(0.0, 0.0, 0.0, 1.0))) == BottomFace()
  {
  }

  lemma BottomFaceIsSourceProduct()
    ensures BottomFace() == Mul(Translate(V3(0.0, -0.5, 0.0)), RotateX(0.0, 1.0))
  {
    BottomFaceFactors();
  }

  lemma BottomFaceCorners()
    ensures QuadPositions(BottomFace()) == [V3(-0.5, -0.5, 0.5), V3(-0.5, -0.5, -0.5), V3(0.5, -0.5, 0.5), V3(-0.5, -0.5, -0.5), V3(0.5, -0.5, -0.5), V3(0.5, -0.5, 0.5)]
  {
  }

  lemma BottomFaceInverse()
    ensures Inverse(BottomFace()) == M4(V4(1.0, 0.0, 0.0, 0.0), V4(0.0, 0.0, -1.0, 0.0), V4(0.0, 1.0, 0.0, 0.0), V4(0.0, 0.0, -0.5, 1.0))
  {
  }

  lemma BottomFaceNormal()
    ensures Apply(NormalMatrix(BottomFace()), V4(0.0, 0.0, 1.0, 0.0)) == V4(0.0, -1.0, 0.0, -0.5)
  {
    BottomFaceInverse();
  }

  lemma BottomFaceOnSurface()
    ensures forall c | 0 <= c < 6 :: OnCubeFace(QuadPositions(BottomFace())[c], V3(0.0, -1.0, 0.0))
  {
    BottomFaceCorners();
  }

  lemma BottomFaceFacesOut()
    ensures Apply(NormalMatrix(BottomFace()), Direction(QuadNormal)).Xyz() == V3(0.0, -1.0, 0.0)
  {
    BottomFaceNormal();
  }

  /** The float cosine and sine are exact at the right angles BuildInvertedCube turns
      by: a half turn and a quarter turn either way. */
  predicate ExactRightAngles(trig: Trig) {
    trig.cos(Pi) == -1.0 && trig.sin(Pi) == 0.0 &&
    trig.cos(HalfPi) == 0.0 && trig.sin(HalfPi) == 1.0 &&
    trig.cos(-HalfPi) == 0.0 && trig.sin(-HalfPi) == -1.0
  }

  // With exact right angles each face of BuildInvertedCube is the written-out matrix
  // below, lies on the face of the unit cube whose outward normal is N, and its normal
  // matrix turns the quad's +z normal into -N: the inverted cube is the same cube seen
  // from inside.

  function InvertedFrontFace(): M4 {
    M4(V4(1.0, 0.0, 0.0, 0.0), V4(0.0, 1.0, 0.0, 0.0), V4(0.0, 0.0, 1.0, 0.0), V4(0.0, 0.0, -0.5, 1.0))
  }

  lemma InvertedFrontIsExact()
    ensures InvertedFront() == InvertedFrontFace()
  {
  }

  lemma InvertedFrontCorners()
    ensures QuadPositions(InvertedFrontFace()) == [V3(-0.5, 0.5, -0.5), V3(-0.5, -0.5, -0.5), V3(0.5, 0.5, -0.5), V3(-0.5, -0.5, -0.5), V3(0.5, -0.5, -0.5), V3(0.5, 0.5, -0.5)]
  {
  }

  lemma InvertedFrontInverse()
    ensures Inverse(InvertedFrontFace()) == M4(V4(1.0, 0.0, 0.0, 0.0), V4(0.0, 1.0, 0.0, 0.0), V4(0.0, 0.0, 1.0, 0.0), V4(0.0, 0.0, 0.5, 1.0))
  {
  }

  lemma InvertedFrontNormal()
    ensures Apply(NormalMatrix(InvertedFrontFace()), V4(0.0, 0.0, 1.0, 0.0)) == V4(0.0, 0.0, 1.0, 0.5)
  {
    InvertedFrontInverse();
  }

  lemma InvertedFrontOnSurface()
    ensures forall c | 0 <= c < 6 :: OnCubeFace(QuadPositions(InvertedFrontFace())[c], V3(0.0, 0.0, -1.0))
  {
    InvertedFrontCorners();
  }

  lemma InvertedFrontFacesIn()
    ensures Apply(NormalMatrix(InvertedFrontFace()), Direction(QuadNormal)).Xyz() == V3(0.0, 0.0, -1.0).Times(-1.0)
  {
    InvertedFrontNormal();
  }

  function InvertedBackFace(): M4 {
    M4(V4(-1.0, 0.0, 0.0, 0.0), V4(0.0, 1.0, 0.0, 0.0), V4(0.0, 0.0, -1.0, 0.0), V4(0.0, 0.0, 0.5, 1.0))
  }

  lemma InvertedBackFactors()
    ensures InvertedFront() == M4(V4(1.0, 0.0, 0.0, 0.0), V4(0.0, 1.0, 0.0, 0.0), V4(0.0, 0.0, 1.0, 0.0), V4(0.0, 0.0, -0.5, 1.0))
    ensures RotateY(-1.0, 0.0) == M4(V4(-1.0, 0.0, 0.0, 0.0), V4(0.0, 1.0, 0.0, 0.0), V4(0.0, 0.0, -1.0, 0.0), V4(0.0, 0.0, 0.0, 1.0))
    ensures Mul(M4(V4(-1.0, 0.0, 0.0, 0.0), V4(0.0, 1.0, 0.0, 0.0), V4(0.0, 0.0, -1.0, 0.0), V4(0.0, 0.0, 0.0, 1.0)), M4(V4(1.0, 0.0, 0.0, 0.0), V4(0.0, 1.0, 0.0, 0.0), V4(0.0, 0.0, 1.0, 0.0), V4(0.0, 0.0, -0.5, 1.0))) == InvertedBackFace()
  {
  }

  lemma InvertedBackIsExact(trig: Trig)
    requires ExactRightAngles(trig)
    ensures Mul(RotateYAngle(trig, Pi), InvertedFront()) == InvertedBackFace()
  {
    InvertedBackFactors();
    assert RotateYAngle(trig, Pi) == RotateY(-1.0, 0.0);
  }

  lemma InvertedBackCorners()
    ensures QuadPositions(InvertedBackFace()) == [V3(0.5, 0.5, 0.5), V3(0.5, -0.5, 0.5), V3(-0.5, 0.5, 0.5), V3(0.5, -0.5, 0.5), V3(-0.5, -0.5, 0.5), V3(-0.5, 0.5, 0.5)]
  {
  }

  lemma InvertedBackInverse()
    ensures Inverse(InvertedBackFace()) == M4(V4(-1.0, 0.0, 0.0, 0.0), V4(0.0, 1.0, 0.0, 0.0), V4(0.0, 0.0, -1.0, 0.0), V4(0.0, 0.0, 0.5, 1.0))
  {
  }

  lemma InvertedBackNormal()
    ensures Apply(NormalMatrix(InvertedBackFace()), V4(0.0, 0.0, 1.0, 0.0)) == V4(0.0, 0.0, -1.0, 0.5)
  {
    InvertedBackInverse();
  }

  lemma InvertedBackOnSurface()
    ensures forall c | 0 <= c < 6 :: OnCubeFace(QuadPositions(InvertedBackFace())[c], V3(0.0, 0.0, 1.0))
  {
    InvertedBackCorners();
  }

  lemma InvertedBackFacesIn()
    ensures Apply(NormalMatrix(InvertedBackFace()), Direction(QuadNormal)).Xyz() == V3(0.0, 0.0, 1.0).Times(-1.0)
  {
    InvertedBackNormal();
  }

  function InvertedRightFace(): M4 {
    M4(V4(0.0, 0.0, 1.0, 0.0), V4(0.0, 1.0, 0.0, 0.0), V4(-1.0, 0.0, 0.0, 0.0), V4(0.5, 0.0, 0.0, 1.0))
  }

  lemma InvertedRightFactors()
    ensures InvertedFront() == M4(V4(1.0, 0.0, 0.0, 0.0), V4(0.0, 1.0, 0.0, 0.0), V4(0.0, 0.0, 1.0, 0.0), V4(0.0, 0.0, -0.5, 1.0))
    ensures RotateY(0.0, 1.0) == M4(V4(0.0, 0.0, 1.0, 0.0), V4(0.0, 1.0, 0.0, 0.0), V4(-1.0, 0.0, 0.0, 0.0), V4(0.0, 0.0, 0.0, 1.0))
    ensures Mul(M4(V4(0.0, 0.0, 1.0, 0.0), V4(0.0, 1.0, 0.0, 0.0), V4(-1.0, 0.0, 0.0, 0.0), V4(0.0, 0.0, 0.0, 1.0)), M4(V4(1.0, 0.0, 0.0, 0.0), V4(0.0, 1.0, 0.0, 0.0), V4(0.0, 0.0, 1.0, 0.0), V4(0.0, 0.0, -0.5, 1.0))) == InvertedRightFace()
  {
  }

  lemma InvertedRightIsExact(trig: Trig)
    requires ExactRightAngles(trig)
    ensures Mul(RotateYAngle(trig, HalfPi), InvertedFront()) == InvertedRightFace()
  {
    InvertedRightFactors();
    assert RotateYAngle(trig, HalfPi) == RotateY(0.0, 1.0);
  }

  lemma InvertedRightCorners()
    ensures QuadPositions(InvertedRightFace()) == [V3(0.5, 0.5, -0.5), V3(0.5, -0.5, -0.5), V3(0.5, 0.5, 0.5), V3(0.5, -0.5, -0.5), V3(0.5, -0.5, 0.5), V3(0.5, 0.5, 0.5)]
  {
  }

  lemma InvertedRightInverse()
    ensures Inverse(InvertedRightFace()) == M4(V4(0.0, 0.0, -1.0, 0.0), V4(0.0, 1.0, 0.0, 0.0), V4(1.0, 0.0, 0.0, 0.0), V4(0.0, 0.0, 0.5, 1.0))
  {
  }

  lemma InvertedRightNormal()
    ensures Apply(NormalMatrix(InvertedRightFace()), V4(0.0, 0.0, 1.0, 0.0)) == V4(-1.0, 0.0, 0.0, 0.5)
  {
    InvertedRightInverse();
  }

  lemma InvertedRightOnSurface()
    ensures forall c | 0 <= c < 6 :: OnCubeFace(QuadPositions(InvertedRightFace())[c], V3(1.0, 0.0, 0.0))
  {
    InvertedRightCorners();
  }

  lemma InvertedRightFacesIn()
    ensures Apply(NormalMatrix(InvertedRightFace()), Direction(QuadNormal)).Xyz() == V3(1.0, 0.0, 0.0).Times(-1.0)
  {
    InvertedRightNormal();
  }

  function InvertedLeftFace(): M4 {
    M4(V4(0.0, 0.0, -1.0, 0.0), V4(0.0, 1.0, 0.0, 0.0), V4(1.0, 0.0, 0.0, 0.0), V4(-0.5, 0.0, 0.0, 1.0))
  }

  lemma InvertedLeftFactors()
    ensures InvertedFront() == M4(V4(1.0, 0.0, 0.0, 0.0), V4(0.0, 1.0, 0.0, 0.0), V4(0.0, 0.0, 1.0, 0.0), V4(0.0, 0.0, -0.5, 1.0))
    ensures RotateY(0.0, -1.0) == M4(V4(0.0, 0.0, -1.0, 0.0), V4(0.0, 1.0, 0.0, 0.0), V4(1.0, 0.0, 0.0, 0.0), V4(0.0, 0.0, 0.0, 1.0))
    ensures Mul(M4(V4(0.0, 0.0, -1.0, 0.0), V4(0.0, 1.0, 0.0, 0.0), V4(1.0, 0.0, 0.0, 0.0), V4(0.0, 0.0, 0.0, 1.0)), M4(V4(1.0, 0.0, 0.0, 0.0), V4(0.0, 1.0, 0.0, 0.0), V4(0.0, 0.0, 1.0, 0.0), V4(0.0, 0.0, -0.5, 1.0))) == InvertedLeftFace()
  {
  }

  lemma InvertedLeftIsExact(trig: Trig)
    requires ExactRightAngles(trig)
    ensures Mul(RotateYAngle(trig, -HalfPi), InvertedFront()) == InvertedLeftFace()
  {
    InvertedLeftFactors();
    assert RotateYAngle(trig, -HalfPi) == RotateY(0.0, -1.0);
  }

  lemma InvertedLeftCorners()
    ensures QuadPositions(InvertedLeftFace()) == [V3(-0.5, 0.5, 0.5), V3(-0.5, -0.5, 0.5), V3(-0.5, 0.5, -0.5), V3(-0.5, -0.5, 0.5), V3(-0.5, -0.5, -0.5), V3(-0.5, 0.5, -0.5)]
  {
  }

  lemma InvertedLeftInverse()
    ensures Inverse(InvertedLeftFace()) == M4(V4(0.0, 0.0, 1.0, 0.0), V4(0.0, 1.0, 0.0, 0.0), V4(-1.0, 0.0, 0.0, 0.0), V4(0.0, 0.0, 0.5, 1.0))
  {
  }

  lemma InvertedLeftNormal()
    ensures Apply(NormalMatrix(InvertedLeftFace()), V4(0.0, 0.0, 1.0, 0.0)) == V4(1.0, 0.0, 0.0, 0.5)
  {
    InvertedLeftInverse();
  }

  lemma InvertedLeftOnSurface()
    ensures forall c | 0 <= c < 6 :: OnCubeFace(QuadPositions(InvertedLeftFace())[c], V3(-1.0, 0.0, 0.0))
  {
    InvertedLeftCorners();
  }

  lemma InvertedLeftFacesIn()
    ensures Apply(NormalMatrix(InvertedLeftFace()), Direction(QuadNormal)).Xyz() == V3(-1.0, 0.0, 0.0).Times(-1.0)
  {
    InvertedLeftNormal();
  }

  function InvertedTopFace(): M4 {
    M4(V4(0.0, 0.0, -1.0, 0.0), V4(1.0, 0.0, 0.0, 0.0), V4(0.0, -1.0, 0.0, 0.0), V4(0.0, 0.5, 0.0, 1.0))
  }

  /** The exact quarter turns used by the top and bottom faces. */
  lemma YawMinusQuarter(trig: Trig)
    requires ExactRightAngles(trig)
    ensures RotateYAngle(trig, -HalfPi) == M4(V4(0.0, 0.0, -1.0, 0.0), V4(0.0, 1.0, 0.0, 0.0), V4(1.0, 0.0, 0.0, 0.0), V4(0.0, 0.0, 0.0, 1.0))
  {
  }

  lemma PitchQuarter(trig: Trig)
    requires ExactRightAngles(trig)
    ensures RotateXAngle(trig, HalfPi) == M4(V4(1.0, 0.0, 0.0, 0.0), V4(0.0, 0.0, 1.0, 0.0), V4(0.0, -1.0, 0.0, 0.0), V4(0.0, 0.0, 0.0, 1.0))
  {
  }

  lemma PitchMinusQuarter(trig: Trig)
    requires ExactRightAngles(trig)
    ensures RotateXAngle(trig, -HalfPi) == M4(V4(1.0, 0.0, 0.0, 0.0), V4(0.0, 0.0, -1.0, 0.0), V4(0.0, 1.0, 0.0, 0.0), V4(0.0, 0.0, 0.0, 1.0))
  {
  }

  lemma InvertedTopRotations()
    ensures RotateY(0.0, -1.0) == M4(V4(0.0, 0.0, -1.0, 0.0), V4(0.0, 1.0, 0.0, 0.0), V4(1.0, 0.0, 0.0, 0.0), V4(0.0, 0.0, 0.0, 1.0))
    ensures RotateX(0.0, 1.0) == M4(V4(1.0, 0.0, 0.0, 0.0), V4(0.0, 0.0, 1.0, 0.0), V4(0.0, -1.0, 0.0, 0.0), V4(0.0, 0.0, 0.0, 1.0))
    ensures Mul(M4(V4(0.0, 0.0, -1.0, 0.0), V4(0.0, 1.0, 0.0, 0.0), V4(1.0, 0.0, 0.0, 0.0), V4(0.0, 0.0, 0.0, 1.0)), M4(V4(1.0, 0.0, 0.0, 0.0), V4(0.0, 0.0, 1.0, 0.0), V4(0.0, -1.0, 0.0, 0.0), V4(0.0, 0.0, 0.0, 1.0))) == M4(V4(0.0, 0.0, -1.0, 0.0), V4(1.0, 0.0, 0.0, 0.0), V4(0.0, -1.0, 0.0, 0.0), V4(0.0, 0.0, 0.0, 1.0))
  {
  }

  lemma InvertedTopPush()
    ensures InvertedFront() == M4(V4(1.0, 0.0, 0.0, 0.0), V4(0.0, 1.0, 0.0, 0.0), V4(0.0, 0.0, 1.0, 0.0), V4(0.0, 0.0, -0.5, 1.0))
    ensures Mul(M4(V4(0.0, 0.0, -1.0, 0.0), V4(1.0, 0.0, 0.0, 0.0), V4(0.0, -1.0, 0.0, 0.0), V4(0.0, 0.0, 0.0, 1.0)), M4(V4(1.0, 0.0, 0.0, 0.0), V4(0.0, 1.0, 0.0, 0.0), V4(0.0, 0.0, 1.0, 0.0), V4(0.0, 0.0, -0.5, 1.0))) == InvertedTopFace()
  {
  }

  lemma InvertedTopTurn(trig: Trig)
    requires ExactRightAngles(trig)
    ensures Mul(RotateYAngle(trig, -HalfPi), RotateXAngle(trig, HalfPi)) == M4(V4(0.0, 0.0, -1.0, 0.0), V4(1.0, 0.0, 0.0, 0.0), V4(0.0, -1.0, 0.0, 0.0), V4(0.0, 0.0, 0.0, 1.0))
  {
    YawMinusQuarter(trig);
    PitchQuarter(trig);
    MulOfEqual(RotateYAngle(trig, -HalfPi), RotateXAngle(trig, HalfPi), M4(V4(0.0, 0.0, -1.0, 0.0), V4(0.0, 1.0, 0.0, 0.0), V4(1.0, 0.0, 0.0, 0.0), V4(0.0, 0.0, 0.0, 1.0)), M4(V4(1.0, 0.0, 0.0, 0.0), V4(0.0, 0.0, 1.0, 0.0), V4(0.0, -1.0, 0.0, 0.0), V4(0.0, 0.0, 0.0, 1.0)));
    InvertedTopRotations();
  }

  lemma InvertedTopIsExact(trig: Trig)
    requires ExactRightAngles(trig)
    ensures Mul(Mul(RotateYAngle(trig, -HalfPi), RotateXAngle(trig, HalfPi)), InvertedFront()) == InvertedTopFace()
  {
    InvertedTopTurn(trig);
    InvertedTopPush();
  }

  lemma InvertedTopCorners()
    ensures QuadPositions(InvertedTopFace()) == [V3(0.5, 0.5, 0.5), V3(-0.5, 0.5, 0.5), V3(0.5, 0.5, -0.5), V3(-0.5, 0.5, 0.5), V3(-0.5, 0.5, -0.5), V3(0.5, 0.5, -0.5)]
  {
  }

  lemma InvertedTopInverse()
    ensures Inverse(InvertedTopFace()) == M4(V4(0.0, 1.0, 0.0, 0.0), V4(0.0, 0.0, -1.0, 0.0), V4(-1.0, 0.0, 0.0, 0.0), V4(0.0, 0.0, 0.5, 1.0))
  {
  }

  lemma InvertedTopNormal()
    ensures Apply(NormalMatrix(InvertedTopFace()), V4(0.0, 0.0, 1.0, 0.0)) == V4(0.0, -1.0, 0.0, 0.5)
  {
    InvertedTopInverse();
  }

  lemma InvertedTopOnSurface()
    ensures forall c | 0 <= c < 6 :: OnCubeFace(QuadPositions(InvertedTopFace())[c], V3(0.0, 1.0, 0.0))
  {
    InvertedTopCorners();
  }

  lemma InvertedTopFacesIn()
    ensures Apply(NormalMatrix(InvertedTopFace()), Direction(QuadNormal)).Xyz() == V3(0.0, 1.0, 0.0).Times(-1.0)
  {
    InvertedTopNormal();
  }

  function InvertedBottomFace(): M4 {
    M4(V4(0.0, 0.0, -1.0, 0.0), V4(-1.0, 0.0, 0.0, 0.0), V4(0.0, 1.0, 0.0, 0.0), V4(0.0, -0.5, 0.0, 1.0))
  }

  lemma InvertedBottomRotations()
    ensures RotateY(0.0, -1.0) == M4(V4(0.0, 0.0, -1.0, 0.0), V4(0.0, 1.0, 0.0, 0.0), V4(1.0, 0.0, 0.0, 0.0), V4(0.0, 0.0, 0.0, 1.0))
    ensures RotateX(0.0, -1.0) == M4(V4(1.0, 0.0, 0.0, 0.0), V4(0.0, 0.0, -1.0, 0.0), V4(0.0, 1.0, 0.0, 0.0), V4(0.0, 0.0, 0.0, 1.0))
    ensures Mul(M4(V4(0.0, 0.0, -1.0, 0.0), V4(0.0, 1.0, 0.0, 0.0), V4(1.0, 0.0, 0.0, 0.0), V4(0.0, 0.0, 0.0, 1.0)), M4(V4(1.0, 0.0, 0.0, 0.0), V4(0.0, 0.0, -1.0, 0.0), V4(0.0, 1.0, 0.0, 0.0), V4(0.0, 0.0, 0.0, 1.0))) == M4(V4(0.0, 0.0, -1.0, 0.0), V4(-1.0, 0.0, 0.0, 0.0), V4(0.0, 1.0, 0.0, 0.0), V4(0.0, 0.0, 0.0, 1.0))
  {
  }

  lemma InvertedBottomPush()
    ensures InvertedFront() == M4(V4(1.0, 0.0, 0.0, 0.0), V4(0.0, 1.0, 0.0, 0.0), V4(0.0, 0.0, 1.0, 0.0), V4(0.0, 0.0, -0.5, 1.0))
    ensures Mul(M4(V4(0.0, 0.0, -1.0, 0.0), V4(-1.0, 0.0, 0.0, 0.0), V4(0.0, 1.0, 0.0, 0.0), V4(0.0, 0.0, 0.0, 1.0)), M4(V4(1.0, 0.0, 0.0, 0.0), V4(0.0, 1.0, 0.0, 0.0), V4(0.0, 0.0, 1.0, 0.0), V4(0.0, 0.0, -0.5, 1.0))) == InvertedBottomFace()
  {
  }

  lemma InvertedBottomTurn(trig: Trig)
    requires ExactRightAngles(trig)
    ensures Mul(RotateYAngle(trig, -HalfPi), RotateXAngle(trig, -HalfPi)) == M4(V4(0.0, 0.0, -1.0, 0.0), V4(-1.0, 0.0, 0.0, 0.0), V4(0.0, 1.0, 0.0, 0.0), V4(0.0, 0.0, 0.0, 1.0))
  {
    YawMinusQuarter(trig);
    PitchMinusQuarter(trig);
    MulOfEqual(RotateYAngle(trig, -HalfPi), RotateXAngle(trig, -HalfPi), M4(V4(0.0, 0.0, -1.0, 0.0), V4(0.0, 1.0, 0.0, 0.0), V4(1.0, 0.0, 0.0, 0.0), V4(0.0, 0.0, 0.0, 1.0)), M4(V4(1.0, 0.0, 0.0, 0.0), V4(0.0, 0.0, -1.0, 0.0), V4(0.0, 1.0, 0.0, 0.0), V4(0.0, 0.0, 0.0, 1.0)));
    InvertedBottomRotations();
  }

  lemma InvertedBottomIsExact(trig: Trig)
    requires ExactRightAngles(trig)
    ensures Mul(Mul(RotateYAngle(trig, -HalfPi), RotateXAngle(trig, -HalfPi)), InvertedFront()) == InvertedBottomFace()
  {
    InvertedBottomTurn(trig);
    InvertedBottomPush();
  }

  lemma InvertedBottomCorners()
    ensures QuadPositions(InvertedBottomFace()) == [V3(-0.5, -0.5, 0.5), V3(0.5, -0.5, 0.5), V3(-0.5, -0.5, -0.5), V3(0.5, -0.5, 0.5), V3(0.5, -0.5, -0.5), V3(-0.5, -0.5, -0.5)]
  {
  }

  lemma InvertedBottomInverse()
    ensures Inverse(InvertedBottomFace()) == M4(V4(0.0, -1.0, 0.0, 0.0), V4(0.0, 0.0, 1.0, 0.0), V4(-1.0, 0.0, 0.0, 0.0), V4(0.0, 0.0, 0.5, 1.0))
  {
  }

  lemma InvertedBottomNormal()
    ensures Apply(NormalMatrix(InvertedBottomFace()), V4(0.0, 0.0, 1.0, 0.0)) == V4(0.0, 1.0, 0.0, 0.5)
  {
    InvertedBottomInverse();
  }

  lemma InvertedBottomOnSurface()
    ensures forall c | 0 <= c < 6 :: OnCubeFace(QuadPositions(InvertedBottomFace())[c], V3(0.0, -1.0, 0.0))
  {
    InvertedBottomCorners();
  }

  lemma InvertedBottomFacesIn()
    ensures Apply(NormalMatrix(InvertedBottomFace()), Direction(QuadNormal)).Xyz() == V3(0.0, -1.0, 0.0).Times(-1.0)
  {
    InvertedBottomNormal();
  }

  // ---------------------------------------------------------------------------
  // BuildSphere
  // ---------------------------------------------------------------------------

  /** The polar angle of ring i, Pi * i / Lat, and the azimuth of segment j,
      TwoPi * j / Lon. */
  function Theta(i: int, lat: int): real
    requires lat > 0
  {
    Pi * (i as real) / (lat as real)
  }

  function Phi(j: int, lon: int): real
    requires lon > 0
  {
    TwoPi * (j as real) / (lon as real)
  }

  /** The point of the radius-1 sphere at polar angle theta and azimuth phi, with +y as
      the pole, through the float cosine and sine. */
  function SpherePoint(trig: Trig, theta: real, phi: real): V3 {
    V3(trig.sin(theta) * trig.cos(phi), trig.cos(theta), trig.sin(theta) * trig.sin(phi))
  }

  /** The texture coordinate of ring i, segment j: both run from 1 down to 0. */
  function SphereUV(i: int, j: int, lon: int, lat: int): V2
    requires lon > 0 && lat > 0
  {
    V2(1.0 - (j as real) / (lon as real), 1.0 - (i as real) / (lat as real))
  }

  /** The six vertices BuildSphere converts for ring i, segment j: the triangles
      P0 P1 P2 and P2 P1 P3 of the patch between rings i, i + 1 and segments j, j + 1.
      Each normal is the vertex's own position and the tangent frame keeps its defaults. */
  function SphereQuad(trig: Trig, lon: int, lat: int, i: int, j: int): (q: seq<FullVertex>)
    requires lon > 0 && lat > 0
    ensures |q| == 6
  {
    var p0 := SpherePoint(trig, Theta(i, lat), Phi(j, lon));
    var p1 := SpherePoint(trig, Theta(i, lat), Phi(j + 1, lon));
    var p2 := SpherePoint(trig, Theta(i + 1, lat), Phi(j, lon));
    var p3 := SpherePoint(trig, Theta(i + 1, lat), Phi(j + 1, lon));
    [MakeVertex(p0, p0, SphereUV(i, j, lon, lat)),
     MakeVertex(p1, p1, SphereUV(i, j + 1, lon, lat)),
     MakeVertex(p2, p2, SphereUV(i + 1, j, lon, lat)),
     MakeVertex(p2, p2, SphereUV(i + 1, j, lon, lat)),
     MakeVertex(p1, p1, SphereUV(i, j + 1, lon, lat)),
     MakeVertex(p3, p3, SphereUV(i + 1, j + 1, lon, lat))]
  }

  /** Vertex k of the sphere before scaling: vertex k % 6 of patch k / 6, patches
      running segment by segment within a ring and ring by ring. */
  function SphereVertex(trig: Trig, lon: int, lat: int, k: int): FullVertex
    requires lon > 0 && lat > 0 && 0 <= k
  {
    var patch := k / 6;
    SphereQuad(trig, lon, lat, patch / lon, patch % lon)[k % 6]
  }

  function SphereVertices(trig: Trig, lon: int, lat: int): (vs: seq<FullVertex>)
    requires lon > 0 && lat > 0
    ensures |vs| == 6 * lon * lat
  {
    seq(6 * lon * lat, k requires 0 <= k => SphereVertex(trig, lon, lat, k))
  }

  /** Patch (i, j) occupies vertices 6 * (Lon * i + j) to 6 * (Lon * i + j) + 5. */
  lemma SpherePatchAt(trig: Trig, lon: int, lat: int, i: int, j: int)
    requires lon > 0 && lat > 0 && 0 <= i < lat && 0 <= j < lon
    ensures 6 * (lon * i + j) + 6 <= 6 * lon * lat
    ensures forall c | 0 <= c < 6 ::
      SphereVertices(trig, lon, lat)[6 * (lon * i + j) + c] == SphereQuad(trig, lon, lat, i, j)[c]
  {
    PatchFits(lon, lat, i, j);
    var patch := lon * i + j;
    forall c | 0 <= c < 6
      ensures SphereVertices(trig, lon, lat)[6 * patch + c] == SphereQuad(trig, lon, lat, i, j)[c]
    {
      PatchIndex(lon, i, j, c);
      assert SphereVertices(trig, lon, lat)[6 * patch + c] == SphereVertex(trig, lon, lat, 6 * patch + c);
    }
  }

  /** Every texture coordinate BuildSphere produces lies in the unit square: ring 0,
      segment 0 gets (1, 1) and the far corner (Lat, Lon) gets (0, 0). */
  lemma SphereUVInUnitSquare(i: int, j: int, lon: int, lat: int)
    requires lon > 0 && lat > 0 && 0 <= i <= lat && 0 <= j <= lon
    ensures 0.0 <= SphereUV(i, j, lon, lat).x <= 1.0 && 0.0 <= SphereUV(i, j, lon, lat).y <= 1.0
    ensures SphereUV(i, j, lon, lat) == V2(1.0, 1.0) <==> i == 0 && j == 0
    ensures SphereUV(i, j, lon, lat) == V2(0.0, 0.0) <==> i == lat && j == lon
  {
    FractionBounds(j, lon);
    FractionBounds(i, lat);
  }

  lemma FractionBounds(k: int, n: int)
    requires n > 0 && 0 <= k <= n
    ensures 0.0 <= (k as real) / (n as real) <= 1.0
    ensures (k as real) / (n as real) == 0.0 <==> k == 0
    ensures (k as real) / (n as real) == 1.0 <==> k == n
  {
    var f := (k as real) / (n as real);
    assert f * (n as real) == k as real;
  }

  /** The two triangles of a patch share the edge P1 P2, vertex for vertex, and every
      vertex of a patch has its own position as its normal and the default tangent frame. */
  lemma SphereQuadSharesDiagonal(trig: Trig, lon: int, lat: int, i: int, j: int)
    requires lon > 0 && lat > 0
    ensures SphereQuad(trig, lon, lat, i, j)[3] == SphereQuad(trig, lon, lat, i, j)[2]
    ensures SphereQuad(trig, lon, lat, i, j)[4] == SphereQuad(trig, lon, lat, i, j)[1]
    ensures forall c | 0 <= c < 6 :: SphereQuad(trig, lon, lat, i, j)[c].normal == SphereQuad(trig, lon, lat, i, j)[c].position
    ensures forall c | 0 <= c < 6 :: SphereQuad(trig, lon, lat, i, j)[c].tangent == DefaultTangent
  {
  }

  /** Neighbouring patches meet without a seam in position or texture coordinate: the
      right edge of patch (i, j) is the left edge of patch (i, j + 1), and its lower edge
      is the upper edge of patch (i + 1, j). */
  lemma SpherePatchesMeet(trig: Trig, lon: int, lat: int, i: int, j: int)
    requires lon > 0 && lat > 0
    ensures SphereQuad(trig, lon, lat, i, j)[1] == SphereQuad(trig, lon, lat, i, j + 1)[0]
    ensures SphereQuad(trig, lon, lat, i, j)[5] == SphereQuad(trig, lon, lat, i, j + 1)[2]
    ensures SphereQuad(trig, lon, lat, i, j)[2] == SphereQuad(trig, lon, lat, i + 1, j)[0]
    ensures SphereQuad(trig, lon, lat, i, j)[5] == SphereQuad(trig, lon, lat, i + 1, j)[1]
  {
  }

  lemma PatchFits(lon: int, lat: int, i: int, j: int)
    requires lon > 0 && lat > 0 && 0 <= i < lat && 0 <= j < lon
    ensures 6 * (lon * i + j) + 6 <= 6 * lon * lat
  {
    assert lon * lat - lon * (i + 1) == lon * (lat - i - 1);
    MulAtLeast(lon, lat - i);
  }

  /** Vertex c of patch Lon * i + j splits back into ring i, segment j and corner c. */
  lemma PatchIndex(lon: int, i: int, j: int, c: int)
    requires lon > 0 && 0 <= i && 0 <= j < lon && 0 <= c < 6
    ensures (6 * (lon * i + j) + c) / 6 == lon * i + j && (6 * (lon * i + j) + c) % 6 == c
    ensures (lon * i + j) / lon == i && (lon * i + j) % lon == j
  {
    ModUnique(lon * i + j, lon, i, j);
    ModUnique(6 * (lon * i + j) + c, 6, lon * i + j, c);
  }

  /** Converting a chunk whose vertices are the next ones of `src` extends what has been
      written. */
  lemma WroteAppend(buf: Buffer, prev: Buffer, next: Buffer, at: int, src: seq<FullVertex>, n: int,
                    chunk: seq<FullVertex>, d: Descriptor)
    requires Wrote(buf, prev, at, src, n, d)
    requires n + |chunk| <= |src| && forall c | 0 <= c < |chunk| :: src[n + c] == chunk[c]
    requires Wrote(prev, next, at + n, chunk, |chunk|, d)
    ensures Wrote(buf, next, at, src, n + |chunk|, d)
  {
    forall i | 0 <= i < n + |chunk|
      ensures next[at + i] == Store(buf[at + i], src[i], d)
    {
      if i >= n {
        assert next[at + n + (i - n)] == Store(prev[at + n + (i - n)], chunk[i - n], d);
      }
    }
  }

  /** `after` is `before` with the first `count` vertices of `src` converted from slot
      `at` on and then transformed by `p`, and every other slot unchanged. */
  predicate ConvertedThenTransformed(before: Buffer, after: Buffer, at: int, src: seq<FullVertex>, count: int,
                                     d: Descriptor, p: Placement, sqrt: SqrtFn)
  {
    |after| == |before| && 0 <= at && 0 <= count <= |src| && at + count <= |before| &&
    (forall k | 0 <= k < |before| && !(at <= k < at + count) :: after[k] == before[k]) &&
    (forall k | 0 <= k < count :: after[at + k] == TransformVertex(Store(before[at + k], src[k], d), d, p, sqrt))
  }

  lemma WroteThenTransformed(buf: Buffer, mid: Buffer, out: Buffer, at: int, src: seq<FullVertex>, count: int,
                             d: Descriptor, p: Placement, sqrt: SqrtFn)
    requires Wrote(buf, mid, at, src, count, d) && Transformed(mid, out, at, count, d, p, sqrt)
    ensures ConvertedThenTransformed(buf, out, at, src, count, d, p, sqrt)
  {
    forall k | 0 <= k < count
      ensures out[at + k] == TransformVertex(Store(buf[at + k], src[k], d), d, p, sqrt)
    {
      assert mid[at + k] == Store(buf[at + k], src[k], d);
    }
  }

  /** Mat4::Scale({0.5, 0.5, 0.5}): takes the radius-1 sphere to the unit-diameter one. */
  function HalfScale(): M4 {
    Scale(V3(0.5, 0.5, 0.5))
  }

  /** Patch (i, j) of BuildSphere: its six vertices, which SpherePatchAt shows are
      SphereQuad(i, j), converted at the cursor. */
  method SpherePatch(buf: Buffer, at: int, d: Descriptor, trig: Trig, lon: int, lat: int, i: int, j: int,
                     cur: Buffer, curEnd: int)
    returns (out: Buffer, end: int)
    requires lon > 0 && lat > 0 && 0 <= i < lat && 0 <= j < lon && 0 <= at && at + 6 * lon * lat <= |buf|
    requires curEnd == at + 6 * (lon * i + j) && Wrote(buf, cur, at, SphereVertices(trig, lon, lat), 6 * (lon * i + j), d)
    ensures end == curEnd + 6 && Wrote(buf, out, at, SphereVertices(trig, lon, lat), 6 * (lon * i + j) + 6, d)
  {
    PatchFits(lon, lat, i, j);
    var src, n := SphereVertices(trig, lon, lat), 6 * (lon * i + j);
    out, end := ConvertChunk(buf, at, d, src, n, src[n..n + 6], cur, curEnd);
  }

  /** ConvertVertices of the next vertices of `src`, as one chunk, extends what has been
      written. */
  method ConvertChunk(buf: Buffer, at: int, d: Descriptor, src: seq<FullVertex>, n: int,
                      chunk: seq<FullVertex>, cur: Buffer, curEnd: int)
    returns (out: Buffer, end: int)
    requires 0 <= at && at + |src| <= |buf| && curEnd == at + n
    requires 0 <= n && n + |chunk| <= |src| && forall c | 0 <= c < |chunk| :: src[n + c] == chunk[c]
    requires Wrote(buf, cur, at, src, n, d)
    ensures end == curEnd + |chunk| && Wrote(buf, out, at, src, n + |chunk|, d)
  {
    out, end := ConvertVertices(cur, curEnd, d, chunk, |chunk|);
    WroteAppend(buf, cur, out, at, src, n, chunk, d);
  }

  /** Ring i of BuildSphere: the Lon patches of the ring converted one after the other. */
  method SphereRing(buf: Buffer, at: int, d: Descriptor, trig: Trig, lon: int, lat: int, i: int,
                    cur: Buffer, curEnd: int)
    returns (out: Buffer, end: int)
    requires lon > 0 && lat > 0 && 0 <= i < lat && 0 <= at && at + 6 * lon * lat <= |buf|
    requires curEnd == at + 6 * (lon * i) && Wrote(buf, cur, at, SphereVertices(trig, lon, lat), 6 * (lon * i), d)
    ensures end == at + 6 * (lon * (i + 1)) && Wrote(buf, out, at, SphereVertices(trig, lon, lat), 6 * (lon * (i + 1)), d)
  {
    out, end := cur, curEnd;
    var j := 0;
    while j < lon
      invariant 0 <= j <= lon
      invariant end == at + 6 * (lon * i + j)
      invariant Wrote(buf, out, at, SphereVertices(trig, lon, lat), 6 * (lon * i + j), d)
    {
      out, end := SpherePatch(buf, at, d, trig, lon, lat, i, j, out, end);
      j := j + 1;
    }
    assert lon * (i + 1) == lon * i + lon;
  }

  /** The Lat rings of BuildSphere, one after the other. */
  method SphereRings(buf: Buffer, at: int, d: Descriptor, trig: Trig, lon: int, lat: int)
    returns (out: Buffer, end: int)
    requires lon > 0 && lat > 0 && 0 <= at && at + 6 * lon * lat <= |buf|
    ensures end == at + 6 * lon * lat && Wrote(buf, out, at, SphereVertices(trig, lon, lat), 6 * lon * lat, d)
  {
    out, end := buf, at;
    var i := 0;
    while i < lat
      invariant 0 <= i <= lat
      invariant end == at + 6 * (lon * i)
      invariant Wrote(buf, out, at, SphereVertices(trig, lon, lat), 6 * (lon * i), d)
    {
      out, end := SphereRing(buf, at, d, trig, lon, lat, i, out, end);
      i := i + 1;
    }
  }

  /** The part of BuildSphere after its guard when Lon and Lat are positive: the rings
      converted, then everything written scaled by one half. */
  method SphereWrite(buf: Buffer, at: int, d: Descriptor, lon: int, lat: int, trig: Trig, sqrt: SqrtFn)
    returns (out: Buffer, end: int)
    requires d.stride > 0 && lon > 0 && lat > 0 && 0 <= at && at + 6 * lon * lat <= |buf|
    ensures end == at + 6 * lon * lat
    ensures ConvertedThenTransformed(buf, out, at, SphereVertices(trig, lon, lat), 6 * lon * lat, d, Place(HalfScale()), sqrt)
  {
    var cur, curEnd := SphereRings(buf, at, d, trig, lon, lat);
    var written := curEnd - at;
    ScaledEndFits(cur, at, written, d);
    ExactCount(at, written, d);
    out, end := TransformBy(cur, at, (at + written) * d.stride, d, Place(HalfScale()), sqrt);
    WroteThenTransformed(buf, cur, out, at, SphereVertices(trig, lon, lat), written, d, Place(HalfScale()), sqrt);
  }

  /** Mesh::BuildSphere: refuses, writing nothing and returning the cursor, when fewer than
      Lon * Lat * 6 vertices fit. Otherwise it converts the Lat rings of Lon patches, six
      vertices each, and scales what it wrote by one half, returning the cursor past it.
      With Lon or Lat not positive the loops do not run and nothing is written, even
      when the guard lets the call through. */
  method BuildSphere(buf: Buffer, at: int, endByte: int, d: Descriptor, lon: int, lat: int,
                     trig: Trig, sqrt: SqrtFn)
    returns (out: Buffer, end: int)
    requires Fits(buf, at, endByte, d)
    ensures GetVertexCount(at, endByte, d) < 6 * lon * lat ==> out == buf && end == at
    ensures GetVertexCount(at, endByte, d) >= 6 * lon * lat && (lon <= 0 || lat <= 0) ==> out == buf && end == at
    ensures GetVertexCount(at, endByte, d) >= 6 * lon * lat && lon > 0 && lat > 0 ==>
      end == at + 6 * lon * lat &&
      ConvertedThenTransformed(buf, out, at, SphereVertices(trig, lon, lat), 6 * lon * lat, d, Place(HalfScale()), sqrt)
  {
    if GetVertexCount(at, endByte, d) < 6 * lon * lat {
      return buf, at;
    }
    CountFits(buf, at, endByte, d);
    if lon > 0 && lat > 0 {
      out, end := SphereWrite(buf, at, d, lon, lat, trig, sqrt);
    } else {
      out, end := TransformNone(buf, at, d, Place(HalfScale()), sqrt);
    }
  }
}
