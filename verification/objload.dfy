/** Loading Wavefront OBJ meshes (mesh.cpp): the "<Filename>.cache" shortcut, the
    vertices Mesh::LoadObjNoConvertion builds from a parsed file, and Mesh::LoadObj,
    which converts the result into a vertex buffer.

    The OBJ parser is a parameter `parse` standing for tinyobj::LoadObj: it maps a file
    name to the error string and attribute arrays the parser produces. The cache files
    are a map from file name to contents. Both load paths start from an empty vertex
    list, as both callers in the repository do. */
module ObjLoad {
  import opened Wrappers
  import opened Maths
  import opened FloatLib
  import opened Mesh
  import TangentBasis

  // ---------------------------------------------------------------------------
  // The cache file
  // ---------------------------------------------------------------------------

  /** The contents of "<Filename>.cache": the vertex count written first, then the vertex
      records. A truncated file may hold fewer records than its count says. */
  datatype CacheFile = CacheFile(count: nat, records: seq<FullVertex>)

  /** The cache files present on disk, by name. */
  type Disk = map<string, CacheFile>

  function CacheName(filename: string): string {
    filename + ".cache"
  }

  /** SaveObjToCache: the vertex count, then every vertex. */
  function SaveCache(mesh: seq<FullVertex>): CacheFile {
    CacheFile(|mesh|, mesh)
  }

  /** The vertex list LoadObjFromCache reads from a file: resized to the stored count,
      then filled from the records as far as they go. A short file leaves the remaining
      vertices default-constructed; records past the count are never read. */
  function ReadCache(file: CacheFile): (mesh: seq<FullVertex>)
    ensures |mesh| == file.count
    ensures forall i | 0 <= i < |mesh| && i < |file.records| :: mesh[i] == file.records[i]
    ensures forall i | |file.records| <= i < |mesh| :: mesh[i] == BlankVertex
  {
    seq(file.count, i requires 0 <= i => if i < |file.records| then file.records[i] else BlankVertex)
  }

  /** LoadObjFromCache: nothing when "<Filename>.cache" cannot be opened, otherwise the
      vertices it holds. */
  function LoadFromCache(disk: Disk, filename: string): (r: Option<seq<FullVertex>>)
    ensures r.None? <==> CacheName(filename) !in disk
  {
    if CacheName(filename) in disk then Some(ReadCache(disk[CacheName(filename)])) else None
  }

  /** Reading back what SaveObjToCache wrote gives the same vertices. */
  lemma CacheRoundTrip(mesh: seq<FullVertex>)
    ensures ReadCache(SaveCache(mesh)) == mesh
  {
  }

  /** Once a mesh has been saved, the next load of that file finds it in the cache. */
  lemma SavedMeshIsFound(disk: Disk, filename: string, mesh: seq<FullVertex>)
    ensures LoadFromCache(disk[CacheName(filename) := SaveCache(mesh)], filename) == Some(mesh)
  {
    CacheRoundTrip(mesh);
  }

  // ---------------------------------------------------------------------------
  // The parser's output
  // ---------------------------------------------------------------------------

  /** tinyobj::index_t: indices into the attribute arrays, in vertices, not floats. */
  datatype Index = Index(vertexIndex: int, normalIndex: int, texcoordIndex: int)

  /** tinyobj::mesh_t: the number of corners of every face, and the corners' indices one
      face after the other. */
  datatype Shape = Shape(numFaceVertices: seq<int>, indices: seq<Index>)

  /** tinyobj::attrib_t: flat float arrays, three per position and normal, two per
      texture coordinate. */
  datatype Attrib = Attrib(vertices: seq<real>, normals: seq<real>, texcoords: seq<real>)

  /** What tinyobj::LoadObj hands back: its error text and, when that is empty, the
      attributes and shapes. */
  datatype Parsed = Parsed(err: string, attrib: Attrib, shapes: seq<Shape>)

  predicate HasNormals(a: Attrib) { |a.normals| > 0 }

  predicate HasTexCoords(a: Attrib) { |a.texcoords| > 0 }

  /** Every array element the corner's indices select exists. Normal and texture indices
      only matter when the file has normals or texture coordinates. */
  predicate ValidIndex(a: Attrib, idx: Index) {
    0 <= idx.vertexIndex && 3 * idx.vertexIndex + 2 < |a.vertices| &&
    (HasNormals(a) ==> 0 <= idx.normalIndex && 3 * idx.normalIndex + 2 < |a.normals|) &&
    (HasTexCoords(a) ==> 0 <= idx.texcoordIndex && 2 * idx.texcoordIndex + 1 < |a.texcoords|)
  }

  /** Every face of the shape is a triangle (the loader asserts it; the parser is asked
      to triangulate) and its corners' indices are valid. */
  predicate ValidShape(a: Attrib, s: Shape) {
    (forall f | 0 <= f < |s.numFaceVertices| :: s.numFaceVertices[f] == 3) &&
    |s.indices| == 3 * |s.numFaceVertices| &&
    (forall k | 0 <= k < |s.indices| :: ValidIndex(a, s.indices[k]))
  }

  /** What the loader relies on the parser for: a parse without error yields valid
      triangulated shapes. */
  predicate Triangulated(p: Parsed) {
    p.err == [] ==> ValidShapes(p.attrib, p.shapes)
  }

  predicate ValidShapes(a: Attrib, shapes: seq<Shape>) {
    forall s | 0 <= s < |shapes| :: ValidShape(a, shapes[s])
  }

  // ---------------------------------------------------------------------------
  // Building the vertex list
  // ---------------------------------------------------------------------------

  /** The vertex for one corner: `vertex_full V = {}`, then the position, the normal if
      the file has normals and the texture coordinate if it has any. */
  function CornerVertex(a: Attrib, idx: Index): (v: FullVertex)
    requires ValidIndex(a, idx)
    ensures !HasNormals(a) ==> v.normal == DefaultNormal
    ensures !HasTexCoords(a) ==> v.uv == Zero2
    ensures v.tangent == DefaultTangent && v.bitangent == DefaultBitangent
  {
    var vi, ni, ti := idx.vertexIndex, idx.normalIndex, idx.texcoordIndex;
    BlankVertex.(
      position := V3(a.vertices[3 * vi], a.vertices[3 * vi + 1], a.vertices[3 * vi + 2]),
      normal := if HasNormals(a) then V3(a.normals[3 * ni], a.normals[3 * ni + 1], a.normals[3 * ni + 2])
                else BlankVertex.normal,
      uv := if HasTexCoords(a) then V2(a.texcoords[2 * ti], a.texcoords[2 * ti + 1]) else BlankVertex.uv)
  }

  /** The vertices of one shape, corner by corner. */
  function ShapeVertices(a: Attrib, s: Shape): (vs: seq<FullVertex>)
    requires ValidShape(a, s)
    ensures |vs| == 3 * |s.numFaceVertices|
  {
    seq(|s.indices|, k requires 0 <= k < |s.indices| => CornerVertex(a, s.indices[k]))
  }

  /** The vertices of all shapes, shape after shape, as the loader pushes them. */
  function Gather(a: Attrib, shapes: seq<Shape>): (vs: seq<FullVertex>)
    requires ValidShapes(a, shapes)
    ensures |vs| % 3 == 0
  {
    if shapes == [] then []
    else
      var vs := Gather(a, shapes[..|shapes| - 1]) + ShapeVertices(a, shapes[|shapes| - 1]);
      assert |vs| == 3 * (|Gather(a, shapes[..|shapes| - 1])| / 3 + |shapes[|shapes| - 1].numFaceVertices|);
      vs
  }

  /** The face normal the loader computes when the file has none: the cross product of
      the triangle's two edges from its first corner, not normalised. */
  function FaceNormal(mesh: seq<FullVertex>, f: int): V3
    requires 0 <= f && 3 * f + 3 <= |mesh|
  {
    Cross(mesh[3 * f + 1].position.Sub(mesh[3 * f].position), mesh[3 * f + 2].position.Sub(mesh[3 * f].position))
  }

  /** "Build normals if missing": every corner of a triangle gets its face normal. */
  function WithFaceNormals(mesh: seq<FullVertex>): (r: seq<FullVertex>)
    requires |mesh| % 3 == 0
    ensures |r| == |mesh|
  {
    seq(|mesh|, i requires 0 <= i < |mesh| => mesh[i].(normal := FaceNormal(mesh, i / 3)))
  }

  /** The spherical mapping of "Build UVs if missing" for one vertex: a vertex at
      distance Length != 0 from the origin gets U = 0.5 + atan2(z, x) and V = y of its
      position divided by Length. A vertex at the origin keeps its UV. */
  function SphericalUV(v: FullVertex, sqrt: SqrtFn, trig: Trig): FullVertex {
    var len := sqrt(SquaredLength(v.position));
    if len != 0.0 then
      var pos := v.position.Div(len);
      v.(uv := V2(0.5 + trig.atan2(pos.z, pos.x), pos.y))
    else v
  }

  function WithSphericalUVs(mesh: seq<FullVertex>, sqrt: SqrtFn, trig: Trig): (r: seq<FullVertex>)
    ensures |r| == |mesh|
  {
    seq(|mesh|, i requires 0 <= i < |mesh| => SphericalUV(mesh[i], sqrt, trig))
  }

  /** The vertex list before the tangent basis: gathered, then given face normals if the
      file has no normals and spherical UVs if it has no texture coordinates. */
  function Prepared(p: Parsed, sqrt: SqrtFn, trig: Trig): (vs: seq<FullVertex>)
    requires p.err == [] && Triangulated(p)
    ensures |vs| % 3 == 0
  {
    var gathered := Gather(p.attrib, p.shapes);
    var normals := if HasNormals(p.attrib) then gathered else WithFaceNormals(gathered);
    if HasTexCoords(p.attrib) then normals else WithSphericalUVs(normals, sqrt, trig)
  }

  /** The vertex list that is saved to the cache: Prepared with the tangent basis of
      Mesh::ComputeTangentBasis. */
  function Built(p: Parsed, sqrt: SqrtFn, trig: Trig): (vs: seq<FullVertex>)
    requires p.err == [] && Triangulated(p)
    ensures |vs| == |Prepared(p, sqrt, trig)|
  {
    var pre := Prepared(p, sqrt, trig);
    seq(|pre|, m requires 0 <= m < |pre| => TangentBasis.Expected(pre, m))
  }

  /** "Rescale positions": every position multiplied by Scale, nothing else touched. */
  function Rescaled(mesh: seq<FullVertex>, scale: real): (r: seq<FullVertex>)
    ensures |r| == |mesh|
  {
    seq(|mesh|, i requires 0 <= i < |mesh| => mesh[i].(position := mesh[i].position.Times(scale)))
  }

  /** The two outcomes of LoadObjNoConvertion: it fails only when there is no cache file
      and the parser reports an error. */
  predicate LoadFails(disk: Disk, filename: string, parse: string -> Parsed) {
    CacheName(filename) !in disk && parse(filename).err != []
  }

  /** The vertices LoadObjNoConvertion yields when it succeeds: the cached vertices if
      there is a cache file, the built ones otherwise; rescaled either way. */
  function Loaded(disk: Disk, filename: string, scale: real, parse: string -> Parsed, sqrt: SqrtFn, trig: Trig)
    : seq<FullVertex>
    requires !LoadFails(disk, filename, parse) && Triangulated(parse(filename))
  {
    match LoadFromCache(disk, filename)
    case Some(cached) => Rescaled(cached, scale)
    case None => Rescaled(Built(parse(filename), sqrt, trig), scale)
  }

  // ---------------------------------------------------------------------------
  // Properties of the building steps
  // ---------------------------------------------------------------------------

  /** Each corner vertex reads its position, and when present its normal and texture
      coordinate, from the parser's arrays at the corner's indices. */
  lemma CornerReadsItsIndices(a: Attrib, idx: Index)
    requires ValidIndex(a, idx)
    ensures var v, vi := CornerVertex(a, idx), idx.vertexIndex;
            v.position.x == a.vertices[3 * vi] && v.position.y == a.vertices[3 * vi + 1] &&
            v.position.z == a.vertices[3 * vi + 2]
    ensures HasNormals(a) ==> CornerVertex(a, idx).normal.y == a.normals[3 * idx.normalIndex + 1]
    ensures HasTexCoords(a) ==> CornerVertex(a, idx).uv.x == a.texcoords[2 * idx.texcoordIndex]
  {
  }

  /** The gathered list is the corners of shape 0, then those of shape 1, and so on:
      vertex 3f + j of a shape's run is corner j of its face f. */
  lemma {:induction false} GatherIsShapeByShape(a: Attrib, shapes: seq<Shape>, s: int, k: int)
    requires ValidShapes(a, shapes)
    requires 0 <= s < |shapes| && 0 <= k < |shapes[s].indices|
    ensures var before := |Gather(a, shapes[..s])|;
            before + k < |Gather(a, shapes)| &&
            Gather(a, shapes)[before + k] == CornerVertex(a, shapes[s].indices[k])
  {
    var last := |shapes| - 1;
    if s < last {
      assert shapes[..last][..s] == shapes[..s];
      GatherIsShapeByShape(a, shapes[..last], s, k);
    } else {
      assert shapes[..last] == shapes[..s];
    }
  }

  /** The built normal of a triangle is shared by its three corners and is perpendicular
      to both of its edges. */
  lemma FaceNormalsArePerpendicular(mesh: seq<FullVertex>, i: int)
    requires |mesh| % 3 == 0 && 0 <= i < |mesh|
    ensures var f, r := i / 3, WithFaceNormals(mesh);
            r[3 * f].normal == r[i].normal && r[3 * f + 1].normal == r[i].normal && r[3 * f + 2].normal == r[i].normal &&
            Dot(r[i].normal, mesh[3 * f + 1].position.Sub(mesh[3 * f].position)) == 0.0 &&
            Dot(r[i].normal, mesh[3 * f + 2].position.Sub(mesh[3 * f].position)) == 0.0
  {
    var f := i / 3;
    assert (3 * f + 1) / 3 == f && (3 * f + 2) / 3 == f;
    CrossIsPerpendicular(mesh[3 * f + 1].position.Sub(mesh[3 * f].position), mesh[3 * f + 2].position.Sub(mesh[3 * f].position));
  }

  /** Building normals changes nothing but the normals. */
  lemma FaceNormalsKeepTheRest(mesh: seq<FullVertex>, i: int)
    requires |mesh| % 3 == 0 && 0 <= i < |mesh|
    ensures WithFaceNormals(mesh)[i].(normal := mesh[i].normal) == mesh[i]
  {
  }

  /** The spherical mapping leaves a vertex of length 0 (at the origin) as it is. */
  lemma SphericalUVAtOrigin(v: FullVertex, sqrt: SqrtFn, trig: Trig)
    requires SquaredLength(v.position) == 0.0
    ensures SphericalUV(v, sqrt, trig) == v
  {
  }

  /** Away from the origin, the spherical mapping replaces the UV: V becomes the
      position's y over its length. Nothing but the UV changes. */
  lemma SphericalUVOffOrigin(v: FullVertex, sqrt: SqrtFn, trig: Trig)
    requires SquaredLength(v.position) != 0.0
    ensures sqrt(SquaredLength(v.position)) > 0.0
    ensures SphericalUV(v, sqrt, trig).uv.y * sqrt(SquaredLength(v.position)) == v.position.y
    ensures SphericalUV(v, sqrt, trig).(uv := v.uv) == v
  {
    SquaredLengthNonNegative(v.position);
    DivideThenMultiply(v.position.y, sqrt(SquaredLength(v.position)));
  }

  lemma DivideThenMultiply(y: real, len: real)
    requires len != 0.0
    ensures (y / len) * len == y
  {
  }

  /** Rescaling by 1 changes nothing. */
  lemma RescaleByOne(mesh: seq<FullVertex>)
    ensures Rescaled(mesh, 1.0) == mesh
  {
    forall i | 0 <= i < |mesh|
      ensures Rescaled(mesh, 1.0)[i] == mesh[i]
    {
      assert mesh[i].position.Times(1.0) == mesh[i].position;
    }
  }

  /** Rescaling twice is rescaling once by the product, and touches only positions. */
  lemma RescaleComposes(mesh: seq<FullVertex>, a: real, b: real)
    ensures Rescaled(Rescaled(mesh, a), b) == Rescaled(mesh, a * b)
    ensures forall i | 0 <= i < |mesh| :: Rescaled(mesh, a)[i].(position := mesh[i].position) == mesh[i]
  {
    forall i | 0 <= i < |mesh|
      ensures Rescaled(Rescaled(mesh, a), b)[i] == Rescaled(mesh, a * b)[i]
    {
      var p := mesh[i].position;
      assert (p.x * a) * b == p.x * (a * b) && (p.y * a) * b == p.y * (a * b) && (p.z * a) * b == p.z * (a * b);
    }
  }

  /** The cache holds the mesh before scaling, so a later load from the cache with another
      scale gets the mesh at that scale: after a successful parse and save, the next
      load of the file, whatever its scale, reads back exactly what the parse built. */
  lemma CacheIsScaleFree(disk: Disk, filename: string, s1: real, s2: real,
                         parse: string -> Parsed, sqrt: SqrtFn, trig: Trig)
    requires CacheName(filename) !in disk && parse(filename).err == [] && Triangulated(parse(filename))
    ensures var saved := disk[CacheName(filename) := SaveCache(Built(parse(filename), sqrt, trig))];
            !LoadFails(saved, filename, parse) &&
            Loaded(saved, filename, s2, parse, sqrt, trig) == Rescaled(Built(parse(filename), sqrt, trig), s2) &&
            Loaded(disk, filename, s1, parse, sqrt, trig) == Rescaled(Built(parse(filename), sqrt, trig), s1)
  {
    SavedMeshIsFound(disk, filename, Built(parse(filename), sqrt, trig));
  }

  // ---------------------------------------------------------------------------
  // The loaders
  // ---------------------------------------------------------------------------

  /** Mesh::LoadObjNoConvertion on an empty vertex list. With a cache file it returns the
      cached vertices, rescaled, and writes nothing. Without one it parses the file, and
      fails with no vertices if the parser reports an error. Otherwise it builds the
      vertices, saves them unscaled to the cache, and returns them rescaled. The
      tangent-basis warnings are dropped. */
  method LoadObjNoConvertion(disk: Disk, filename: string, scale: real,
                             parse: string -> Parsed, sqrt: SqrtFn, trig: Trig)
    returns (ok: bool, mesh: seq<FullVertex>, saved: Disk)
    requires Triangulated(parse(filename))
    ensures ok <==> !LoadFails(disk, filename, parse)
    ensures !ok ==> mesh == [] && saved == disk
    ensures ok ==> mesh == Loaded(disk, filename, scale, parse, sqrt, trig)
    ensures CacheName(filename) in disk ==> saved == disk
    ensures ok && CacheName(filename) !in disk ==>
      saved == disk[CacheName(filename) := SaveCache(Built(parse(filename), sqrt, trig))]
  {
    saved := disk;
    var unscaled: seq<FullVertex>;
    var cached := LoadFromCache(disk, filename);
    if cached.Some? {
      unscaled := cached.value;
    } else {
      var p := parse(filename);
      if p.err != [] {
        return false, [], disk;
      }
      var pre := Prepared(p, sqrt, trig);
      var degenerate, warned;
      unscaled, degenerate, warned := TangentBasis.ComputeTangentBasis(pre);
      assert unscaled == Built(p, sqrt, trig);
      saved := disk[CacheName(filename) := SaveCache(unscaled)];
    }
    ok := true;
    mesh := Rescale(unscaled, scale);
  }

  /** The "Rescale positions" loop. */
  method Rescale(mesh: seq<FullVertex>, scale: real) returns (out: seq<FullVertex>)
    ensures |out| == |mesh|
    ensures forall i | 0 <= i < |mesh| ::
      out[i].position == mesh[i].position.Times(scale) && out[i].(position := mesh[i].position) == mesh[i]
  {
    out := mesh;
    for i := 0 to |mesh|
      invariant |out| == |mesh|
      invariant forall k | 0 <= k < i :: out[k] == mesh[k].(position := mesh[k].position.Times(scale))
      invariant forall k | i <= k < |mesh| :: out[k] == mesh[k]
    {
      out := out[i := out[i].(position := out[i].position.Times(scale))];
    }
  }

  /** Mesh::LoadObj. On a failed load the cursor comes back unchanged and the buffer is
      untouched. Otherwise as many loaded vertices are converted as GetVertexCount
      admits: all of them when they fit, else only the first ones up to End. When End
      lies before the cursor, that count is negative: nothing is written and the
      returned cursor lies before `at`. */
  method LoadObj(buf: Buffer, at: int, endByte: int, d: Descriptor, filename: string, scale: real,
                 disk: Disk, parse: string -> Parsed, sqrt: SqrtFn, trig: Trig)
    returns (out: Buffer, end: int, saved: Disk)
    requires Fits(buf, at, endByte, d)
    requires Triangulated(parse(filename))
    ensures LoadFails(disk, filename, parse) ==> out == buf && end == at
    ensures !LoadFails(disk, filename, parse) ==>
      var mesh := Loaded(disk, filename, scale, parse, sqrt, trig);
      var n := Min(|mesh|, GetVertexCount(at, endByte, d));
      end == at + n && Wrote(buf, out, at, mesh, Max(n, 0), d)
  {
    var ok, mesh;
    ok, mesh, saved := LoadObjNoConvertion(disk, filename, scale, parse, sqrt, trig);
    if !ok {
      return buf, at, saved;
    }
    var meshSize := |mesh|;
    var sizeAvailable := GetVertexCount(at, endByte, d);
    if meshSize > sizeAvailable {
      meshSize := sizeAvailable;
    }
    CountFits(buf, at, endByte, d);
    out, end := ConvertVertices(buf, at, d, mesh, meshSize);
  }

  /** A mesh that fits is converted whole; one that does not fills the buffer up to End. */
  lemma LoadObjTruncates(buf: Buffer, at: int, endByte: int, d: Descriptor, mesh: seq<FullVertex>)
    requires Fits(buf, at, endByte, d) && endByte >= at * d.stride
    ensures var n := Min(|mesh|, GetVertexCount(at, endByte, d));
            0 <= n <= |mesh| && at + n <= |buf| &&
            (|mesh| <= GetVertexCount(at, endByte, d) ==> n == |mesh|) &&
            (|mesh| > GetVertexCount(at, endByte, d) ==> (at + n) * d.stride + d.stride > endByte)
  {
    CountFits(buf, at, endByte, d);
    var n := GetVertexCount(at, endByte, d);
    assert (at + n) * d.stride == at * d.stride + n * d.stride;
  }
}
