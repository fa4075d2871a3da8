/** GL::cache (opengl_helpers_cache.cpp/.h): meshes, textures and cube maps loaded
    once per file name and handed out by GL name afterwards.

    The cache is a value and every member returns the new cache. GL is modelled by the
    names it hands out (a counter, so every generated name is fresh), the process-wide
    state of the image loader (the flip flag and the cube map face counter of
    GL::UploadTexture) and a log of the GL calls that create, fill and delete objects.
    Binding and sampler parameters are not logged. */
module GLCache {
  import opened Wrappers
  import opened FloatLib
  import opened GLHelpers
  import Mesh
  import ObjLoad

  // ---------------------------------------------------------------------------
  // GL side
  // ---------------------------------------------------------------------------

  /** A GL call that creates, fills or deletes an object. */
  datatype Event =
    | GenBuffer(name: nat)
    | BufferData(name: nat, data: seq<Mesh.FullVertex>)
    | GenTexture(name: nat)
    | TexImage(upload: Upload)
    | GenerateMipmap
    | DeleteTexture(name: nat)
    | DeleteBuffer(name: nat)

  /** The next unused object name, the image loader's process-wide state, and the log. */
  datatype Gl = Gl(nextName: nat, loader: UploadState, log: seq<Event>)

  /** A fresh context: name 0 is never handed out, the flip flag is off and the static
      face counter starts at 0. */
  const InitialGl := Gl(1, UploadState(false, 0), [])

  /** The GL calls behind one GL::UploadTexture. */
  function UploadEvents(r: UploadResult): seq<Event> {
    (if r.upload.Some? then [TexImage(r.upload.value)] else []) + (if r.mipmaps then [GenerateMipmap] else [])
  }

  /** The decoder's contract: an image it returns has one to four channels. */
  ghost predicate WellBehaved(decode: Decoder) {
    forall name, flip, channels :: Decoded(decode(name, flip, channels))
  }

  /** What UploadTexture's decoding step yields for `name` under `flags`. */
  function Outcome(decode: Decoder, name: string, flags: bv32): Option<Image> {
    decode(name, Has(flags, ImgFlip), ForcedChannels(flags))
  }

  // ---------------------------------------------------------------------------
  // Cache entries
  // ---------------------------------------------------------------------------

  /** cache::mesh: the vertex buffer and its vertex count. */
  datatype MeshEntry = MeshEntry(buffer: nat, size: int)

  /** A width or height read back from UploadTexture: the `int Width, Height` locals of
      LoadTexture stay uninitialised when decoding fails. */
  datatype Dim = Known(value: int) | Indeterminate

  /** cache::texture, with the ImageFlags of its texture_identifier key. */
  datatype TextureEntry = TextureEntry(flags: bv32, id: nat, width: Dim, height: Dim)

  /** cache::textureCubemap, with the ImageFlags of its key. */
  datatype CubemapEntry = CubemapEntry(flags: bv32, id: nat, widths: seq<int>, heights: seq<int>)

  /** VertexBufferMap, TextureMap and TextureCubeMap. texture_identifier's operator<
      compares file names only, so two identifiers with the same file name are the same
      key whatever their flags: the maps are keyed by file name, and the flags of the
      identifier that created an entry are kept in the entry. */
  datatype Cache = Cache(meshes: map<string, MeshEntry>, textures: map<string, TextureEntry>,
                         cubemaps: map<string, CubemapEntry>)

  const EmptyCache := Cache(map[], map[], map[])

  /** Entries are only ever added: every key of `m` is still in `m2` with its value. */
  predicate Grows<K, V(==)>(m: map<K, V>, m2: map<K, V>) {
    forall k | k in m :: k in m2 && m2[k] == m[k]
  }

  /** Every name in the cache was generated before `gl.nextName`, and no two entries
      share a name. */
  predicate Valid(c: Cache, gl: Gl) {
    0 < gl.nextName &&
    (forall k | k in c.meshes :: 0 < c.meshes[k].buffer < gl.nextName) &&
    (forall k | k in c.textures :: 0 < c.textures[k].id < gl.nextName) &&
    (forall k | k in c.cubemaps :: 0 < c.cubemaps[k].id < gl.nextName) &&
    NamesDistinct(c)
  }

  predicate NamesDistinct(c: Cache) {
    (forall a, b | a in c.meshes && b in c.meshes && a != b :: c.meshes[a].buffer != c.meshes[b].buffer) &&
    (forall a, b | a in c.textures && b in c.textures && a != b :: c.textures[a].id != c.textures[b].id) &&
    (forall a, b | a in c.cubemaps && b in c.cubemaps && a != b :: c.cubemaps[a].id != c.cubemaps[b].id) &&
    (forall a, b | a in c.textures && b in c.cubemaps :: c.textures[a].id != c.cubemaps[b].id)
  }

  lemma EmptyCacheIsValid()
    ensures Valid(EmptyCache, InitialGl)
  {
  }

  // ---------------------------------------------------------------------------
  // cache::LoadObj
  // ---------------------------------------------------------------------------

  /** The vertices Mesh::LoadObjNoConvertion leaves in the cleared TmpBuffer: the
      loaded mesh, or nothing when the file can be neither read from its cache file nor
      parsed. */
  function Fetched(disk: ObjLoad.Disk, filename: string, scale: real, parse: string -> ObjLoad.Parsed,
                   sqrt: SqrtFn, trig: Trig): seq<Mesh.FullVertex>
    requires ObjLoad.Triangulated(parse(filename))
  {
    if ObjLoad.LoadFails(disk, filename, parse) then [] else ObjLoad.Loaded(disk, filename, scale, parse, sqrt, trig)
  }

  /** cache::LoadObj. A file name already in VertexBufferMap returns its buffer and
      writes its count when asked, with no GL work. Otherwise the mesh is loaded into
      the cleared TmpBuffer, uploaded to a fresh buffer, and recorded with its count;
      the result of LoadObjNoConvertion is not checked, so a file that fails to load
      gets an empty buffer and a count of 0, and that entry is returned from then on.
      Scale is not part of the key. */
  method LoadObj(c: Cache, gl: Gl, disk: ObjLoad.Disk, filename: string, scale: real, wantCount: bool,
                 parse: string -> ObjLoad.Parsed, sqrt: SqrtFn, trig: Trig)
    returns (c2: Cache, gl2: Gl, disk2: ObjLoad.Disk, buffer: nat, countOut: Option<int>)
    requires ObjLoad.Triangulated(parse(filename))
    ensures filename in c2.meshes && c2.meshes[filename].buffer == buffer
    ensures countOut == (if wantCount then Some(c2.meshes[filename].size) else None)
    ensures Grows(c.meshes, c2.meshes) && c2.meshes.Keys == c.meshes.Keys + {filename}
    ensures c2.textures == c.textures && c2.cubemaps == c.cubemaps
    ensures filename in c.meshes ==> c2 == c && gl2 == gl && disk2 == disk
    ensures filename !in c.meshes ==>
      var mesh := Fetched(disk, filename, scale, parse, sqrt, trig);
      buffer == gl.nextName && gl2.nextName == gl.nextName + 1 && gl2.loader == gl.loader &&
      gl2.log == gl.log + [GenBuffer(buffer), BufferData(buffer, mesh)] &&
      c2.meshes[filename].size == |mesh|
    ensures Valid(c, gl) ==> Valid(c2, gl2)
  {
    if filename in c.meshes {
      var found := c.meshes[filename];
      countOut := if wantCount then Some(found.size) else None;
      return c, gl, disk, found.buffer, countOut;
    }
    var ok, tmp;
    ok, tmp, disk2 := ObjLoad.LoadObjNoConvertion(disk, filename, scale, parse, sqrt, trig);
    buffer := gl.nextName;
    gl2 := Gl(gl.nextName + 1, gl.loader, gl.log + [GenBuffer(buffer), BufferData(buffer, tmp)]);
    countOut := if wantCount then Some(|tmp|) else None;
    c2 := c.(meshes := c.meshes[filename := MeshEntry(buffer, |tmp|)]);
  }

  /** A second load of the same file, at any scale, returns the first load's buffer and
      count and makes no GL call: the mesh keeps the scale it was first loaded at. */
  method LoadObjTwice(c: Cache, gl: Gl, disk: ObjLoad.Disk, filename: string, scale1: real, scale2: real,
                      parse: string -> ObjLoad.Parsed, sqrt: SqrtFn, trig: Trig)
    returns (buffer1: nat, buffer2: nat, count1: int, count2: int, gl2: Gl)
    requires ObjLoad.Triangulated(parse(filename))
    requires filename !in c.meshes
    ensures buffer2 == buffer1 && count2 == count1
    ensures gl2.log == gl.log + [GenBuffer(buffer1), BufferData(buffer1, Fetched(disk, filename, scale1, parse, sqrt, trig))]
  {
    var c1, gl1, disk1, out1, c3, disk3, out2;
    c1, gl1, disk1, buffer1, out1 := LoadObj(c, gl, disk, filename, scale1, true, parse, sqrt, trig);
    c3, gl2, disk3, buffer2, out2 := LoadObj(c1, gl1, disk1, filename, scale2, true, parse, sqrt, trig);
    count1, count2 := out1.value, out2.value;
  }

  // ---------------------------------------------------------------------------
  // cache::LoadTexture
  // ---------------------------------------------------------------------------

  /** Default ImageFlags of LoadTexture and LoadCubemapTexture. */
  const DefaultTextureFlags: bv32 := 0
  const DefaultCubemapFlags: bv32 := 1 << 7

  /** `ImageFlags & IMG_CUBEMAP ? ImageFlags & ~IMG_CUBEMAP : ImageFlags`. */
  function WithoutCubemap(flags: bv32): (r: bv32)
    ensures !Has(r, ImgCubemap) && r | ImgCubemap == flags | ImgCubemap
  {
    if Has(flags, ImgCubemap) then flags & !ImgCubemap else flags
  }

  /** `ImageFlags & IMG_CUBEMAP ? ImageFlags : ImageFlags | IMG_CUBEMAP`. */
  function WithCubemap(flags: bv32): (r: bv32)
    ensures Has(r, ImgCubemap) && r & !ImgCubemap == flags & !ImgCubemap
  {
    if Has(flags, ImgCubemap) then flags else flags | ImgCubemap
  }

  /** The cube map flag is the only one WithoutCubemap and WithCubemap change, so the
      other flags reach the decoder unchanged: IMG_CUBEMAP is not one of the flags the
      decoding step reads. */
  lemma CubemapFlagLeavesDecodingAlone(decode: Decoder, name: string, flags: bv32)
    ensures Outcome(decode, name, WithoutCubemap(flags)) == Outcome(decode, name, flags)
    ensures Outcome(decode, name, WithCubemap(flags)) == Outcome(decode, name, flags)
  {
    var a, b := WithoutCubemap(flags), WithCubemap(flags);
    assert Has(a, ImgFlip) == Has(flags, ImgFlip) && Has(b, ImgFlip) == Has(flags, ImgFlip);
    LastFlagWins(a);
    LastFlagWins(b);
    LastFlagWins(flags);
    assert ForcedChannels(a) == ForcedChannels(flags);
    assert ForcedChannels(b) == ForcedChannels(flags);
  }

  /** The outputs of one LoadTexture call: the new cache and GL state, the texture
      name, and what was written through WidthOut and HeightOut (nothing for a null
      pointer). */
  datatype TextureResult = TextureResult(cache: Cache, gl: Gl, id: nat, widthOut: Option<Dim>, heightOut: Option<Dim>)

  /** A width read back from a decoding outcome, as LoadTexture's locals hold it. */
  function DimOf(img: Option<Image>, width: bool): Dim {
    match img
    case None => Indeterminate
    case Some(i) => Known(if width then i.width else i.height)
  }

  /** `log2` is `log` followed by `first` and then more calls. */
  predicate Appends(log: seq<Event>, log2: seq<Event>, first: Event) {
    |log2| > |log| && log2[..|log|] == log && log2[|log|] == first
  }

  /** Every texture upload among `events` goes to the 2D target. */
  predicate Uploads2D(events: seq<Event>) {
    forall i | 0 <= i < |events| :: events[i].TexImage? ==> events[i].upload.target == Texture2D
  }

  /** Every texture upload among `events` goes to a cube map face. */
  predicate UploadsToFaces(events: seq<Event>) {
    forall i | 0 <= i < |events| :: events[i].TexImage? ==> events[i].upload.target.CubeFace?
  }

  /** The miss path of cache::LoadTexture: a fresh texture name, then the upload with
      IMG_CUBEMAP cleared, whose sizes are read back into the new entry (uninitialised
      when decoding failed). */
  function NewTexture(gl: Gl, filename: string, flags: bv32, decode: Decoder): (r: (TextureEntry, Gl))
    requires WellBehaved(decode)
    ensures var img := Outcome(decode, filename, flags);
            r.0 == TextureEntry(flags, gl.nextName, DimOf(img, true), DimOf(img, false))
    ensures r.1.nextName == gl.nextName + 1 && r.1.loader.faceCounter == gl.loader.faceCounter
    ensures Appends(gl.log, r.1.log, GenTexture(gl.nextName)) && Uploads2D(r.1.log[|gl.log| + 1..])
  {
    var texture := gl.nextName;
    var cleared := WithoutCubemap(flags);
    var u := UploadTexture(gl.loader, filename, cleared, decode, true, true);
    CubemapFlagLeavesDecodingAlone(decode, filename, flags);
    var width := if u.widthOut.Some? then Known(u.widthOut.value) else Indeterminate;
    var height := if u.heightOut.Some? then Known(u.heightOut.value) else Indeterminate;
    var events := UploadEvents(u);
    assert gl.log + [GenTexture(texture)] + events == gl.log + ([GenTexture(texture)] + events);
    (TextureEntry(flags, texture, width, height), Gl(texture + 1, u.state, gl.log + [GenTexture(texture)] + events))
  }

  /** cache::LoadTexture. A hit returns the stored name and writes the stored size
      when asked. A miss generates a texture, uploads the file with IMG_CUBEMAP
      cleared, writes the size when asked (uninitialised when decoding failed), and
      stores the entry under the flags it was asked with. */
  function LoadTexture(c: Cache, gl: Gl, filename: string, flags: bv32, decode: Decoder,
                       wantWidth: bool, wantHeight: bool): (r: TextureResult)
    requires WellBehaved(decode)
    ensures filename in r.cache.textures && r.cache.textures[filename].id == r.id
    ensures r.widthOut == (if wantWidth then Some(r.cache.textures[filename].width) else None)
    ensures r.heightOut == (if wantHeight then Some(r.cache.textures[filename].height) else None)
    ensures Grows(c.textures, r.cache.textures) && r.cache.textures.Keys == c.textures.Keys + {filename}
    ensures r.cache.meshes == c.meshes && r.cache.cubemaps == c.cubemaps
    ensures filename in c.textures ==> r.cache == c && r.gl == gl
    ensures filename !in c.textures ==>
      var img := Outcome(decode, filename, flags);
      r.id == gl.nextName && r.gl.nextName == gl.nextName + 1 &&
      r.cache.textures[filename] == TextureEntry(flags, r.id, DimOf(img, true), DimOf(img, false)) &&
      r.gl.loader.faceCounter == gl.loader.faceCounter &&
      Appends(gl.log, r.gl.log, GenTexture(r.id)) && Uploads2D(r.gl.log[|gl.log| + 1..])
  {
    if filename in c.textures then
      var found := c.textures[filename];
      TextureResult(c, gl, found.id, if wantWidth then Some(found.width) else None,
                    if wantHeight then Some(found.height) else None)
    else
      var made := NewTexture(gl, filename, flags, decode);
      var entry := made.0;
      TextureResult(c.(textures := c.textures[filename := entry]), made.1, entry.id,
                    if wantWidth then Some(entry.width) else None, if wantHeight then Some(entry.height) else None)
  }

  /** LoadTexture keeps the cache valid. */
  lemma LoadTexturePreservesValid(c: Cache, gl: Gl, filename: string, flags: bv32, decode: Decoder, w: bool, h: bool)
    requires WellBehaved(decode) && Valid(c, gl)
    ensures var r := LoadTexture(c, gl, filename, flags, decode, w, h); Valid(r.cache, r.gl)
  {
  }

  /** Once a file is loaded, loading it again with any flags is a hit: the same name
      and size come back and GL is not touched. So the flags of the first request
      decide how the file is decoded for every later one. */
  lemma SecondTextureLoadIsHit(c: Cache, gl: Gl, filename: string, flags1: bv32, flags2: bv32, decode: Decoder,
                               w1: bool, h1: bool, w2: bool, h2: bool)
    requires WellBehaved(decode)
    ensures var r1 := LoadTexture(c, gl, filename, flags1, decode, w1, h1);
            var r2 := LoadTexture(r1.cache, r1.gl, filename, flags2, decode, w2, h2);
            r2.id == r1.id && r2.cache == r1.cache && r2.gl == r1.gl &&
            (w1 && w2 ==> r2.widthOut == r1.widthOut) && (h1 && h2 ==> r2.heightOut == r1.heightOut) &&
            r2.cache.textures[filename].flags == (if filename in c.textures then c.textures[filename].flags else flags1)
  {
  }

  /** media/Black.png is requested flipped with mipmaps by one scene and unflipped with
      mipmaps by another. Through one cache the second request gets the first texture,
      which was decoded flipped. */
  lemma BlackTextureKeepsFirstFlags(gl: Gl, decode: Decoder)
    requires WellBehaved(decode)
    ensures var first := LoadTexture(EmptyCache, gl, "media/Black.png", ImgFlip | ImgGenMipmaps, decode, false, false);
            var second := LoadTexture(first.cache, first.gl, "media/Black.png", ImgGenMipmaps, decode, false, false);
            second.id == first.id && second.gl == first.gl &&
            Has(second.cache.textures["media/Black.png"].flags, ImgFlip) && !Has(ImgGenMipmaps, ImgFlip)
  {
    SecondTextureLoadIsHit(EmptyCache, gl, "media/Black.png", ImgFlip | ImgGenMipmaps, ImgGenMipmaps, decode,
                           false, false, false, false);
  }

  // ---------------------------------------------------------------------------
  // cache::LoadCubemapTexture
  // ---------------------------------------------------------------------------

  /** The uploads of LoadCubemapTexture's loop: the loader state after them, their GL
      calls, and the width and height each one wrote (0, the pushed value, when
      decoding failed). */
  datatype FacesResult = FacesResult(loader: UploadState, events: seq<Event>, widths: seq<int>, heights: seq<int>)

  /** The size recorded for a face: the decoded size, or the 0 pushed before the call. */
  function SizeOr0(img: Option<Image>, width: bool): int {
    match img
    case None => 0
    case Some(i) => if width then i.width else i.height
  }

  /** With IMG_CUBEMAP set, an upload goes to a cube map face and steps the counter. */
  lemma FaceUploadTargetsCubeFace(st: UploadState, name: string, flags: bv32, decode: Decoder)
    requires Has(flags, ImgCubemap) && WellBehaved(decode)
    ensures var u := UploadTexture(st, name, flags, decode, true, true);
            UploadsToFaces(UploadEvents(u)) &&
            u.widthOut.GetOr(0) == SizeOr0(Outcome(decode, name, flags), true) &&
            u.heightOut.GetOr(0) == SizeOr0(Outcome(decode, name, flags), false)
  {
    if Outcome(decode, name, flags).Some? {
      UploadTarget(st, name, flags, decode, true, true);
      UploadFormats(st, name, flags, decode, true, true);
    }
  }

  /** The files whose decoding succeeds under `flags`. */
  function Successes(files: seq<string>, flags: bv32, decode: Decoder): (n: nat)
    ensures n <= |files|
  {
    if files == [] then 0
    else (if Outcome(decode, files[0], flags).Some? then 1 else 0) + Successes(files[1..], flags, decode)
  }

  /** The loop of LoadCubemapTexture: one UploadTexture per file, in order, each with
      the cube map flag set, threading the loader state. */
  function UploadFaces(st: UploadState, files: seq<string>, flags: bv32, decode: Decoder): (r: FacesResult)
    requires Has(flags, ImgCubemap) && WellBehaved(decode)
    ensures |r.widths| == |files| && |r.heights| == |files|
    ensures forall i | 0 <= i < |files| ::
      r.widths[i] == SizeOr0(Outcome(decode, files[i], flags), true) &&
      r.heights[i] == SizeOr0(Outcome(decode, files[i], flags), false)
    ensures UploadsToFaces(r.events)
    decreases |files|
  {
    if files == [] then FacesResult(st, [], [], [])
    else
      var u := UploadTexture(st, files[0], flags, decode, true, true);
      FaceUploadTargetsCubeFace(st, files[0], flags, decode);
      var rest := UploadFaces(u.state, files[1..], flags, decode);
      FacesResult(rest.loader, UploadEvents(u) + rest.events,
                  [u.widthOut.GetOr(0)] + rest.widths, [u.heightOut.GetOr(0)] + rest.heights)
  }

  /** Each successful face upload steps the face counter once: from the state after k
      uploads, the loop leaves the counter where k + Successes uploads leave it. */
  lemma {:induction false} UploadFacesStepsCounter(st: UploadState, files: seq<string>, flags: bv32, decode: Decoder, k: nat)
    requires Has(flags, ImgCubemap) && WellBehaved(decode)
    requires st.faceCounter == FaceAfterAsWritten(k)
    ensures UploadFaces(st, files, flags, decode).loader.faceCounter == FaceAfterAsWritten(k + Successes(files, flags, decode))
    decreases |files|
  {
    if files != [] {
      var u := UploadTexture(st, files[0], flags, decode, true, true);
      if u.upload.Some? {
        UploadTarget(st, files[0], flags, decode, true, true);
        UploadFacesStepsCounter(u.state, files[1..], flags, decode, k + 1);
      } else {
        UploadFacesStepsCounter(u.state, files[1..], flags, decode, k);
      }
    }
  }

  /** The outputs of one LoadCubemapTexture call. */
  datatype CubemapResult = CubemapResult(cache: Cache, gl: Gl, id: nat, widthsOut: Option<seq<int>>,
                                         heightsOut: Option<seq<int>>)

  /** cache::LoadCubemapTexture. The key is the first file name. A hit returns the
      stored name and writes the stored sizes when asked. A miss generates a texture,
      uploads every file with IMG_CUBEMAP forced, writes the sizes when asked, and
      stores the entry under the flags it was asked with. */
  function LoadCubemapTexture(c: Cache, gl: Gl, filenames: seq<string>, flags: bv32, decode: Decoder,
                              wantWidths: bool, wantHeights: bool): (r: CubemapResult)
    requires |filenames| > 0 && WellBehaved(decode)
    ensures filenames[0] in r.cache.cubemaps && r.cache.cubemaps[filenames[0]].id == r.id
    ensures r.widthsOut == (if wantWidths then Some(r.cache.cubemaps[filenames[0]].widths) else None)
    ensures r.heightsOut == (if wantHeights then Some(r.cache.cubemaps[filenames[0]].heights) else None)
    ensures Grows(c.cubemaps, r.cache.cubemaps) && r.cache.cubemaps.Keys == c.cubemaps.Keys + {filenames[0]}
    ensures r.cache.meshes == c.meshes && r.cache.textures == c.textures
    ensures filenames[0] in c.cubemaps ==> r.cache == c && r.gl == gl
    ensures filenames[0] !in c.cubemaps ==>
      var e := r.cache.cubemaps[filenames[0]];
      r.id == gl.nextName && r.gl.nextName == gl.nextName + 1 && e.flags == flags &&
      |e.widths| == |filenames| && |e.heights| == |filenames| &&
      (forall i | 0 <= i < |filenames| ::
        e.widths[i] == SizeOr0(Outcome(decode, filenames[i], flags), true) &&
        e.heights[i] == SizeOr0(Outcome(decode, filenames[i], flags), false)) &&
      Appends(gl.log, r.gl.log, GenTexture(r.id)) && UploadsToFaces(r.gl.log[|gl.log| + 1..])
  {
    var key := filenames[0];
    if key in c.cubemaps then
      var found := c.cubemaps[key];
      CubemapResult(c, gl, found.id, if wantWidths then Some(found.widths) else None,
                    if wantHeights then Some(found.heights) else None)
    else
      var texture := gl.nextName;
      var faces := UploadFaces(gl.loader, filenames, WithCubemap(flags), decode);
      FacesDecodeAsRequested(decode, filenames, flags);
      assert gl.log + [GenTexture(texture)] + faces.events == gl.log + ([GenTexture(texture)] + faces.events);
      var gl2 := Gl(texture + 1, faces.loader, gl.log + [GenTexture(texture)] + faces.events);
      var c2 := c.(cubemaps := c.cubemaps[key := CubemapEntry(flags, texture, faces.widths, faces.heights)]);
      CubemapResult(c2, gl2, texture, if wantWidths then Some(faces.widths) else None,
                    if wantHeights then Some(faces.heights) else None)
  }

  /** Forcing the cube map flag leaves every file's decoding outcome as requested. */
  lemma FacesDecodeAsRequested(decode: Decoder, files: seq<string>, flags: bv32)
    ensures forall i | 0 <= i < |files| :: Outcome(decode, files[i], WithCubemap(flags)) == Outcome(decode, files[i], flags)
  {
    forall i | 0 <= i < |files|
      ensures Outcome(decode, files[i], WithCubemap(flags)) == Outcome(decode, files[i], flags)
    {
      CubemapFlagLeavesDecodingAlone(decode, files[i], flags);
    }
  }

  /** LoadCubemapTexture keeps the cache valid. */
  lemma LoadCubemapPreservesValid(c: Cache, gl: Gl, filenames: seq<string>, flags: bv32, decode: Decoder, w: bool, h: bool)
    requires |filenames| > 0 && WellBehaved(decode) && Valid(c, gl)
    ensures var r := LoadCubemapTexture(c, gl, filenames, flags, decode, w, h); Valid(r.cache, r.gl)
  {
  }

  /** Only the first file name is the key: a list with the same first file and any
      other faces returns the cube map loaded first, with its sizes. */
  lemma SecondCubemapLoadIsHit(c: Cache, gl: Gl, files1: seq<string>, files2: seq<string>, flags1: bv32, flags2: bv32,
                               decode: Decoder)
    requires |files1| > 0 && |files2| > 0 && files2[0] == files1[0] && WellBehaved(decode)
    ensures var r1 := LoadCubemapTexture(c, gl, files1, flags1, decode, true, true);
            var r2 := LoadCubemapTexture(r1.cache, r1.gl, files2, flags2, decode, true, true);
            r2.id == r1.id && r2.gl == r1.gl && r2.widthsOut == r1.widthsOut && r2.heightsOut == r1.heightsOut
  {
  }

  /** With the face counter as written, a first cube map of six decodable faces loaded
      in a fresh context leaves the counter at 6, which names no face: the next cube
      map's first upload goes to GL_TEXTURE_CUBE_MAP_POSITIVE_X + 6. */
  lemma SecondCubemapStartsOffTheFaces(c: Cache, files: seq<string>, flags: bv32, decode: Decoder)
    requires |files| == 6 && files[0] !in c.cubemaps && WellBehaved(decode)
    requires forall i | 0 <= i < 6 :: Outcome(decode, files[i], flags).Some?
    ensures LoadCubemapTexture(c, InitialGl, files, flags, decode, false, false).gl.loader.faceCounter == 6
  {
    FacesDecodeAsRequested(decode, files, flags);
    AllSucceed(files, WithCubemap(flags), decode);
    UploadFacesStepsCounter(UploadState(false, 0), files, WithCubemap(flags), decode, 0);
    CounterAsWrittenHasSevenStates(6);
  }

  /** When every file decodes, every file is a success. */
  lemma {:induction false} AllSucceed(files: seq<string>, flags: bv32, decode: Decoder)
    requires forall i | 0 <= i < |files| :: Outcome(decode, files[i], flags).Some?
    ensures Successes(files, flags, decode) == |files|
    decreases |files|
  {
    if files != [] {
      assert Outcome(decode, files[0], flags).Some?;
      AllSucceed(files[1..], flags, decode);
    }
  }

  // ---------------------------------------------------------------------------
  // cache::~cache
  // ---------------------------------------------------------------------------

  /** The names of the textures of a texture map. */
  function TextureIds(m: map<string, TextureEntry>): set<nat> {
    set k | k in m :: m[k].id
  }

  /** cache::~cache: deletes every texture of TextureMap, then every buffer of
      VertexBufferMap. The cube map textures of TextureCubeMap are not deleted. The
      order within each map is not modelled. */
  method Destroy(c: Cache) returns (deleted: seq<Event>)
    requires NamesDistinct(c)
    ensures |deleted| == |c.textures| + |c.meshes|
    ensures forall i | 0 <= i < |c.textures| :: deleted[i].DeleteTexture?
    ensures forall i | |c.textures| <= i < |deleted| :: deleted[i].DeleteBuffer?
    ensures forall k | k in c.textures :: DeleteTexture(c.textures[k].id) in deleted
    ensures forall k | k in c.meshes :: DeleteBuffer(c.meshes[k].buffer) in deleted
    ensures forall k | k in c.cubemaps :: DeleteTexture(c.cubemaps[k].id) !in deleted
  {
    var textures := DeleteTextures(c.textures);
    var buffers := DeleteBuffers(c.meshes);
    deleted := textures + buffers;
    forall k | k in c.cubemaps
      ensures DeleteTexture(c.cubemaps[k].id) !in deleted
    {
      assert c.cubemaps[k].id !in TextureIds(c.textures);
    }
  }

  /** The first loop of ~cache: one glDeleteTextures per entry. */
  method DeleteTextures(m: map<string, TextureEntry>) returns (deleted: seq<Event>)
    ensures |deleted| == |m|
    ensures forall i | 0 <= i < |deleted| :: deleted[i].DeleteTexture? && deleted[i].name in TextureIds(m)
    ensures forall k | k in m :: DeleteTexture(m[k].id) in deleted
  {
    deleted := [];
    var left := m.Keys;
    while left != {}
      invariant left <= m.Keys
      invariant |deleted| == |m.Keys| - |left|
      invariant forall i | 0 <= i < |deleted| :: deleted[i].DeleteTexture? && deleted[i].name in TextureIds(m)
      invariant forall k | k in m && k !in left :: DeleteTexture(m[k].id) in deleted
      decreases |left|
    {
      var k :| k in left;
      deleted := deleted + [DeleteTexture(m[k].id)];
      left := left - {k};
    }
  }

  /** The second loop of ~cache: one glDeleteBuffers per entry. */
  method DeleteBuffers(m: map<string, MeshEntry>) returns (deleted: seq<Event>)
    ensures |deleted| == |m|
    ensures forall i | 0 <= i < |deleted| :: deleted[i].DeleteBuffer?
    ensures forall k | k in m :: DeleteBuffer(m[k].buffer) in deleted
  {
    deleted := [];
    var left := m.Keys;
    while left != {}
      invariant left <= m.Keys
      invariant |deleted| == |m.Keys| - |left|
      invariant forall i | 0 <= i < |deleted| :: deleted[i].DeleteBuffer?
      invariant forall k | k in m && k !in left :: DeleteBuffer(m[k].buffer) in deleted
      decreases |left|
    {
      var k :| k in left;
      deleted := deleted + [DeleteBuffer(m[k].buffer)];
      left := left - {k};
    }
  }
}
