/** The pure parts of opengl_helpers.cpp/.h: the flag enums, shader-source assembly,
    the decoding of image flags into channel counts and texture formats, the control
    flow of GL::UploadTexture around the image decoder, and the checkerboard texture.

    GL calls are not executed: a compiled shader is the list of sources handed to
    glShaderSource, and an upload is a record of the glTexImage2D arguments. The GLSL
    text of the injected sources is not modelled; a source is named by what it is. */
module GLHelpers {
  import opened Wrappers
  import opened Maths

  // ---------------------------------------------------------------------------
  // Enumerations
  // ---------------------------------------------------------------------------

  /** image_flags. */
  const ImgFlip: bv32 := 1 << 0
  const ImgForceGrey: bv32 := 1 << 1
  const ImgForceGreyAlpha: bv32 := 1 << 2
  const ImgForceRgb: bv32 := 1 << 3
  const ImgForceRgba: bv32 := 1 << 4
  const ImgGenMipmaps: bv32 := 1 << 5
  const ImgSrgbSpace: bv32 := 1 << 6
  const ImgCubemap: bv32 := 1 << 7

  const ImageFlagBits: seq<bv32> :=
    [ImgFlip, ImgForceGrey, ImgForceGreyAlpha, ImgForceRgb, ImgForceRgba, ImgGenMipmaps, ImgSrgbSpace, ImgCubemap]

  /** GLSL_Include. */
  const IncludePhongLight: bv32 := 1 << 0
  const IncludeShadow: bv32 := 2 << 0
  const IncludeKernels: bv32 := 3 << 0
  const IncludePBR: bv32 := 4 << 0

  /** `Flags & Flag` used as a condition. */
  predicate Has(flags: bv32, flag: bv32) {
    flags & flag != 0
  }

  /** The eight image flags are the single bits 1 << 0 to 1 << 7, so no two overlap. */
  lemma ImageFlagsAreDistinctBits()
    ensures |ImageFlagBits| == 8
    ensures forall i | 0 <= i < 8 :: ImageFlagBits[i] == 1 << i
    ensures forall i, j | 0 <= i < j < 8 :: ImageFlagBits[i] & ImageFlagBits[j] == 0
  {
  }

  /** GLINCLUDE_KERNELS is not a bit of its own: it is PHONGLIGHT | SHADOW, and PBR is
      the only flag that shares no bit with it. */
  lemma KernelsIsPhongOrShadow()
    ensures IncludeKernels == IncludePhongLight | IncludeShadow
    ensures IncludePBR & IncludeKernels == 0
    ensures forall flags: bv32 :: Has(flags, IncludeKernels) <==> Has(flags, IncludePhongLight) || Has(flags, IncludeShadow)
  {
    forall flags: bv32
      ensures Has(flags, IncludeKernels) <==> Has(flags, IncludePhongLight) || Has(flags, IncludeShadow)
    {
      assert flags & 3 == (flags & 1) | (flags & 2);
    }
  }

  // ---------------------------------------------------------------------------
  // Shader sources
  // ---------------------------------------------------------------------------

  /** One string handed to glShaderSource. */
  datatype Source =
    | Version           // "#version 330 core\n"
    | StructDefs        // ShaderStructsDefinitionsStr
    | Kernel            // KernelStr
    | PhongLighting     // PhongLightingStr
    | ShadowSource      // ShadowStr
    | PBRSource         // PBRStr
    | User(text: string)

  /** The order in which the library sources can be injected. */
  const IncludeOrder: seq<Source> := [StructDefs, Kernel, PhongLighting, ShadowSource, PBRSource]

  /** Whether `includes` asks for the library source `s`. */
  predicate Requested(includes: bv32, s: Source) {
    match s
    case StructDefs => includes != 0
    case Kernel => Has(includes, IncludeKernels)
    case PhongLighting => Has(includes, IncludePhongLight)
    case ShadowSource => Has(includes, IncludeShadow)
    case PBRSource => Has(includes, IncludePBR)
    case _ => false
  }

  /** The one-element list [s] if `includes` asks for `s`, else nothing. */
  function Pick(includes: bv32, s: Source): seq<Source> {
    if Requested(includes, s) then [s] else []
  }

  /** The elements of `order` that `includes` asks for, in the same order. */
  function Selected(order: seq<Source>, includes: bv32): (r: seq<Source>)
    ensures forall s :: s in r <==> s in order && Requested(includes, s)
  {
    if order == [] then [] else Pick(includes, order[0]) + Selected(order[1..], includes)
  }

  /** `if (Includes & Flag) Sources.push_back(Source)`. */
  function Push(sources: seq<Source>, includes: bv32, s: Source): seq<Source> {
    if Requested(includes, s) then sources + [s] else sources
  }

  /** GL::InjectIncludes: pushes the struct definitions if any flag is set, then the
      kernel, Phong, shadow and PBR sources, each if its flag is set. */
  function InjectIncludes(sources: seq<Source>, includes: bv32): (r: seq<Source>)
    ensures |r| >= |sources| && r[..|sources|] == sources
  {
    var withStructs := Push(sources, includes, StructDefs);
    var withKernel := Push(withStructs, includes, Kernel);
    var withPhong := Push(withKernel, includes, PhongLighting);
    var withShadow := Push(withPhong, includes, ShadowSource);
    Push(withShadow, includes, PBRSource)
  }

  /** InjectIncludes appends exactly the requested library sources, in the fixed order
      structs, kernel, Phong, shadow, PBR. */
  lemma InjectIncludesFollowsOrder(sources: seq<Source>, includes: bv32)
    ensures InjectIncludes(sources, includes) == sources + Selected(IncludeOrder, includes)
  {
    SelectedIncludeOrder(includes);
    InjectIncludesPicks(sources, includes);
  }

  /** The requested part of IncludeOrder, one candidate at a time. */
  lemma SelectedIncludeOrder(includes: bv32)
    ensures Selected(IncludeOrder, includes) ==
      Pick(includes, StructDefs) + (Pick(includes, Kernel) + (Pick(includes, PhongLighting) +
      (Pick(includes, ShadowSource) + Pick(includes, PBRSource))))
  {
    var o := IncludeOrder;
    assert o[4..][1..] == [];
    assert Selected(o[4..], includes) == Pick(includes, PBRSource);
    assert o[3..][1..] == o[4..];
    assert Selected(o[3..], includes) == Pick(includes, ShadowSource) + Selected(o[4..], includes);
    assert o[2..][1..] == o[3..];
    assert Selected(o[2..], includes) == Pick(includes, PhongLighting) + Selected(o[3..], includes);
    assert o[1..][1..] == o[2..];
    assert Selected(o[1..], includes) == Pick(includes, Kernel) + Selected(o[2..], includes);
  }

  /** One Push appends the Pick of its source. */
  lemma PushAppendsPick(sources: seq<Source>, includes: bv32, s: Source)
    ensures Push(sources, includes, s) == sources + Pick(includes, s)
  {
  }

  /** Each Push appends its Pick. */
  lemma InjectIncludesPicks(sources: seq<Source>, includes: bv32)
    ensures InjectIncludes(sources, includes) ==
      sources + (Pick(includes, StructDefs) + (Pick(includes, Kernel) + (Pick(includes, PhongLighting) +
      (Pick(includes, ShadowSource) + Pick(includes, PBRSource)))))
  {
    var p0, p1, p2, p3, p4 :=
      Pick(includes, StructDefs), Pick(includes, Kernel), Pick(includes, PhongLighting),
      Pick(includes, ShadowSource), Pick(includes, PBRSource);
    var w0 := Push(sources, includes, StructDefs);
    var w1 := Push(w0, includes, Kernel);
    var w2 := Push(w1, includes, PhongLighting);
    var w3 := Push(w2, includes, ShadowSource);
    PushAppendsPick(sources, includes, StructDefs);
    PushAppendsPick(w0, includes, Kernel);
    PushAppendsPick(w1, includes, PhongLighting);
    PushAppendsPick(w2, includes, ShadowSource);
    PushAppendsPick(w3, includes, PBRSource);
    assert sources + p0 + p1 + p2 + p3 + p4 == sources + (p0 + (p1 + (p2 + (p3 + p4))));
  }

  /** Asking for Phong lighting or shadows also brings in the kernel source and the
      struct definitions; PBR alone brings only the struct definitions and PBR. */
  lemma IncludeConsequences(includes: bv32)
    ensures Has(includes, IncludePhongLight) || Has(includes, IncludeShadow) ==>
      Kernel in InjectIncludes([], includes) && StructDefs in InjectIncludes([], includes)
    ensures InjectIncludes([], IncludePBR) == [StructDefs, PBRSource]
    ensures InjectIncludes([], 0) == []
  {
    KernelsIsPhongOrShadow();
  }

  /** The sources of GL::CompileShaderEx: the version line, the injected includes, then
      the caller's first `count` strings in order. */
  function CompileShaderEx(strings: seq<string>, count: int, includes: bv32): (r: seq<Source>)
    requires count <= |strings|
    ensures |r| >= 1 && r[0] == Version
  {
    InjectIncludes([Version], includes) + seq(Max(count, 0), i requires 0 <= i < Max(count, 0) => User(strings[i]))
  }

  /** GL::CompileShader: one caller string, after the version line and the selected
      library sources in their fixed order. */
  function CompileShader(text: string, includes: bv32): (r: seq<Source>)
    ensures r == [Version] + Selected(IncludeOrder, includes) + [User(text)]
  {
    CompileOneString([text], includes);
    CompileShaderEx([text], 1, includes)
  }

  /** The shaders of a program: the sources of each stage. */
  datatype Program = Program(vertex: seq<Source>, fragment: seq<Source>, geometry: Option<seq<Source>>)

  /** GL::CreateProgramEx with a vertex and a fragment stage: only the fragment stage
      receives the includes. */
  function CreateProgramEx(vs: seq<string>, vsCount: int, fs: seq<string>, fsCount: int, includes: bv32): Program
    requires vsCount <= |vs| && fsCount <= |fs|
  {
    Program(CompileShaderEx(vs, vsCount, 0), CompileShaderEx(fs, fsCount, includes), None)
  }

  /** GL::CreateProgramEx with a geometry stage too, which gets no includes either. */
  function CreateProgramExWithGeometry(vs: seq<string>, vsCount: int, fs: seq<string>, fsCount: int,
                                       gs: seq<string>, gsCount: int, includes: bv32): Program
    requires vsCount <= |vs| && fsCount <= |fs| && gsCount <= |gs|
  {
    Program(CompileShaderEx(vs, vsCount, 0), CompileShaderEx(fs, fsCount, includes), Some(CompileShaderEx(gs, gsCount, 0)))
  }

  /** GL::CreateProgram(VS, FS, Includes): the vertex shader is the version line and VS;
      the fragment shader also gets the selected library sources before FS. */
  function CreateProgram(vs: string, fs: string, includes: bv32): (p: Program)
    ensures p.vertex == [Version, User(vs)] && p.geometry == None
    ensures p.fragment == [Version] + Selected(IncludeOrder, includes) + [User(fs)]
  {
    CompileOneString([vs], 0);
    CompileOneString([fs], includes);
    SelectedIncludeOrder(0);
    CreateProgramEx([vs], 1, [fs], 1, includes)
  }

  /** The caller's strings come after everything injected, in their own order. */
  lemma CompiledSourcesEndWithCallerStrings(strings: seq<string>, count: int, includes: bv32)
    requires 0 <= count <= |strings|
    ensures var r := CompileShaderEx(strings, count, includes);
            var n := |r| - count;
            r[..n] == [Version] + Selected(IncludeOrder, includes) &&
            forall i | 0 <= i < count :: r[n + i] == User(strings[i])
  {
    var pre := InjectIncludes([Version], includes);
    var tail := seq(count, i requires 0 <= i < count => User(strings[i]));
    assert CompileShaderEx(strings, count, includes) == pre + tail;
    InjectIncludesFollowsOrder([Version], includes);
    assert (pre + tail)[..|pre|] == pre;
  }

  /** Vertex and geometry stages are never given library sources: their sources are the
      version line and the caller's strings, whatever the includes. */
  lemma OnlyFragmentStageGetsIncludes(vs: seq<string>, fs: seq<string>, gs: seq<string>, includes: bv32)
    requires 1 <= |vs| && 1 <= |fs| && 1 <= |gs|
    ensures var p := CreateProgramExWithGeometry(vs, 1, fs, 1, gs, 1, includes);
            p.vertex == [Version, User(vs[0])] && p.geometry == Some([Version, User(gs[0])]) &&
            p.fragment == [Version] + Selected(IncludeOrder, includes) + [User(fs[0])]
  {
    CompileOneString(vs, 0);
    CompileOneString(fs, includes);
    CompileOneString(gs, 0);
    SelectedIncludeOrder(0);
    assert Selected(IncludeOrder, 0) == [];
    assert CompileShaderEx(gs, 1, 0) == [Version, User(gs[0])];
  }

  /** A shader compiled from one caller string. */
  lemma CompileOneString(strings: seq<string>, includes: bv32)
    requires 1 <= |strings|
    ensures CompileShaderEx(strings, 1, includes) == [Version] + Selected(IncludeOrder, includes) + [User(strings[0])]
  {
    InjectIncludesFollowsOrder([Version], includes);
    assert seq(Max(1, 0), i requires 0 <= i < Max(1, 0) => User(strings[i])) == [User(strings[0])];
  }

  // ---------------------------------------------------------------------------
  // Channels and formats
  // ---------------------------------------------------------------------------

  /** GL enum values of the texture formats. */
  const GLRed := 0x1903
  const GLRg := 0x8227
  const GLRgb := 0x1907
  const GLRgba := 0x1908
  const GLSrgb := 0x8C40
  const GLSrgbAlpha := 0x8C42

  /** GLImageFormat and GLImageSRGBFormat, indexed by channel count (0 unused). */
  const ImageFormat: seq<int> := [-1, GLRed, GLRg, GLRgb, GLRgba]
  const ImageSrgbFormat: seq<int> := [-1, GLRed, GLRg, GLSrgb, GLSrgbAlpha]

  /** The sRGB table differs from the linear one exactly at 3 and 4 channels. */
  lemma FormatTablesDiffer()
    ensures |ImageFormat| == |ImageSrgbFormat| == 5
    ensures forall c | 0 <= c < 5 :: ImageFormat[c] != ImageSrgbFormat[c] <==> c == 3 || c == 4
  {
  }

  /** (DesiredChannels, Channels). */
  datatype ChannelsInfo = ChannelsInfo(desired: int, channels: int)

  /** GetChannelsInfo: four independent tests in the order grey, grey+alpha, RGB, RGBA,
      each overwriting both outputs. The stb_image request codes equal the channel
      counts. Without a force flag the outputs keep their prior values. */
  function GetChannelsInfo(flags: bv32, prior: ChannelsInfo): (r: ChannelsInfo)
    ensures r.desired == r.channels || r == prior
  {
    var a := if Has(flags, ImgForceGrey) then ChannelsInfo(1, 1) else prior;
    var b := if Has(flags, ImgForceGreyAlpha) then ChannelsInfo(2, 2) else a;
    var c := if Has(flags, ImgForceRgb) then ChannelsInfo(3, 3) else b;
    if Has(flags, ImgForceRgba) then ChannelsInfo(4, 4) else c
  }

  /** The forced channel count by precedence: RGBA over RGB over grey+alpha over grey,
      0 when nothing is forced. */
  function ForcedChannels(flags: bv32): (n: int)
    ensures 0 <= n <= 4
  {
    if Has(flags, ImgForceRgba) then 4
    else if Has(flags, ImgForceRgb) then 3
    else if Has(flags, ImgForceGreyAlpha) then 2
    else if Has(flags, ImgForceGrey) then 1
    else 0
  }

  /** The last matching test wins, which is the precedence of ForcedChannels. Starting
      from (0, 0) as UploadTexture does, both outputs are the forced count, and 0 means
      the count comes from the image. */
  lemma LastFlagWins(flags: bv32)
    ensures GetChannelsInfo(flags, ChannelsInfo(0, 0)) == ChannelsInfo(ForcedChannels(flags), ForcedChannels(flags))
    ensures ForcedChannels(flags) == 0 <==>
      !Has(flags, ImgForceGrey) && !Has(flags, ImgForceGreyAlpha) && !Has(flags, ImgForceRgb) && !Has(flags, ImgForceRgba)
  {
  }

  // ---------------------------------------------------------------------------
  // UploadTexture
  // ---------------------------------------------------------------------------

  /** What stbi_load reports for a decoded image: its size and its own channel count. */
  datatype Image = Image(width: int, height: int, channels: int)

  /** stb_image reports between one and four channels. */
  predicate Decoded(img: Option<Image>) {
    img.Some? ==> 1 <= img.value.channels <= 4
  }

  /** The decoder: file name, vertical flip, requested channel count; nothing when the
      file cannot be decoded. */
  type Decoder = (string, bool, int) -> Option<Image>

  /** The target of a glTexImage2D call: the 2D texture, or the cube map face
      GL_TEXTURE_CUBE_MAP_POSITIVE_X + face. */
  datatype Target = Texture2D | CubeFace(face: int)

  /** The arguments of the glTexImage2D call. */
  datatype Upload = Upload(target: Target, internalFormat: int, format: int, width: int, height: int)

  /** The process-wide state UploadTexture reads and writes: stb_image's flip-on-load
      flag and the `static int i` face counter. */
  datatype UploadState = UploadState(flipOnLoad: bool, faceCounter: int)

  /** The effects of one call: the state after it, the upload if there was one, whether
      mipmaps were generated, and the values written through WidthOut and HeightOut
      (nothing when the pointer is null or the call failed). */
  datatype UploadResult = UploadResult(state: UploadState, upload: Option<Upload>, mipmaps: bool,
                                       widthOut: Option<int>, heightOut: Option<int>)

  /** The counter step `i = i < 6 ? i + 1 : 0` as written. */
  function NextFaceAsWritten(i: int): int {
    if i < 6 then i + 1 else 0
  }

  /** GL::UploadTexture. The flip flag is set before decoding. On a decoding failure the
      call returns at once: no upload, no output written, and the flip flag is left
      as set. Otherwise the image is uploaded to the 2D target, or for IMG_CUBEMAP to
      the face the static counter names, which then steps. The internal format comes
      from the sRGB table when IMG_SRGB_SPACE is set; the pixel format always comes from
      the linear table. Mipmaps follow IMG_GEN_MIPMAPS, the outputs are written when
      requested, and the flip flag is reset. */
  function UploadTexture(st: UploadState, filename: string, flags: bv32, decode: Decoder,
                         wantWidth: bool, wantHeight: bool): (r: UploadResult)
    requires Decoded(decode(filename, Has(flags, ImgFlip), ForcedChannels(flags)))
    ensures r.upload.None? <==> decode(filename, Has(flags, ImgFlip), ForcedChannels(flags)).None?
    ensures r.upload.None? ==> r.state == st.(flipOnLoad := Has(flags, ImgFlip)) && !r.mipmaps &&
                               r.widthOut.None? && r.heightOut.None?
    ensures r.upload.Some? ==> !r.state.flipOnLoad && (r.widthOut.Some? <==> wantWidth) &&
                               (r.heightOut.Some? <==> wantHeight) && (r.mipmaps <==> Has(flags, ImgGenMipmaps))
  {
    LastFlagWins(flags);
    var info := GetChannelsInfo(flags, ChannelsInfo(0, 0));
    var flipped := st.(flipOnLoad := Has(flags, ImgFlip));
    match decode(filename, Has(flags, ImgFlip), info.desired)
    case None => UploadResult(flipped, None, false, None, None)
    case Some(img) =>
      var channels := if info.desired == 0 then img.channels else info.channels;
      var internalFormat := if Has(flags, ImgSrgbSpace) then ImageSrgbFormat[channels] else ImageFormat[channels];
      var target := if Has(flags, ImgCubemap) then CubeFace(st.faceCounter) else Texture2D;
      var counter := if Has(flags, ImgCubemap) then NextFaceAsWritten(st.faceCounter) else st.faceCounter;
      UploadResult(UploadState(false, counter),
                   Some(Upload(target, internalFormat, ImageFormat[channels], img.width, img.height)),
                   Has(flags, ImgGenMipmaps),
                   if wantWidth then Some(img.width) else None,
                   if wantHeight then Some(img.height) else None)
  }

  /** A successful upload uses the forced channel count when there is one and the
      image's own count otherwise; only an sRGB request with 3 or 4 channels changes
      the internal format away from the pixel format. */
  lemma UploadFormats(st: UploadState, filename: string, flags: bv32, decode: Decoder, w: bool, h: bool)
    requires Decoded(decode(filename, Has(flags, ImgFlip), ForcedChannels(flags)))
    requires decode(filename, Has(flags, ImgFlip), ForcedChannels(flags)).Some?
    ensures var img := decode(filename, Has(flags, ImgFlip), ForcedChannels(flags)).value;
            var c := if ForcedChannels(flags) == 0 then img.channels else ForcedChannels(flags);
            var u := UploadTexture(st, filename, flags, decode, w, h).upload.value;
            u.format == ImageFormat[c] && u.width == img.width && u.height == img.height &&
            (u.internalFormat != u.format <==> Has(flags, ImgSrgbSpace) && (c == 3 || c == 4))
  {
    LastFlagWins(flags);
    FormatTablesDiffer();
  }

  /** Without IMG_CUBEMAP the upload goes to the 2D target and the face counter is left
      alone; with it, the face named by the counter is used and the counter steps. */
  lemma UploadTarget(st: UploadState, filename: string, flags: bv32, decode: Decoder, w: bool, h: bool)
    requires Decoded(decode(filename, Has(flags, ImgFlip), ForcedChannels(flags)))
    requires decode(filename, Has(flags, ImgFlip), ForcedChannels(flags)).Some?
    ensures var r := UploadTexture(st, filename, flags, decode, w, h);
            (!Has(flags, ImgCubemap) ==> r.upload.value.target == Texture2D && r.state.faceCounter == st.faceCounter) &&
            (Has(flags, ImgCubemap) ==> r.upload.value.target == CubeFace(st.faceCounter) &&
                                         r.state.faceCounter == NextFaceAsWritten(st.faceCounter))
  {
  }

  // ---------------------------------------------------------------------------
  // The cube map face counter
  // ---------------------------------------------------------------------------

  /** The counter as written after k uploads from its initial 0. */
  function FaceAfterAsWritten(k: nat): int {
    if k == 0 then 0 else NextFaceAsWritten(FaceAfterAsWritten(k - 1))
  }

  /** As written, the counter runs through seven values: after k uploads from 0 it is
      k mod 7. So the seventh cube map face goes to POSITIVE_X + 6, which is not a
      face, and the next cube map starts one face late. */
  lemma {:induction false} CounterAsWrittenHasSevenStates(k: nat)
    ensures FaceAfterAsWritten(k) == k % 7
  {
    if k > 0 {
      CounterAsWrittenHasSevenStates(k - 1);
      assert (k - 1) % 7 < 6 ==> k % 7 == (k - 1) % 7 + 1;
    }
  }

  /** The intended step: six faces, 0 to 5, then back to 0. */
  function NextCubeFace(i: int): (r: int)
    requires 0 <= i < 6
    ensures 0 <= r < 6 && r == (i + 1) % 6
  {
    if i < 5 then i + 1 else 0
  }

  /** With the intended step, the k-th upload from 0 goes to face k mod 6, so every
      run of six uploads fills the six faces once each and the next cube map starts at
      POSITIVE_X again. */
  lemma {:induction false} CubeFaceCounterCyclesSix(k: nat)
    ensures CubeFaceAfter(k) == k % 6
  {
    if k > 0 {
      CubeFaceCounterCyclesSix(k - 1);
      assert (k - 1) % 6 < 5 ==> k % 6 == (k - 1) % 6 + 1;
    }
  }

  /** The intended counter after k uploads from 0. */
  function CubeFaceAfter(k: nat): (r: int)
    ensures 0 <= r < 6
  {
    if k == 0 then 0 else NextCubeFace(CubeFaceAfter(k - 1))
  }

  // ---------------------------------------------------------------------------
  // The checkerboard texture
  // ---------------------------------------------------------------------------

  const DarkTexel := V4(0.1, 0.1, 0.1, 1.0)
  const LightTexel := V4(0.3, 0.3, 0.3, 1.0)

  /** The colour of texel (x, y): TileX = x / S and TileY = y / S with C++ truncating
      division, and the texel is dark when (TileX + TileY) % 2, a truncating remainder,
      is non-zero. Only S = 0 divides by zero; a negative S is accepted. */
  function CheckerTexel(x: int, y: int, squareSize: int): V4
    requires 0 <= x && 0 <= y && squareSize != 0
  {
    if Mod(TruncDiv(x, squareSize) + TruncDiv(y, squareSize), 2) != 0 then DarkTexel else LightTexel
  }

  /** The colour of a tile whose coordinates sum to T, on the non-negative side. */
  function ParityTexel(t: int): V4 {
    if t % 2 == 1 then DarkTexel else LightTexel
  }

  /** The board depends only on the size of the tiles: texel (x, y) is dark exactly when
      x / |S| + y / |S| is odd. */
  lemma CheckerTexelByTileSize(x: int, y: int, s: int)
    requires 0 <= x && 0 <= y && s != 0
    ensures CheckerTexel(x, y, s) == ParityTexel(x / Abs(s) + y / Abs(s))
  {
    TruncDivOfNatural(x, s);
    TruncDivOfNatural(y, s);
    ParityOfSignedSum(TruncDiv(x, s), TruncDiv(y, s), x / Abs(s), y / Abs(s), s > 0);
  }

  /** Tile coordinates that are both negated, as with a negative SquareSize, keep the
      parity of their sum under the truncating remainder. */
  lemma ParityOfSignedSum(p: int, q: int, a: int, b: int, positive: bool)
    requires 0 <= a && 0 <= b
    requires p == (if positive then a else -a) && q == (if positive then b else -b)
    ensures Mod(p + q, 2) != 0 <==> (a + b) % 2 == 1
  {
    ModTwo(a + b);
    if !positive {
      assert p + q == -(a + b);
    }
  }

  /** A negative SquareSize draws the board of -SquareSize. */
  lemma NegativeSquareSizeSameBoard(x: int, y: int, s: int)
    requires 0 <= x && 0 <= y && s != 0
    ensures CheckerTexel(x, y, -s) == CheckerTexel(x, y, s)
  {
    CheckerTexelByTileSize(x, y, s);
    CheckerTexelByTileSize(x, y, -s);
    assert Abs(-s) == Abs(s);
  }

  /** C++ division of a non-negative dividend: |S| goes into it x / |S| times, with the
      sign of S. */
  lemma TruncDivOfNatural(x: int, s: int)
    requires 0 <= x && s != 0
    ensures 0 <= x / Abs(s)
    ensures TruncDiv(x, s) == if s > 0 then x / Abs(s) else -(x / Abs(s))
  {
    QuotientOfNatural(x, Abs(s));
  }

  /** A non-negative dividend has a non-negative quotient. */
  lemma {:induction false} QuotientOfNatural(x: int, b: int)
    requires 0 <= x && b > 0
    ensures 0 <= x / b
    decreases x
  {
    if x < b {
      ModUnique(x, b, 0, x);
    } else {
      QuotientOfNatural(x - b, b);
      ModUnique(x, b, (x - b) / b + 1, (x - b) % b);
    }
  }

  /** The truncating remainder by 2 of T and of -T is non-zero exactly when T is odd. */
  lemma ModTwo(t: int)
    requires t >= 0
    ensures Mod(t, 2) != 0 <==> t % 2 == 1
    ensures Mod(-t, 2) != 0 <==> t % 2 == 1
  {
  }

  /** Where texel (x, y) lives in the row-major array: x + y * Width. */
  function PixelIndex(x: int, y: int, width: int): int {
    x + y * width
  }

  /** Every texel of the Width x Height grid has its own array element. */
  lemma PixelIndexInRange(x: int, y: int, width: int, height: int)
    requires 0 <= x < width && 0 <= y < height
    ensures 0 <= PixelIndex(x, y, width) < width * height
  {
    RowFits(y, width, height);
  }

  /** Distinct texels of a row of width Width have distinct indices. */
  lemma PixelIndexInjective(x1: int, y1: int, x2: int, y2: int, width: int)
    requires 0 <= x1 < width && 0 <= x2 < width && 0 <= y1 && 0 <= y2
    requires PixelIndex(x1, y1, width) == PixelIndex(x2, y2, width)
    ensures x1 == x2 && y1 == y2
  {
    var v := PixelIndex(x1, y1, width);
    ModUnique(v, width, y1, x1);
    ModUnique(v, width, y2, x2);
  }

  /** Neighbouring tiles alternate: a texel |S| to the right has the other colour, and
      texels in the same tile share one. */
  lemma CheckerAlternates(x: int, y: int, s: int)
    requires 0 <= x && 0 <= y && s != 0
    ensures CheckerTexel(x + Abs(s), y, s) != CheckerTexel(x, y, s)
    ensures 0 <= x - x % Abs(s) && 0 <= y - y % Abs(s) &&
            CheckerTexel(x - x % Abs(s), y - y % Abs(s), s) == CheckerTexel(x, y, s)
  {
    var a := Abs(s);
    TileShift(x, a);
    TileCorner(x, a);
    TileCorner(y, a);
    CheckerTexelByTileSize(x, y, s);
    CheckerTexelByTileSize(x + a, y, s);
    CheckerTexelByTileSize(x - x % a, y - y % a, s);
    ParityFlips(x / a + y / a);
  }

  /** Moving S texels to the right moves one tile to the right. */
  lemma TileShift(x: int, s: int)
    requires 0 <= x && s > 0
    ensures (x + s) / s == x / s + 1
  {
    ModUnique(x + s, s, x / s + 1, x % s);
  }

  /** A tile's corner lies in that tile. */
  lemma TileCorner(x: int, s: int)
    requires 0 <= x && s > 0
    ensures 0 <= x - x % s && (x - x % s) / s == x / s
  {
    ModUnique(x - x % s, s, x / s, 0);
  }

  /** Adding one changes the parity. */
  lemma ParityFlips(t: int)
    ensures (t + 1) % 2 == 1 <==> t % 2 != 1
  {
    if t % 2 == 1 {
      ModUnique(t + 1, 2, t / 2 + 1, 0);
    } else {
      ModUnique(t + 1, 2, t / 2, 1);
    }
  }

  /** The texel array GL::UploadCheckerboardTexture fills: Width * Height texels, the
      one at index k belonging to column k % Width of row k / Width. */
  function CheckerTexels(width: int, height: int, squareSize: int): (r: seq<V4>)
    requires 0 <= width && 0 <= height && squareSize != 0
    ensures |r| == width * height
  {
    if width == 0 then []
    else seq(width * height, k requires 0 <= k < width * height => CheckerAt(k, width, squareSize))
  }

  /** Read by texel coordinates, the array is the board: texel (x, y) sits at
      x + y * Width, inside the array, and has the colour of its tile. */
  lemma CheckerTexelsByGrid(width: int, height: int, squareSize: int)
    requires 0 <= width && 0 <= height && squareSize != 0
    ensures forall x, y | 0 <= x < width && 0 <= y < height ::
      PixelIndex(x, y, width) < |CheckerTexels(width, height, squareSize)| &&
      CheckerTexels(width, height, squareSize)[PixelIndex(x, y, width)] == CheckerTexel(x, y, squareSize)
  {
    forall x, y | 0 <= x < width && 0 <= y < height
      ensures PixelIndex(x, y, width) < |CheckerTexels(width, height, squareSize)| &&
        CheckerTexels(width, height, squareSize)[PixelIndex(x, y, width)] == CheckerTexel(x, y, squareSize)
    {
      RowFits(y, width, height);
      PixelIndexSplits(x, y, width);
    }
  }

  /** GL::UploadCheckerboardTexture: the Width * Height texel array, filled row by row,
      and the size passed to glTexImage2D, which as written is Width x Width. */
  method UploadCheckerboardTexture(width: int, height: int, squareSize: int)
    returns (texels: seq<V4>, uploadWidth: int, uploadHeight: int)
    requires 0 <= width && 0 <= height && squareSize != 0
    ensures texels == CheckerTexels(width, height, squareSize)
    ensures forall x, y | 0 <= x < width && 0 <= y < height ::
      PixelIndex(x, y, width) < |texels| && texels[PixelIndex(x, y, width)] == CheckerTexel(x, y, squareSize)
    ensures TexImage2D(uploadWidth, uploadHeight, texels) == CheckerboardUploadAsWritten(width, height, squareSize)
  {
    texels := seq(width * height, _ => V4(0.0, 0.0, 0.0, 0.0));
    for y := 0 to height
      invariant |texels| == width * height
      invariant forall k | 0 < width && 0 <= k < y * width :: texels[k] == CheckerAt(k, width, squareSize)
    {
      RowFits(y, width, height);
      for x := 0 to width
        invariant |texels| == width * height
        invariant forall k | 0 < width && 0 <= k < y * width + x :: texels[k] == CheckerAt(k, width, squareSize)
      {
        var i := PixelIndex(x, y, width);
        PixelIndexSplits(x, y, width);
        assert i == y * width + x;
        texels := texels[i := CheckerTexel(x, y, squareSize)];
      }
    }
    assert texels == CheckerTexels(width, height, squareSize);
    CheckerTexelsByGrid(width, height, squareSize);
    uploadWidth, uploadHeight := width, width;
  }

  /** Row y of a Width x Height board ends inside the array. */
  lemma RowFits(y: int, width: int, height: int)
    requires 0 <= y < height && 0 <= width
    ensures y * width + width == (y + 1) * width <= width * height
  {
    assert (y + 1) * width == y * width + width;
    if width > 0 && y + 1 < height {
      MulAtLeast(width, height - (y + 1));
      assert width * height == width * (height - (y + 1)) + (y + 1) * width;
    }
  }

  /** The texel at array index k of a board of width Width. */
  function CheckerAt(k: int, width: int, s: int): V4
    requires 0 <= k && 0 < width && s != 0
  {
    CheckerTexel(k % width, k / width, s)
  }

  /** Index x + y * Width splits back into x and y. */
  lemma PixelIndexSplits(x: int, y: int, width: int)
    requires 0 <= x < width && 0 <= y
    ensures PixelIndex(x, y, width) % width == x && PixelIndex(x, y, width) / width == y
  {
    ModUnique(PixelIndex(x, y, width), width, y, x);
  }

  /** glTexImage2D(GL_TEXTURE_2D, 0, GL_RGBA, Width, Height, 0, GL_RGBA, GL_FLOAT, Data):
      the driver reads Width * Height texels from Data, row by row. */
  datatype TexImage2D = TexImage2D(width: int, height: int, data: seq<V4>)

  /** The number of texels an upload reads from its data. */
  function TexelsRead(u: TexImage2D): int {
    u.width * u.height
  }

  /** The upload as written: the board's texels, described as Width x Width. */
  function CheckerboardUploadAsWritten(width: int, height: int, squareSize: int): (u: TexImage2D)
    requires 0 <= width && 0 <= height && squareSize != 0
    ensures u.data == CheckerTexels(width, height, squareSize) && u.width == width
    ensures TexelsRead(u) == width * width
  {
    TexImage2D(width, width, CheckerTexels(width, height, squareSize))
  }

  /** The as-written upload reads past the end of the array exactly when the board is
      wider than tall, and uploads only its first Width rows when it is taller than
      wide: a 4 x 2 board reads 16 texels out of 8. */
  lemma CheckerboardUploadSizeMismatch(width: int, height: int, squareSize: int)
    requires width > 0 && height >= 0 && squareSize != 0
    ensures var u := CheckerboardUploadAsWritten(width, height, squareSize);
            (TexelsRead(u) > |u.data| <==> width > height) && (TexelsRead(u) < |u.data| <==> width < height)
    ensures TexelsRead(CheckerboardUploadAsWritten(4, 2, squareSize)) == 16 &&
            |CheckerboardUploadAsWritten(4, 2, squareSize).data| == 8
  {
    assert width * width - width * height == width * (width - height);
    if width > height {
      MulAtLeast(width, width - height);
    } else if width < height {
      MulAtLeast(width, height - width);
      assert width * (height - width) == -(width * (width - height));
    }
  }

  /** The intended upload: the board's own Width x Height. The driver then reads exactly
      the texel array, and texel (x, y) of the uploaded image is the board's texel (x, y). */
  function CheckerboardUpload(width: int, height: int, squareSize: int): (u: TexImage2D)
    requires 0 <= width && 0 <= height && squareSize != 0
    ensures u.data == CheckerTexels(width, height, squareSize) && u.width == width
    ensures TexelsRead(u) == |u.data|
    ensures forall x, y | 0 <= x < u.width && 0 <= y < u.height ::
      PixelIndex(x, y, u.width) < |u.data| && u.data[PixelIndex(x, y, u.width)] == CheckerTexel(x, y, squareSize)
  {
    CheckerTexelsByGrid(width, height, squareSize);
    TexImage2D(width, height, CheckerTexels(width, height, squareSize))
  }
}
