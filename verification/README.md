# GraphicEffectsOpenGL core, modelled in Dafny

This project models the deterministic logic inside the GraphicEffectsOpenGL demos: the
part that sits under the OpenGL and ImGui glue. It covers:

- **Vertex-buffer builders** (`Mesh`): GetVertexCount, ConvertVertices and Transform,
  which are driven by a `vertex_descriptor`; BuildQuad, BuildCube, BuildInvertedCube and
  BuildSphere; and Mesh::LoadObj. A caller-sized buffer is a sequence of vertex slots.
  The cursor is a slot index, and `End` is a byte offset.
- **Tangent basis** (`TangentBasis`): AddToKnownVertices and ComputeTangentBasis, which
  deduplicate corners by exact position, accumulate per-face frames per slot, average
  them by instance count, and apply the sign rule.
- **OBJ loading** (`ObjLoad`): LoadObjNoConvertion after the parser: the on-disk cache
  as a count-prefixed vertex list, face normals, spherical UVs, the tangent basis and
  rescaling.
- **Shader and image helpers** (`GLHelpers`): the include bitmask and source order of
  CompileShaderEx and CreateProgramEx, the channel and format decoding of UploadTexture,
  the static cube-map face counter, and the checkerboard texel rule.
- **GPU resource cache** (`GLCache`): the three memo maps of `GL::cache`, with fresh
  GL names from a counter and GL effects recorded as an event log.
- **Scene and shadow maps** (`Scene`, `ShadowMap`): light defaults and GetLight, the
  EditLight decision logic and the invalidation in InspectLights, and the per-light
  state machine of DepthMapsGeneration (shadow mode × ShadowGenerated). Also the
  depth-map matrices and texture units, and the bindings RenderTavern makes.
- **Instancing** (`Instancing`): the 5 × 5 × 5 offset lattice and the instanced draw.
- **Maths** (`Maths`, `FloatLib`): the integer helpers, with C++ truncating `/` and `%`
  written out; column-major matrices over reals; and Vec3/Vec2 normalisation.

Floats are reals. The square root, sine, cosine, arc-tangent, arc-cosine,
`Mat4::Perspective` and `Mat4::LookAt` are function parameters. The statements about
them hold for any square root that is 0 at 0 and positive on positive arguments (the
`SqrtFn` type), and for any trigonometry, perspective and look-at functions. The one
exception is the lemmas for the five rotated faces of the inverted cube
(Mesh.InvertedBackIsExact, InvertedRightIsExact, InvertedLeftIsExact, InvertedTopIsExact,
InvertedBottomIsExact) and their helpers. They assume that cosine and sine are exact at
the quarter and half turns (`Mesh.ExactRightAngles`; see "Left
out"). `Mat4::Inverse` is modelled exactly by its cofactor formula.

## Model

| member | source | states |
|---|---|---|
| Maths.Min | src/maths.h:26-27 | The result is one of the two arguments and is no greater than either. |
| Maths.Max | src/maths.h:29-30 | The result is one of the two arguments and is no smaller than either. |
| Maths.Clamp | src/maths.h:32-33 | With lo ≤ hi the result lies in [lo, hi]: x itself when x is in range, lo below it, hi above it. When the bounds cross the result is hi. |
| Maths.ClampIdempotent | src/maths.h:32-33 | Clamping an already clamped value changes nothing. |
| Maths.Mod | src/maths.h:39 | C++ `%` on int: the remainder is smaller in magnitude than the base and is zero or has the dividend's sign. Together with the truncating quotient it reconstructs the dividend. |
| Maths.ModIsNotEuclidean | src/maths.h:39 | The C++ remainder differs from the Euclidean one on negative operands: Mod(-7, 3) is -1 where the Euclidean remainder is 2. |
| Maths.TrueMod | src/maths.h:41 | For a positive base the result lies in [0, Base) and equals the Euclidean remainder of Value, so it is congruent to Value. |
| Maths.TrueModPositive | src/maths.h:41 | (Value % Base + Base) % Base, with both `%` truncating, equals the Euclidean remainder for any sign of Value. |
| Maths.CrossIsPerpendicular | src/maths.h:191-198 | The cross product is orthogonal to both arguments. |
| Maths.CrossAnticommutes | src/maths.h:191-198 | Swapping the arguments negates the cross product. |
| Maths.SquaredLengthNonNegative | src/maths.h:169-172 | A squared length is never negative. |
| Maths.Transpose | src/maths.h:376-384 | Entry (c, r) of the result is entry (r, c) of the argument, for all 16 entries. |
| Maths.TransposeInvolution | src/maths.h:376-384 | Transposing twice gives back the matrix. |
| Maths.Apply | src/maths.h:230-237 | No contract of its own; AffineKeepsPoints, TranslateMovesPoints and ScaleScalesPoints state what it does to points. |
| Maths.Mul | src/maths.h:239-247 | No contract of its own; IdentityIsUnit and AffineClosedUnderMul state its properties. |
| Maths.IdentityIsUnit | src/maths.h:239-247 | Identity is a unit of the column-major product on both sides. |
| Maths.TranslateMovesPoints | src/maths.h:300-309 | Translate(T) maps the point (p, 1) to (p + T, 1) and leaves a direction (n, 0) unchanged. |
| Maths.ScaleScalesPoints | src/maths.h:311-320 | Scale(S) maps the point (p, 1) to (S∘p, 1), component by component. |
| Maths.Inverse | src/maths.h:386-430 | No contract of its own; InverseOfIdentity, InverseOfTranslate and InverseOfScale state its results. |
| Maths.InverseOfIdentity | src/maths.h:386-430 | The cofactor inverse of Identity is Identity. |
| Maths.InverseOfTranslate | src/maths.h:386-430 | The cofactor inverse of Translate(T) is Translate(-T). |
| Maths.InverseOfScale | src/maths.h:386-430 | The cofactor inverse of Scale(S), with no zero component, is Scale(1/S). |
| Maths.AffineKeepsPoints | src/maths.h:230-237 | A matrix whose last row is (0, 0, 0, 1) maps every point to one with w = 1. |
| Maths.AffineClosedUnderMul | src/maths.h:239-247 | The product of two such matrices has the same last row. |
| Maths.BasicMatricesAreAffine | src/maths.h:289-331 | Identity, Translate, Scale, RotateX and RotateY all have last row (0, 0, 0, 1). |
| Maths.AffinePointNeedsNoDivision | src/mesh.cpp:67-68 | For such a matrix, the homogeneous division in Transform is by 1, so the stored position is M·(p, 1). |
| Maths.Transpose3Involution | src/maths.h:267-274 | Transposing a 3x3 matrix twice gives it back. |
| Maths.ToMat4 | src/maths.h:279-287 | Mat4(mat3) has last row and column (0, 0, 0, 1), and its upper-left block is the mat3 given. |
| Maths.StripKeepsBlock | src/maths.h:258-287 | Mat4(Mat3(M)) agrees with M on the upper-left 3x3 block. It equals M exactly when M has no translation and an affine last row. |
| Maths.StripRemovesTranslation | src/demo_skybox.cpp:355 | The skybox view Mat4(Mat3(View)) is unchanged by any translation applied to a linear view matrix. |
| FloatLib.InverseLength | src/maths.h:181-182 | The normalisation factor is never negative, and it is positive for any vector of non-zero length. |
| FloatLib.Normalize | src/maths.h:179-184 | Vec3::Normalize maps a vector of zero squared length to the zero vector. Any other vector is scaled by a positive factor, so its direction is kept. |
| FloatLib.Normalize2 | src/maths.h:102-106 | Vec2::Normalize has no guard: it is undefined (division by zero) exactly when the squared length is 0. Otherwise it scales by a positive factor. |
| FloatLib.OnlyVec3NormalizeGuardsZero | src/maths.h:179-184 | The zero v3 normalises to zero, while the zero v2 hits the unguarded division. |
| Mesh.GetVertexCount | src/mesh.cpp:48-52 | With End at or past the cursor, the count n is the number of whole strides that fit: n strides fit and n + 1 do not. With End before the cursor the count is ≤ 0, truncated toward zero. |
| Mesh.CountIs | src/mesh.cpp:48-52 | The bounds above determine the count uniquely. |
| Mesh.ExactCount | src/mesh.cpp:48-52 | An End exactly k strides past the cursor gives a count of k. |
| Mesh.CountAfter | src/mesh.cpp:48-52 | Moving the cursor k vertices forward, for k within the count, lowers the count by k. |
| Mesh.CountFits | src/mesh.cpp:48-52 | When End does not lie past the buffer, every vertex the count admits has a slot. |
| Mesh.ConvertVertices | src/mesh.cpp:18-44 | The first Count vertices are written from the cursor on and every other slot is untouched. Each gets its position, its normal only if HasNormal, its UV only if HasUV, and never a tangent or bitangent. The returned cursor is Count vertices further on. |
| Mesh.Transform | src/mesh.cpp:56-78 | Exactly the GetVertexCount slots from the cursor are transformed, and the cursor is returned that far on. The position goes through the matrix with the homogeneous division. The normal, if present, goes through the inverse transpose and is normalised. UVs and the tangent frame are untouched. |
| Mesh.TransformNone | src/mesh.cpp:56-78 | Transform with End at the cursor, as a builder that wrote nothing passes it, changes no slot and returns the cursor. |
| Mesh.TransformBy | src/mesh.cpp:62-77 | The loop of Transform with a given normal matrix transforms exactly the counted slots and leaves the rest. |
| Mesh.TranslateMovesVertex | src/mesh.cpp:61-74 | A translation moves the position by T and leaves the normal's direction as it was (normalised). |
| Mesh.ScaleScalesVertex | src/mesh.cpp:61-74 | A uniform scale by k scales the position by k, and the normal by 1/k before normalisation. |
| Mesh.NormalMatrixOfScale | src/mesh.cpp:61 | The normal matrix of a uniform scale by k is the scale by 1/k. |
| Mesh.IdentityKeepsVertex | src/mesh.cpp:61-74 | The identity moves no position; it only normalises the normal. |
| Mesh.BuildQuad | src/mesh.cpp:82-107 | With fewer than 6 vertices of room nothing is written and the cursor comes back. Otherwise TL, BL, TR, BL, BR, TR are converted and the cursor moves 6 on. |
| Mesh.QuadIsUnitSquare | src/mesh.cpp:90-95 | Every quad corner is at (±0.5, ±0.5, 0) with normal (0, 0, 1) and the default tangent frame. Its UV is its position shifted by (0.5, 0.5). |
| Mesh.QuadCornerPositions | src/mesh.cpp:92-104 | The six positions, in the order BuildQuad writes them. |
| Mesh.QuadTrianglesFaceNormal | src/mesh.cpp:90-104 | Both triangles wind counter-clockwise seen from +z: their winding normal is the stored normal. |
| Mesh.QuadTrianglesShareDiagonal | src/mesh.cpp:97-104 | Vertices 1 and 3 are both BottomLeft, and 2 and 5 are both TopRight. |
| Mesh.AddFace | src/mesh.cpp:122-123 | `Transform(V, BuildQuad(V, End, D), D, M)` with room for a quad writes the quad and then transforms exactly those 6 slots. |
| Mesh.AddFaces | src/mesh.cpp:119-140 | With room for all faces, face f lands in slots 6f to 6f + 5 from the cursor, built and transformed by its own matrix. The cursor ends 6 per face on. |
| Mesh.BuildCube | src/mesh.cpp:111-141 | With fewer than 36 vertices of room nothing is written and the cursor comes back. Otherwise the back, front, left, right, top and bottom faces are written in that order and the cursor moves 36 on. |
| Mesh.InvertedFace | src/mesh.cpp:150-152 | One inverted-cube face has no guard of its own. Without room for a quad it changes nothing, through BuildQuad's guard. With room it writes and transforms one quad. |
| Mesh.AddFacesWhileRoom | src/mesh.cpp:147-174 | With room for n vertices, the first min(n / 6, 6) faces are written whole and the rest change nothing. |
| Mesh.BuildInvertedCube | src/mesh.cpp:145-175 | With room for n vertices, BuildInvertedCube writes the first min(n / 6, 6) of front, back, right, left, top and bottom, and returns the cursor 6 vertices on per face. It never refuses. |
| Mesh.BackFaceIsSourceProduct | src/mesh.cpp:122-123 | The back face's matrix is Translate(0, 0, -0.5) · RotateY(-1, 0). |
| Mesh.BackFaceCorners | src/mesh.cpp:122-123 | The six corner positions of the back face. |
| Mesh.BackFaceOnSurface | src/mesh.cpp:122-123 | Every back-face corner lies on the z = -0.5 face of the unit cube. |
| Mesh.BackFaceFacesOut | src/mesh.cpp:122-123 | The back face's normal is the outward (0, 0, -1). |
| Mesh.FrontFaceIsSourceProduct | src/mesh.cpp:125-126 | The front face's matrix is Translate(0, 0, 0.5) · RotateY(1, 0). |
| Mesh.FrontFaceCorners | src/mesh.cpp:125-126 | The six corner positions of the front face. |
| Mesh.FrontFaceOnSurface | src/mesh.cpp:125-126 | Every front-face corner lies on the z = 0.5 face. |
| Mesh.FrontFaceFacesOut | src/mesh.cpp:125-126 | The front face's normal is the outward (0, 0, 1). |
| Mesh.LeftFaceIsSourceProduct | src/mesh.cpp:128-129 | The left face's matrix is Translate(-0.5, 0, 0) · RotateY(0, 1). |
| Mesh.LeftFaceCorners | src/mesh.cpp:128-129 | The six corner positions of the left face. |
| Mesh.LeftFaceOnSurface | src/mesh.cpp:128-129 | Every left-face corner lies on the x = -0.5 face. |
| Mesh.LeftFaceFacesOut | src/mesh.cpp:128-129 | The left face's normal is the outward (-1, 0, 0). |
| Mesh.RightFaceIsSourceProduct | src/mesh.cpp:131-132 | The right face's matrix is Translate(0.5, 0, 0) · RotateY(0, -1). |
| Mesh.RightFaceCorners | src/mesh.cpp:131-132 | The six corner positions of the right face. |
| Mesh.RightFaceOnSurface | src/mesh.cpp:131-132 | Every right-face corner lies on the x = 0.5 face. |
| Mesh.RightFaceFacesOut | src/mesh.cpp:131-132 | The right face's normal is the outward (1, 0, 0). |
| Mesh.TopFaceIsSourceProduct | src/mesh.cpp:134-135 | The top face's matrix is Translate(0, 0.5, 0) · RotateX(0, -1). |
| Mesh.TopFaceCorners | src/mesh.cpp:134-135 | The six corner positions of the top face. |
| Mesh.TopFaceOnSurface | src/mesh.cpp:134-135 | Every top-face corner lies on the y = 0.5 face. |
| Mesh.TopFaceFacesOut | src/mesh.cpp:134-135 | The top face's normal is the outward (0, 1, 0). |
| Mesh.BottomFaceIsSourceProduct | src/mesh.cpp:137-138 | The bottom face's matrix is Translate(0, -0.5, 0) · RotateX(0, 1). |
| Mesh.BottomFaceCorners | src/mesh.cpp:137-138 | The six corner positions of the bottom face. |
| Mesh.BottomFaceOnSurface | src/mesh.cpp:137-138 | Every bottom-face corner lies on the y = -0.5 face. |
| Mesh.BottomFaceFacesOut | src/mesh.cpp:137-138 | The bottom face's normal is the outward (0, -1, 0). |
| Mesh.InvertedFrontIsExact | src/mesh.cpp:150-152 | The inverted front face is the quad pushed to z = -0.5. |
| Mesh.InvertedFrontCorners | src/mesh.cpp:150-152 | The six corner positions of the inverted front face. |
| Mesh.InvertedFrontOnSurface | src/mesh.cpp:150-152 | Every corner lies on the z = -0.5 face. |
| Mesh.InvertedFrontFacesIn | src/mesh.cpp:150-152 | Its normal points inward, opposite to the face's outward axis. |
| Mesh.InvertedBackIsExact | src/mesh.cpp:154-156 | When the float cosine and sine are exact at ±π/2 and π, RotateY(π) · push is the literal back matrix. |
| Mesh.InvertedBackCorners | src/mesh.cpp:154-156 | The six corner positions of the inverted back face. |
| Mesh.InvertedBackOnSurface | src/mesh.cpp:154-156 | Every corner lies on the z = 0.5 face. |
| Mesh.InvertedBackFacesIn | src/mesh.cpp:154-156 | Its normal points inward, (0, 0, -1). |
| Mesh.InvertedRightIsExact | src/mesh.cpp:158-160 | With exact right angles, RotateY(π/2) · push is the literal right matrix. |
| Mesh.InvertedRightCorners | src/mesh.cpp:158-160 | The six corner positions of the inverted right face. |
| Mesh.InvertedRightOnSurface | src/mesh.cpp:158-160 | Every corner lies on the x = 0.5 face. |
| Mesh.InvertedRightFacesIn | src/mesh.cpp:158-160 | Its normal points inward, (-1, 0, 0). |
| Mesh.InvertedLeftIsExact | src/mesh.cpp:162-164 | With exact right angles, RotateY(-π/2) · push is the literal left matrix. |
| Mesh.InvertedLeftCorners | src/mesh.cpp:162-164 | The six corner positions of the inverted left face. |
| Mesh.InvertedLeftOnSurface | src/mesh.cpp:162-164 | Every corner lies on the x = -0.5 face. |
| Mesh.InvertedLeftFacesIn | src/mesh.cpp:162-164 | Its normal points inward, (1, 0, 0). |
| Mesh.InvertedTopIsExact | src/mesh.cpp:166-168 | With exact right angles, RotateY(-π/2) · RotateX(π/2) · push is the literal top matrix. |
| Mesh.InvertedTopCorners | src/mesh.cpp:166-168 | The six corner positions of the inverted top face. |
| Mesh.InvertedTopOnSurface | src/mesh.cpp:166-168 | Every corner lies on the y = 0.5 face. |
| Mesh.InvertedTopFacesIn | src/mesh.cpp:166-168 | Its normal points inward, (0, -1, 0). |
| Mesh.InvertedBottomIsExact | src/mesh.cpp:170-172 | With exact right angles, RotateY(-π/2) · RotateX(-π/2) · push is the literal bottom matrix. |
| Mesh.InvertedBottomCorners | src/mesh.cpp:170-172 | The six corner positions of the inverted bottom face. |
| Mesh.InvertedBottomOnSurface | src/mesh.cpp:170-172 | Every corner lies on the y = -0.5 face. |
| Mesh.InvertedBottomFacesIn | src/mesh.cpp:170-172 | Its normal points inward, (0, 1, 0). |
| Mesh.SpherePatchAt | src/mesh.cpp:188-238 | Patch (i, j) occupies vertices 6(Lon·i + j) to 6(Lon·i + j) + 5 of the sphere, which fit in the Lon·Lat·6 written. |
| Mesh.SphereUVInUnitSquare | src/mesh.cpp:226-236 | Every UV lies in [0, 1]². It is (1, 1) only at ring 0 and segment 0, and (0, 0) only at ring Lat and segment Lon. |
| Mesh.SphereQuadSharesDiagonal | src/mesh.cpp:218-236 | Each patch's triangles P0 P1 P2 and P2 P1 P3 share the edge P1 P2 vertex for vertex. Every normal is the vertex's own position, and the tangent frame keeps its defaults. |
| Mesh.SpherePatchesMeet | src/mesh.cpp:211-236 | Neighbouring patches share their edge vertices in position and UV, along segments and along rings, so the sphere has no seams. |
| Mesh.SpherePatch | src/mesh.cpp:211-238 | One patch converts its six vertices at the cursor and moves it 6 on. |
| Mesh.SphereRing | src/mesh.cpp:199-239 | Ring i converts its Lon patches one after the other. |
| Mesh.SphereRings | src/mesh.cpp:188-240 | The Lat rings together write the sphere's 6·Lon·Lat vertices in ring-major order. |
| Mesh.SphereWrite | src/mesh.cpp:187-243 | The rings are converted, then every slot written is scaled by one half. |
| Mesh.BuildSphere | src/mesh.cpp:179-244 | With fewer than Lon·Lat·6 vertices of room nothing is written and the cursor comes back. With Lon or Lat not positive, nothing is written either. Otherwise the sphere vertices are converted and halved, and the cursor moves Lon·Lat·6 on. |
| TangentBasis.AddToKnownVertices | src/mesh.cpp:425-444 | Without forceAdd, the result is the index of the first known position exactly equal to v, with no earlier match, and the list is unchanged. With forceAdd, or when v is unknown, v is appended and its new last index returned. |
| TangentBasis.KnownPositionsFacts | src/mesh.cpp:473-475 | The slots handed out are pairwise distinct positions, and they are exactly the positions that occur among the corners seen. |
| TangentBasis.Instances | src/mesh.cpp:477-479 | A slot's instance list holds exactly the indices of the vertices at that position. |
| TangentBasis.Accumulate | src/mesh.cpp:520-526 | `tangents[i0..i2] += v` adds v to a slot once per listed index that names it, and leaves other slots alone. |
| TangentBasis.FaceSlots | src/mesh.cpp:473-475 | The three AddToKnownVertices calls of a face extend the known positions and return the slots of its three corners. |
| TangentBasis.FaceRefs | src/mesh.cpp:477-479 | The three pushes extend every slot's instance list to the face's corners. |
| TangentBasis.FaceSums | src/mesh.cpp:520-526 | Adding the face's frame to its three slots extends the per-slot sums to that face. |
| TangentBasis.FaceStep | src/mesh.cpp:465-527 | One iteration of the first loop keeps the slots, instance lists, sums and degenerate counter equal to their definitions over the faces seen. |
| TangentBasis.AssignInstances | src/mesh.cpp:542-553 | Every listed instance gets the averaged frame, with the sign rule on the tangent, and no other vertex changes. |
| TangentBasis.AssignSlot | src/mesh.cpp:539-553 | Dividing a slot's sums by its instance count and assigning them finishes every vertex at that position. |
| TangentBasis.AssignFrames | src/mesh.cpp:537-554 | After the second loop every vertex holds its expected frame. |
| TangentBasis.Expected | src/mesh.cpp:537-553 | A vertex keeps its position, normal and UV. Its bitangent is the bitangent sum of its position divided by the number of instances of that position, which is never zero. |
| TangentBasis.ComputeTangentBasis | src/mesh.cpp:448-555 | Every vertex gets its expected frame. The degenerate counter equals the number of faces with a zero UV determinant, and the warning flag is raised exactly when that number is positive. |
| TangentBasis.SharedPositionSharesFrame | src/mesh.cpp:537-553 | Vertices at the same position get the same bitangent, and tangents that are equal or opposite. |
| TangentBasis.SignRule | src/mesh.cpp:544-551 | As written, the tangent is negated exactly when Dot(Cross(N, T), B) is non-zero. |
| TangentBasis.SignRuleFlipsUnlessFlat | src/mesh.cpp:544-551 | A non-zero tangent survives the rule unchanged only when the triple product is 0. |
| TangentBasis.FaceFrameSolvesUVSystem | src/mesh.cpp:491-506 | For a non-degenerate face, each edge equals T times the edge's U delta plus B times its V delta. |
| TangentBasis.AllDegenerate | src/mesh.cpp:500-518 | When every face has a zero determinant, no division happens, all sums stay zero, and the counter counts every face. |
| TangentBasis.DegenerateMeshGetsZeroFrames | src/mesh.cpp:488-553 | In such a mesh every vertex gets a zero tangent and bitangent. |
| TangentBasis.RightHandedFrameFlipped | src/mesh.cpp:544-547 | As written, every right-handed frame (positive triple product) has its tangent negated, which makes it left-handed. |
| TangentBasis.CanonicalFrameIsRightHanded | src/mesh.cpp:544-547 | Normal (0, 0, 1), tangent (1, 0, 0), bitangent (0, 1, 0) has triple product 1, so the rule flips it. |
| TangentBasis.OrientedTangent | src/mesh.cpp:544-551 | The corrected rule returns ±T with a non-negative triple product, and keeps T whenever the frame is already right-handed. |
| ObjLoad.ReadCache | src/mesh.cpp:258-261 | The vertex list read back has the stored count. It holds the stored records as far as they go, and blank vertices after a short file. |
| ObjLoad.LoadFromCache | src/mesh.cpp:249-267 | The load fails exactly when `<Filename>.cache` is absent. |
| ObjLoad.CacheRoundTrip | src/mesh.cpp:271-283 | Reading back what SaveObjToCache wrote gives the same vertices. |
| ObjLoad.SavedMeshIsFound | src/mesh.cpp:249-283 | After a save, the next load of the file returns the saved vertices. |
| ObjLoad.CornerVertex | src/mesh.cpp:323-347 | A corner without file normals keeps normal (0, 1, 0), and one without texture coordinates keeps UV (0, 0). The tangent frame stays at its defaults. |
| ObjLoad.CornerReadsItsIndices | src/mesh.cpp:323-347 | A corner's position, normal and UV are read from the attribute arrays at 3·index (or 2·index for UVs). |
| ObjLoad.GatherIsShapeByShape | src/mesh.cpp:311-354 | The gathered list is shape 0's corners, then shape 1's, and so on. Corner k of shape s sits after all earlier shapes' corners. |
| ObjLoad.FaceNormalsArePerpendicular | src/mesh.cpp:357-368 | Without file normals, the three corners of a triangle share one normal, and it is perpendicular to both edges from the first corner. |
| ObjLoad.FaceNormalsKeepTheRest | src/mesh.cpp:357-368 | Building normals changes nothing but the normals. |
| ObjLoad.SphericalUVAtOrigin | src/mesh.cpp:374-385 | A vertex of length 0 keeps its UV. |
| ObjLoad.SphericalUVOffOrigin | src/mesh.cpp:374-385 | Any other vertex gets V = y / Length, and nothing but its UV changes. |
| ObjLoad.RescaleByOne | src/mesh.cpp:393-398 | Rescaling by 1 changes nothing. |
| ObjLoad.RescaleComposes | src/mesh.cpp:393-398 | Rescaling by a then b is rescaling by a·b, and only positions change. |
| ObjLoad.Rescale | src/mesh.cpp:393-398 | Every position is multiplied by Scale, and nothing else changes. |
| ObjLoad.CacheIsScaleFree | src/mesh.cpp:388-398 | The cache holds the mesh before scaling, so after a parse at one scale, a load at any other scale yields the built mesh at that scale. |
| ObjLoad.LoadObjNoConvertion | src/mesh.cpp:287-401 | It fails exactly when there is no cache file and the parser reports an error, and then yields nothing and writes nothing. With a cache file it returns the cached vertices, rescaled, and writes nothing. Otherwise it saves the built mesh unscaled and returns it rescaled. |
| ObjLoad.LoadObj | src/mesh.cpp:405-422 | On a failed load the buffer and cursor come back unchanged. Otherwise min(mesh size, GetVertexCount) vertices are converted and the cursor moves that far. |
| ObjLoad.LoadObjTruncates | src/mesh.cpp:411-421 | A mesh that fits is converted whole. A larger one fills the buffer up to End instead of being refused. |
| GLHelpers.ImageFlagsAreDistinctBits | src/opengl_helpers.h:8-18 | The eight image flags are 1 << 0 to 1 << 7, and no two share a bit. |
| GLHelpers.KernelsIsPhongOrShadow | src/opengl_helpers.h:20-26 | GLINCLUDE_KERNELS equals PHONGLIGHT \| SHADOW, so testing it is testing either. PBR shares no bit with it. |
| GLHelpers.InjectIncludes | src/opengl_helpers.cpp:457-483 | The sources already present are kept as a prefix. |
| GLHelpers.InjectIncludesFollowsOrder | src/opengl_helpers.cpp:457-483 | Exactly the requested library sources are appended, in the order structs, kernel, Phong, shadow, PBR. |
| GLHelpers.IncludeConsequences | src/opengl_helpers.cpp:459-481 | PHONGLIGHT or SHADOW also brings in the kernel source and the struct definitions. PBR alone brings only structs and PBR. |
| GLHelpers.CompileShaderEx | src/opengl_helpers.cpp:485-511 | The first source is the `#version 330 core` line. |
| GLHelpers.CompiledSourcesEndWithCallerStrings | src/opengl_helpers.cpp:489-496 | The version line comes first, then the requested includes, then the caller's strings in their order. |
| GLHelpers.CompileShader | src/opengl_helpers.cpp:513-516 | The sources are exactly the version line, the requested library sources in their fixed order, and the one caller string. |
| GLHelpers.CompileOneString | src/opengl_helpers.cpp:513-516 | CompileShader's sources are the version line, the includes and the one caller string. |
| GLHelpers.CreateProgramEx | src/opengl_helpers.cpp:518-541 | No contract of its own; CreateProgram and OnlyFragmentStageGetsIncludes state which stage gets the includes. |
| GLHelpers.CreateProgramExWithGeometry | src/opengl_helpers.cpp:543-575 | No contract of its own; OnlyFragmentStageGetsIncludes states the three stages' sources. |
| GLHelpers.CreateProgram | src/opengl_helpers.cpp:577-580 | The vertex shader is the version line and VS, with no geometry stage. The fragment shader is the version line, the requested library sources, then FS. |
| GLHelpers.OnlyFragmentStageGetsIncludes | src/opengl_helpers.cpp:543-571 | The vertex and geometry stages get only the version line and their strings. The fragment stage also gets the includes. |
| GLHelpers.FormatTablesDiffer | src/opengl_helpers.cpp:592-608 | The sRGB format table differs from the linear one exactly at 3 and 4 channels. |
| GLHelpers.GetChannelsInfo | src/opengl_helpers.cpp:610-632 | The two outputs are equal whenever any force flag is set; otherwise they keep their prior values. |
| GLHelpers.LastFlagWins | src/opengl_helpers.cpp:610-632 | Starting from (0, 0), the outputs are the forced count with precedence RGBA > RGB > GREY_ALPHA > GREY. It is 0 exactly when no force flag is set. |
| GLHelpers.UploadTexture | src/opengl_helpers.cpp:634-683 | It uploads exactly when decoding succeeds. On failure it returns with no output written, no mipmaps, and the flip flag left as set. On success the flag is reset, the outputs are written when asked, and mipmaps follow IMG_GEN_MIPMAPS. |
| GLHelpers.UploadFormats | src/opengl_helpers.cpp:642-667 | The pixel format comes from the forced channel count, or the image's own count when none is forced. The internal format differs from it only for an sRGB request with 3 or 4 channels. |
| GLHelpers.UploadTarget | src/opengl_helpers.cpp:657-668 | Without IMG_CUBEMAP the upload targets the 2D texture and the counter is unchanged. With it, the face named by the counter is used and the counter steps. |
| GLHelpers.CounterAsWrittenHasSevenStates | src/opengl_helpers.cpp:659-663 | As written, after k uploads from 0 the face counter is k mod 7. |
| GLHelpers.NextCubeFace | src/opengl_helpers.cpp:663 | The corrected step stays in 0..5 and is (i + 1) mod 6. |
| GLHelpers.CubeFaceCounterCyclesSix | src/opengl_helpers.cpp:659-663 | With the corrected step, upload k goes to face k mod 6. |
| GLHelpers.PixelIndexInRange | src/opengl_helpers.cpp:688-694 | Every texel of the Width × Height grid has an index inside the array. |
| GLHelpers.PixelIndexInjective | src/opengl_helpers.cpp:694 | Distinct texels have distinct indices. |
| GLHelpers.CheckerTexelByTileSize | src/opengl_helpers.cpp:695-697 | With C++ truncating `/` and `%` and any non-zero S, texel (x, y) is dark exactly when x/abs(S) + y/abs(S) is odd. |
| GLHelpers.NegativeSquareSizeSameBoard | src/opengl_helpers.cpp:695-697 | A negative SquareSize draws the same board as its absolute value. |
| GLHelpers.CheckerAlternates | src/opengl_helpers.cpp:695-697 | Moving abs(S) texels to the right changes the colour. All texels of a tile share the colour of its corner. |
| GLHelpers.CheckerTexelsByGrid | src/opengl_helpers.cpp:688-698 | Read by texel coordinates, the Width·Height array is the board: texel (x, y) sits inside it at x + y·Width and has its tile's colour. |
| GLHelpers.UploadCheckerboardTexture | src/opengl_helpers.cpp:686-702 | The row-by-row loops fill exactly the board's texel array: texel (x, y) at x + y·Width is dark exactly when x/abs(S) + y/abs(S) is odd, for any non-zero S. The upload made is the as-written Width × Width one. |
| GLHelpers.CheckerboardUploadSizeMismatch | src/opengl_helpers.cpp:701 | The as-written upload reads more texels than the array holds exactly when Width > Height, and fewer (only the first Width rows) exactly when Width < Height. A 4 × 2 board reads 16 texels of 8. |
| GLHelpers.CheckerboardUpload | src/opengl_helpers.cpp:701 | The corrected Width × Height upload of the board's array reads exactly as many texels as the array holds, and texel (x, y) of the uploaded image is the board's texel (x, y). |
| GLCache.EmptyCacheIsValid | src/opengl_helpers_cache.cpp:6-8 | A new cache in a fresh context has all names distinct and already generated. |
| GLCache.LoadObj | src/opengl_helpers_cache.cpp:19-44 | A hit returns the stored buffer and count with no GL call. A miss generates a fresh buffer, uploads the loaded vertices once and records the vertex count. Even a failed load gets an entry, with count 0. The count is written only when asked, the other maps are untouched, and the cache stays valid. |
| GLCache.LoadObjTwice | src/opengl_helpers_cache.cpp:21-27 | A second load of a file at another scale returns the first buffer and count, and makes no GL call. |
| GLCache.WithoutCubemap | src/opengl_helpers_cache.cpp:64 | The result lacks IMG_CUBEMAP and agrees with the flags on every other bit. |
| GLCache.WithCubemap | src/opengl_helpers_cache.cpp:103 | The result has IMG_CUBEMAP and agrees with the flags on every other bit. |
| GLCache.CubemapFlagLeavesDecodingAlone | src/opengl_helpers_cache.cpp:64-66 | Clearing or setting IMG_CUBEMAP does not change how a file decodes. |
| GLCache.NewTexture | src/opengl_helpers_cache.cpp:58-71 | A miss takes a fresh name, uploads to the 2D target, and records the decoded size, or an indeterminate one on failure. |
| GLCache.LoadTexture | src/opengl_helpers_cache.cpp:46-74 | A hit returns the stored name and size with no GL call. A miss creates an entry under the caller's flags, uploads with IMG_CUBEMAP cleared and to the 2D target, and leaves the face counter alone. The map only grows. |
| GLCache.LoadTexturePreservesValid | src/opengl_helpers_cache.cpp:46-74 | LoadTexture keeps names distinct and already generated. |
| GLCache.SecondTextureLoadIsHit | src/opengl_helpers_cache.h:33-36 | The key compares file names only, so a second load of a file with any flags returns the first name and size with no GL call. The stored flags stay those of the first request. |
| GLCache.BlackTextureKeepsFirstFlags | src/backpack_scene.cpp:72 | media/Black.png requested flipped and then unflipped through one cache yields the flipped texture both times. |
| GLCache.FaceUploadTargetsCubeFace | src/opengl_helpers_cache.cpp:102-104 | With IMG_CUBEMAP forced, each upload goes to a cube face, and the recorded size is the decoded one or 0. |
| GLCache.UploadFaces | src/opengl_helpers_cache.cpp:94-105 | One size pair per file, in order: the decoded size, or 0 when decoding failed. |
| GLCache.UploadFacesStepsCounter | src/opengl_helpers_cache.cpp:94-105 | Each successful face upload steps the face counter once. |
| GLCache.LoadCubemapTexture | src/opengl_helpers_cache.cpp:77-119 | It is keyed by the first file name. A hit returns the stored name and sizes with no GL call. A miss uploads every file to a cube face and records one size per file under the caller's flags. |
| GLCache.FacesDecodeAsRequested | src/opengl_helpers_cache.cpp:103-104 | Forcing IMG_CUBEMAP leaves every file's decoding as requested. |
| GLCache.LoadCubemapPreservesValid | src/opengl_helpers_cache.cpp:77-119 | LoadCubemapTexture keeps names distinct and already generated. |
| GLCache.SecondCubemapLoadIsHit | src/opengl_helpers_cache.cpp:79-87 | Any list with the same first file returns the first cube map and its sizes. |
| GLCache.SecondCubemapStartsOffTheFaces | src/opengl_helpers.cpp:659-663 | After a first six-face cube map, the counter is 6, which names no face. |
| GLCache.Destroy | src/opengl_helpers_cache.cpp:10-17 | Every 2D texture is deleted once, then every vertex buffer once. No cube-map texture is deleted. |
| GLCache.DeleteTextures | src/opengl_helpers_cache.cpp:12-13 | One delete per TextureMap entry, covering every texture name. |
| GLCache.DeleteBuffers | src/opengl_helpers_cache.cpp:15-16 | One delete per VertexBufferMap entry, covering every buffer name. |
| Scene.DefaultLightCodes | src/opengl_helpers.h:46-63 | A new light is a disabled directional light, casting static shadows not yet generated. |
| Scene.DefaultSceneCounts | src/scene.h:39-57 | A default scene claims 8 lights but holds none, so GetLight(0) is null. Its vertex count is 0. |
| Scene.GetLight | src/scene.h:67-72 | The result is null exactly when `Lights.size() <= i`; otherwise it points at Lights[i]. |
| Scene.WriteThroughGetLight | src/scene.h:67-72 | A write through the returned pointer persists in Lights[i] and changes no other light. |
| Scene.ResizeLights | src/tavern_scene.cpp:25-26 | LightCount and the list length both become n. The prefix is kept, new lights are default, and no other field changes. |
| Scene.ResizedLightsAreReachable | src/tavern_scene.cpp:25-26 | After the resize every index below LightCount reaches a light. |
| Scene.FullDescriptor | src/scene.cpp:22-30 | The stride is 56 with normals and UVs present. The offsets lay the fields out back to back: position 0, normal, UV, tangent, bitangent. So the descriptor is well-formed: every field inside the stride, no two overlapping. |
| Scene.CreateMesh | src/scene.cpp:17-31 | The buffer and count come from the cache's LoadObj at scale 1, and the descriptor is vertex_full's layout. |
| Scene.RadioValueIsMode | src/scene.cpp:60-73 | Radio values 0, 1 and 2 store NONE, STATIC and DYNAMIC, and different buttons store different modes. |
| Scene.EditLight | src/scene.cpp:33-77 | A disabled light returns right after the checkbox: only Enabled can change, and a change is reported exactly when it was clicked. Direction only moves for a spot or directional light, and the cut-off only for a spot light. No edit means no change. A radio choice stores its mode, and one that differs from the prior mode counts as a change. |
| Scene.DisabledLightIsFrozen | src/scene.cpp:35-37 | A disabled light whose checkbox is not clicked keeps every field and reports no change. |
| Scene.Inspected | src/scene.cpp:87-92 | A reported change clears ShadowGenerated; no change leaves the light alone. |
| Scene.InspectLights | src/scene.cpp:79-109 | Lights below LightCount are inspected and the rest are untouched. |
| Scene.InspectUploads | src/scene.cpp:88-92 | Only changed lights below LightCount are uploaded, into their own slot with the edited value, in increasing order. |
| Scene.ChangedLightsAreUploaded | src/scene.cpp:85-91 | Every light whose editor reported a change is uploaded. |
| Scene.AttenuationAsWrittenIsLinearInDistance | src/scene.cpp:98 | The formula as written divides by 13 where the label's formula divides by 19. A purely quadratic light's denominator only doubles when the distance doubles. |
| Scene.AttenuationIsQuadratic | src/scene.cpp:99 | With the label's formula c + l·d + q·d·d, doubling the distance quadruples a purely quadratic denominator. |
| ShadowMap.TextureUnitsAreDistinct | src/demo_shadowmap.cpp:377-389 | For eight lights, the diffuse, emissive, depth-map and cube-map units are 18 distinct units in 0..17. |
| ShadowMap.NinthLightCollides | src/demo_shadowmap.cpp:380-389 | A ninth depth map would share cube map 0's unit. |
| ShadowMap.Orthographic | src/maths.h:450-471 | The projection is affine (last row 0, 0, 0, 1) and has no cross terms between axes. |
| ShadowMap.OrthographicFillsClipCube | src/maths.h:450-471 | For every box with non-empty extents, the near-lower-left corner (left, bottom, -near) maps to (-1, -1, -1, 1) and the far-upper-right corner (right, top, -far) to (1, 1, 1, 1). |
| ShadowMap.SunProjectionFillsClipCube | src/demo_shadowmap.cpp:628 | The directional light's box maps its near-lower-left corner to (-1, -1, -1) and its far-upper-right corner to (1, 1, 1). |
| ShadowMap.LightMVP | src/demo_shadowmap.cpp:619-652 | No contract of its own; LightMVPDependsOn states what it depends on and that the identity model matrix drops out. |
| ShadowMap.LightMVPDependsOn | src/demo_shadowmap.cpp:619-652 | A directional light's matrix depends only on its direction. A spot light's depends only on position, direction and outer cut-off. |
| ShadowMap.CameraDirectionsFollowFaceOrder | src/demo_shadowmap.cpp:661-669 | Entry k names face POSITIVE_X + k and looks along ±axis k/2 in the order +X, -X, +Y, -Y, +Z, -Z. Its up vector is a unit vector perpendicular to the look direction. |
| ShadowMap.PointLightMVP | src/demo_shadowmap.cpp:671-688 | A point light gets exactly six matrices. |
| ShadowMap.PointLightFaces | src/demo_shadowmap.cpp:671-688 | Matrix k is the 90°, square, 1-to-25 perspective looking from the light towards face k. |
| ShadowMap.Pushed | src/demo_shadowmap.cpp:494-495 | The list grows by one, its first entry becomes the new matrix, and the rest keep their values. |
| ShadowMap.Redrawn | src/demo_shadowmap.cpp:487-497 | A point light's list is replaced by its six face matrices. Any other light's list grows by one and starts with the light's matrix. |
| ShadowMap.PassFor | src/demo_shadowmap.cpp:487-497 | A point light gets a cube-map pass with its six matrices, and any other light a depth-map pass with its one matrix. |
| ShadowMap.Visited | src/demo_shadowmap.cpp:499-501 | A visited light has its flag set exactly when it was set already or the light casts shadows. Nothing else changes. |
| ShadowMap.PassesUpTo | src/demo_shadowmap.cpp:480-497 | Each pass is for a regenerating light below n, and passes come in increasing light order. |
| ShadowMap.UploadsUpTo | src/demo_shadowmap.cpp:499-505 | Each upload is for a regenerating light below n whose flag was clear, and uploads come in increasing slot order. |
| ShadowMap.VisitLight | src/demo_shadowmap.cpp:482-505 | A skipped light causes nothing. A redrawn light gets new matrices and one pass, plus an upload only when its flag goes from clear to set. |
| ShadowMap.DepthMapsGeneration | src/demo_shadowmap.cpp:475-508 | Lights 0..LightCount-1 are visited in order. The lights, matrices, passes and uploads after the loop are those of the reference definitions above. |
| ShadowMap.RegeneratingLightsArePassed | src/demo_shadowmap.cpp:480-497 | Every regenerating light below n is redrawn. |
| ShadowMap.FirstGenerationIsUploaded | src/demo_shadowmap.cpp:499-505 | Slot i is uploaded exactly when light i regenerates with its flag clear. |
| ShadowMap.ModesAcrossFrames | src/demo_shadowmap.cpp:483-484 | NONE is never redrawn. STATIC is redrawn while its flag is clear, and never right after a visit. DYNAMIC is redrawn on every call. |
| ShadowMap.SecondGenerationIsQuiet | src/demo_shadowmap.cpp:480-505 | A second call uploads nothing and redraws exactly the DYNAMIC lights. |
| ShadowMap.StaticRedrawnOncePerEdit | src/demo_shadowmap.cpp:484 | After a generation, a static light is redrawn again exactly when the light editor reports a change to it. |
| ShadowMap.NewLightsAreFresh | src/demo_shadowmap.cpp:368-371 | Lights with clear flags and the constructor's eight empty lists satisfy the invariant that set flags have matching matrices. |
| ShadowMap.GenerationRefreshes | src/demo_shadowmap.cpp:480-505 | Generation keeps the invariant. Afterwards every light that casts shadows has its flag set and matching matrices. |
| ShadowMap.InspectionKeepsFresh | src/scene.cpp:88-91 | The light editor keeps the invariant: a changed light loses its flag. |
| ShadowMap.RenderBindings | src/demo_shadowmap.cpp:588-607 | Only shadowed lights are bound: point lights as cube maps on unit 10 + i, others with DepthMVP[i][0] on unit 2 + i. |
| ShadowMap.RenderSeesCurrentMatrices | src/demo_shadowmap.cpp:588-607 | With matching matrices, every DepthMVP[i][0] read is in range and is the light's current matrix. |
| Instancing.InstanceIndexDecodes | src/demo_instancing.cpp:127-140 | Index 25x + 5y + z of a grid point lies below 125, and x, y, z are recovered from it. |
| Instancing.InstanceIndexCovers | src/demo_instancing.cpp:127-140 | Every index below 125 is the index of exactly the grid point it decodes to. |
| Instancing.InstancePositions | src/demo_instancing.cpp:127-140 | There are 125 offsets, and slot 25x + 5y + z holds (5x, 5y, 5z). |
| Instancing.OffsetsOnTheLattice | src/demo_instancing.cpp:129-136 | Every coordinate of every offset is one of 0, 5, 10, 15 and 20. |
| Instancing.OffsetsAreDistinct | src/demo_instancing.cpp:129-136 | No two instances share an offset. |
| Instancing.DrawCoversLattice | src/demo_instancing.cpp:269 | The draw has as many instances as offsets (125), so count·125 vertices are shaded. Each grid point is drawn by exactly one instance, which reads its offset. |

## Left out

- GL calls are recorded as events in a log (buffer and texture creation, uploads, deletes) with fresh names from a counter. Binding, framebuffers, VAOs, uniforms and draw-state calls are not modelled. Neither are `scene::~scene`, `scene::GenerateVAO` and `scene::DrawScene`, which are pure GL glue.
- GLSL shader texts, UniformLight and UniformMaterial are not modelled: they run in the driver or only format uniform names.
- ImGui widgets are inputs: each EditLight widget is an optional new value, and a closed tree node is `None`. The attenuation calculator's `Dist` slider is a parameter.
- tinyobj::LoadObj and stb_image are parameters. The parser returns attributes and shapes, or an error text. The decoder returns an image size and channel count, or nothing. The parser is assumed to triangulate and give valid indices, as the loader's `assert` expects.
- File I/O is a map from file names to cache contents. The binary layout, `fopen` failure on write and partial writes are not modelled.
- Square roots, sines, cosines, atan2, acos, Perspective and LookAt are uninterpreted parameters. Sphere positions and projection matrices are therefore stated in terms of them, not as numbers.
- Float rounding, NaN and infinities are not modelled; values are reals. A zero homogeneous w in Transform keeps xyz instead of dividing. Mat4::Inverse uses 0 in place of 1/det for a singular matrix.
- 32-bit int overflow is not modelled: GetVertexCount's `(int)` byte distance, `Lon * Lat * 6` and TrueMod's `Value % Base + Base` are unbounded integers.
- types.h is not part of this model: v3 is taken as 12 bytes and v2 as 8, so vertex_full is 56 bytes.
- The order in which `~cache` walks its maps is not modelled; Destroy states which names are deleted, not their order.
- GL::light's Enabled is an int that ImGui edits through a bool pointer; it is modelled as a bool.
- cache::LoadObj uploads `&TmpBuffer[0]` even for an empty mesh, which is undefined behaviour in C++; here it is an upload of the empty list.
- LoadObjNoConvertion is modelled on an empty vertex list, which is how both callers use it. Appending to a non-empty list is not modelled.
- GenerateDepthMap and GenerateDepthCubeMap are modelled as passes carrying their light and matrices; the framebuffer work inside them is not modelled.
- DepthMapsGeneration draws shadows for disabled lights too, because the source never tests Enabled there; the model follows the source.
- GetLightMVP's Identity branch, for light types other than 0, 1 and 2, is modelled; the editor's type slider only reaches 0 to 2.
- The instancing demo's `#define LIGHT_COUNT` string and shader program set-up are not modelled.
- FloatLib.Normalize: states only that a non-zero vector is scaled by some positive factor, not that the factor is 1/sqrt(|v|²). This keeps the contract independent of the square-root parameter.
- Mesh.InvertedBackIsExact: the rotated faces of BuildInvertedCube are exact only when the float cosine and sine give exactly 0 and ±1 at π/2 and π. That is stated as a precondition on the trigonometry parameter.
- Mesh.InvertedRightIsExact: holds only when the float cosine and sine are exact at the quarter turns (the same precondition on the trigonometry parameter). The float cosine of π/2 is not exactly 0.
- Mesh.InvertedLeftIsExact: holds only when the float cosine and sine are exact at the quarter turns, for the same reason.
- Mesh.InvertedTopIsExact: holds only when the float cosine and sine are exact at the quarter turns, for the same reason.
- Mesh.InvertedBottomIsExact: holds only when the float cosine and sine are exact at the quarter turns, for the same reason.
- Mesh.ConvertVertices and Mesh.Transform model the buffer as whole vertex slots. That stands only for descriptors satisfying Mesh.WellFormed: position, normal and UV inside the stride and not overlapping. mesh.cpp never checks this, and a descriptor with overlapping or out-of-stride offsets would alias fields or write into the next vertex, which the model cannot express. The only descriptor the demos build, vertex_full's, is well-formed (Scene.FullDescriptor).
- GLHelpers.UploadCheckerboardTexture: takes Width ≥ 0 and Height ≥ 0. With exactly one size negative, `std::vector<v4> Texels(Width * Height)` throws. With both negative, the loops are skipped and glTexImage2D gets a negative size. With Width or Height 0, `&Texels[0]` indexes an empty vector, which is undefined behaviour; the model makes an empty upload instead. No caller passes such sizes.
- Scene.EditLight: the source ORs widget results with non-short-circuit `|`, so every widget is drawn. The model keeps only the resulting change flag and values, not the drawing.

## Findings

| source | as written | input that shows it | evidently intended | confidence | as-written member | corrected member |
|---|---|---|---|---|---|---|
| src/mesh.cpp:544-551 | The tangent is negated whenever Dot(Cross(N, T), B) is non-zero, since the float is used as a boolean. | Normal (0,0,1), T (1,0,0), B (0,1,0): the triple product is 1, and the right-handed frame is flipped to a left-handed one. | Negate only when the triple product is negative, the usual handedness fix. | not executed | TangentBasis.RightHandedFrameFlipped | TangentBasis.OrientedTangent |
| src/opengl_helpers.cpp:663 | The face counter steps `i < 6 ? i + 1 : 0`, cycling through 0..6. | Two six-face cube maps loaded in a row: the seventh upload targets POSITIVE_X + 6, which is not a face. | Cycle through the six faces 0..5. | not executed | GLHelpers.CounterAsWrittenHasSevenStates | GLHelpers.CubeFaceCounterCyclesSix |
| src/opengl_helpers.cpp:701 | glTexImage2D is given Width as both width and height. | Width 4, Height 2: the upload reads 16 texels from an 8-texel array. With Width < Height only the first Width rows are uploaded. | Upload Width × Height. | not executed | GLHelpers.CheckerboardUploadSizeMismatch | GLHelpers.CheckerboardUpload |
| src/scene.cpp:98 | The attenuation denominator is c + l·d + q·q·d; the Phong shader at src/opengl_helpers.cpp:114 uses the same formula. | (c, l, q) = (1, 0, 2) at d = 3: 13 where the label `c + ld + qdd` gives 19. | c + l·d + q·d·d, as the on-screen label says. | not executed | Scene.AttenuationAsWrittenIsLinearInDistance | Scene.AttenuationIsQuadratic |
