/** Mesh::ComputeTangentBasis and its helper AddToKnownVertices (mesh.cpp).

    The mesh is a list of triangles, three consecutive vertices each. Corners are
    grouped by exact position equality into slots numbered in order of first appearance.
    Every face adds its tangent and bitangent to the slot of each of its three corners.
    Each slot's sums are then divided by the number of corners in it, and every corner of
    the slot receives the result, the tangent going through a sign rule.

    The three std::maps of the source are keyed by slot number, and their keys are exactly
    the slots handed out so far. They are modelled as sequences indexed by slot. An entry
    that `operator[]` would create holds the default value: the empty list or the zero
    vector. */
module TangentBasis {
  import opened Maths
  import opened Mesh

  // ---------------------------------------------------------------------------
  // AddToKnownVertices
  // ---------------------------------------------------------------------------

  /** AddToKnownVertices(vertices, v, forceAdd): unless forceAdd is set, returns the index
      of the first known position equal to `v`. The comparison is exact, component by
      component, with no epsilon. Otherwise, or when there is no such position, it appends
      `v` and returns the new last index. */
  method AddToKnownVertices(known: seq<V3>, v: V3, forceAdd: bool) returns (next: seq<V3>, i: int)
    ensures !forceAdd && v in known ==> next == known && 0 <= i < |known| && known[i] == v && v !in known[..i]
    ensures forceAdd || v !in known ==> next == known + [v] && i == |known|
  {
    if !forceAdd {
      var k := 0;
      while k < |known|
        invariant 0 <= k <= |known|
        invariant v !in known[..k]
      {
        if known[k] == v {
          return known, k;
        }
        assert known[..k + 1] == known[..k] + [known[k]];
        k := k + 1;
      }
      assert known[..k] == known;
    }
    next := known + [v];
    i := |next| - 1;
  }

  // ---------------------------------------------------------------------------
  // Reference definitions, by position
  // ---------------------------------------------------------------------------

  /** Some vertex before index n sits at position p. */
  predicate Occurs(mesh: seq<FullVertex>, n: int, p: V3)
    requires 0 <= n <= |mesh|
  {
    exists m | 0 <= m < n :: mesh[m].position == p
  }

  /** The positions of the first n vertices without repeats, in order of first appearance:
      the slots AddToKnownVertices hands out, in order. */
  function KnownPositions(mesh: seq<FullVertex>, n: int): seq<V3>
    requires 0 <= n <= |mesh|
  {
    if n == 0 then []
    else
      var k := KnownPositions(mesh, n - 1);
      if mesh[n - 1].position in k then k else k + [mesh[n - 1].position]
  }

  /** The slots are pairwise distinct, and they hold exactly the positions that occur. */
  lemma {:induction false} KnownPositionsFacts(mesh: seq<FullVertex>, n: int)
    requires 0 <= n <= |mesh|
    ensures forall i, j | 0 <= i < j < |KnownPositions(mesh, n)| :: KnownPositions(mesh, n)[i] != KnownPositions(mesh, n)[j]
    ensures forall p :: p in KnownPositions(mesh, n) <==> Occurs(mesh, n, p)
  {
    if n > 0 {
      KnownPositionsFacts(mesh, n - 1);
      forall p
        ensures Occurs(mesh, n, p) <==> Occurs(mesh, n - 1, p) || mesh[n - 1].position == p
      {
        if Occurs(mesh, n, p) && !Occurs(mesh, n - 1, p) {
          var m :| 0 <= m < n && mesh[m].position == p;
          assert m == n - 1;
        }
      }
    }
  }

  /** The indices of the vertices before n that sit at position p, in increasing order:
      the list of instances of p's slot. */
  function Instances(mesh: seq<FullVertex>, n: int, p: V3): (r: seq<int>)
    requires 0 <= n <= |mesh|
    ensures forall x | x in r :: 0 <= x < n && mesh[x].position == p
    ensures forall m | 0 <= m < n && mesh[m].position == p :: m in r
  {
    if n == 0 then [] else Instances(mesh, n - 1, p) + (if mesh[n - 1].position == p then [n - 1] else [])
  }

  /** The determinant of the texture-coordinate deltas of face f. */
  function UVDeterminant(mesh: seq<FullVertex>, f: int): real
    requires 0 <= f && 3 * f + 3 <= |mesh|
  {
    var d1 := mesh[3 * f + 1].uv.Sub(mesh[3 * f].uv);
    var d2 := mesh[3 * f + 2].uv.Sub(mesh[3 * f].uv);
    d1.x * d2.y - d1.y * d2.x
  }

  /** The tangent and bitangent one face contributes. A face whose determinant is 0
      contributes zero, with no division. */
  datatype Frame = Frame(tangent: V3, bitangent: V3)

  function FaceFrame(mesh: seq<FullVertex>, f: int): Frame
    requires 0 <= f && 3 * f + 3 <= |mesh|
  {
    var d1 := mesh[3 * f + 1].uv.Sub(mesh[3 * f].uv);
    var d2 := mesh[3 * f + 2].uv.Sub(mesh[3 * f].uv);
    var e1 := mesh[3 * f + 1].position.Sub(mesh[3 * f].position);
    var e2 := mesh[3 * f + 2].position.Sub(mesh[3 * f].position);
    var d := UVDeterminant(mesh, f);
    if d != 0.0 then
      var r := 1.0 / d;
      Frame(e1.Times(d2.y).Sub(e2.Times(d1.y)).Times(r), e2.Times(d1.x).Sub(e1.Times(d2.x)).Times(r))
    else Frame(Zero3, Zero3)
  }

  function AddIf(sum: V3, hit: bool, v: V3): V3 {
    if hit then sum.Add(v) else sum
  }

  /** The tangent total of position p over the first f faces: each face adds its
      tangent once per corner at p. */
  function TangentSum(mesh: seq<FullVertex>, f: int, p: V3): V3
    requires 0 <= f && 3 * f <= |mesh|
  {
    if f == 0 then Zero3
    else
      var g := f - 1;
      var t := FaceFrame(mesh, g).tangent;
      AddIf(AddIf(AddIf(TangentSum(mesh, g, p), mesh[3 * g].position == p, t),
                  mesh[3 * g + 1].position == p, t), mesh[3 * g + 2].position == p, t)
  }

  /** The same total for bitangents. */
  function BitangentSum(mesh: seq<FullVertex>, f: int, p: V3): V3
    requires 0 <= f && 3 * f <= |mesh|
  {
    if f == 0 then Zero3
    else
      var g := f - 1;
      var b := FaceFrame(mesh, g).bitangent;
      AddIf(AddIf(AddIf(BitangentSum(mesh, g, p), mesh[3 * g].position == p, b),
                  mesh[3 * g + 1].position == p, b), mesh[3 * g + 2].position == p, b)
  }

  /** The number of the first f faces whose UV determinant is 0. */
  function DegenerateFaces(mesh: seq<FullVertex>, f: int): nat
    requires 0 <= f && 3 * f <= |mesh|
  {
    if f == 0 then 0 else DegenerateFaces(mesh, f - 1) + (if UVDeterminant(mesh, f - 1) == 0.0 then 1 else 0)
  }

  /** The sign rule as written: the tangent is negated exactly when
      Dot(Cross(Normal, T), B) is non-zero, since the float is used as a boolean. */
  function SignRule(n: V3, t: V3, b: V3): (r: V3)
    ensures Dot(Cross(n, t), b) != 0.0 ==> r == t.Times(-1.0)
    ensures Dot(Cross(n, t), b) == 0.0 ==> r == t
  {
    if Dot(Cross(n, t), b) != 0.0 then t.Times(-1.0) else t
  }

  /** Vertex v given the averaged frame (t, b): the tangent through the sign rule, the
      bitangent as is. */
  function WithFrame(v: FullVertex, t: V3, b: V3): FullVertex {
    v.(tangent := SignRule(v.normal, t, b), bitangent := b)
  }

  /** What ComputeTangentBasis makes of vertex m. Its tangent comes from the sign rule
      applied to T. Its bitangent is B. T and B are the sums of the frames of all faces
      with a corner at its position, divided by the number of vertices at that position.
      That divisor counts instances, not faces, and is never 0. Position, normal and UV
      are kept. */
  function Expected(mesh: seq<FullVertex>, m: int): (v: FullVertex)
    requires |mesh| % 3 == 0 && 0 <= m < |mesh|
    ensures v.position == mesh[m].position && v.normal == mesh[m].normal && v.uv == mesh[m].uv
    ensures |Instances(mesh, |mesh|, mesh[m].position)| > 0
    ensures v.bitangent == BitangentSum(mesh, |mesh| / 3, mesh[m].position).Div(|Instances(mesh, |mesh|, mesh[m].position)| as real)
  {
    var p := mesh[m].position;
    assert m in Instances(mesh, |mesh|, p);
    var n := |Instances(mesh, |mesh|, p)| as real;
    var t := TangentSum(mesh, |mesh| / 3, p).Div(n);
    var b := BitangentSum(mesh, |mesh| / 3, p).Div(n);
    WithFrame(mesh[m], t, b)
  }

  // ---------------------------------------------------------------------------
  // The first pass: slots, instance lists and sums
  // ---------------------------------------------------------------------------

  /** The state of the first loop of ComputeTangentBasis: the known positions, the
      instance list, tangent sum and bitangent sum of every slot, and the warning flag
      and counter. */
  datatype Gathered = Gathered(known: seq<V3>, refs: seq<seq<int>>, tangents: seq<V3>, bitangents: seq<V3>,
                               warned: bool, warnings: int)

  /** The instance lists of the slots `known` cover the first n vertices. */
  predicate RefsUpTo(mesh: seq<FullVertex>, n: int, known: seq<V3>, refs: seq<seq<int>>)
    requires 0 <= n <= |mesh|
  {
    |refs| == |known| && forall s | 0 <= s < |known| :: refs[s] == Instances(mesh, n, known[s])
  }

  /** The sums of the slots `known` cover the first f faces. */
  predicate SumsUpTo(mesh: seq<FullVertex>, f: int, known: seq<V3>, tangents: seq<V3>, bitangents: seq<V3>)
    requires 0 <= f && 3 * f <= |mesh|
  {
    |tangents| == |known| && |bitangents| == |known| &&
    (forall s | 0 <= s < |known| :: tangents[s] == TangentSum(mesh, f, known[s])) &&
    (forall s | 0 <= s < |known| :: bitangents[s] == BitangentSum(mesh, f, known[s]))
  }

  /** `g` is the state after the first f faces. */
  predicate GatheredUpTo(mesh: seq<FullVertex>, f: int, g: Gathered)
    requires 0 <= f && 3 * f <= |mesh|
  {
    g.known == KnownPositions(mesh, 3 * f) &&
    RefsUpTo(mesh, 3 * f, g.known, g.refs) &&
    SumsUpTo(mesh, f, g.known, g.tangents, g.bitangents) &&
    g.warnings == DegenerateFaces(mesh, f) && (g.warned <==> g.warnings > 0)
  }

  /** Extends the per-slot entries up to `n` slots with the default value. */
  function Pad<T>(xs: seq<T>, n: int, fill: T): (r: seq<T>)
    ensures |r| == if n > |xs| then n else |xs|
    ensures forall s | 0 <= s < |xs| :: r[s] == xs[s]
    ensures forall s | |xs| <= s < |r| :: r[s] == fill
  {
    if n > |xs| then xs + seq(n - |xs|, _ => fill) else xs
  }

  /** `tangents[i0] += v; tangents[i1] += v; tangents[i2] += v;` */
  function Accumulate(sums: seq<V3>, i0: int, i1: int, i2: int, v: V3): (r: seq<V3>)
    requires 0 <= i0 < |sums| && 0 <= i1 < |sums| && 0 <= i2 < |sums|
    ensures |r| == |sums|
    ensures forall s | 0 <= s < |sums| :: r[s] == AddIf(AddIf(AddIf(sums[s], s == i0, v), s == i1, v), s == i2, v)
  {
    var a := sums[i0 := sums[i0].Add(v)];
    var b := a[i1 := a[i1].Add(v)];
    b[i2 := b[i2].Add(v)]
  }

  /** Adding vertex n to the known positions keeps them KnownPositions, and its index is
      the slot of its position. */
  method KnowCorner(mesh: seq<FullVertex>, n: int, known: seq<V3>) returns (next: seq<V3>, i: int)
    requires 0 <= n < |mesh| && known == KnownPositions(mesh, n)
    ensures next == KnownPositions(mesh, n + 1) && 0 <= i < |next| && next[i] == mesh[n].position
    ensures known <= next
  {
    next, i := AddToKnownVertices(known, mesh[n].position, false);
  }

  /** A slot that is new after some corners has no earlier instance and zero sums. */
  lemma {:induction false} NewSlotIsEmpty(mesh: seq<FullVertex>, f: int, p: V3)
    requires 0 <= f && 3 * f <= |mesh| && p !in KnownPositions(mesh, 3 * f)
    ensures Instances(mesh, 3 * f, p) == []
    ensures TangentSum(mesh, f, p) == Zero3 && BitangentSum(mesh, f, p) == Zero3
  {
    KnownPositionsFacts(mesh, 3 * f);
    if f > 0 {
      KnownPositionsFacts(mesh, 3 * (f - 1));
      assert !Occurs(mesh, 3 * (f - 1), p);
      NewSlotIsEmpty(mesh, f - 1, p);
      assert mesh[3 * f - 3].position != p && mesh[3 * f - 2].position != p && mesh[3 * f - 1].position != p;
      assert Instances(mesh, 3 * f - 2, p) == [];
      assert Instances(mesh, 3 * f - 1, p) == [];
    }
  }

  /** Padding the instance lists for the slots of the face's new positions keeps them
      covering the first n vertices. */
  lemma PaddedRefs(mesh: seq<FullVertex>, n: int, known: seq<V3>, refs: seq<seq<int>>, next: seq<V3>)
    requires 0 <= n && n % 3 == 0 && n <= |mesh|
    requires known == KnownPositions(mesh, n) && RefsUpTo(mesh, n, known, refs) && known <= next
    requires forall s | |known| <= s < |next| :: next[s] !in known
    ensures RefsUpTo(mesh, n, next, Pad(refs, |next|, []))
  {
    forall s | |known| <= s < |next|
      ensures Pad(refs, |next|, [])[s] == Instances(mesh, n, next[s])
    {
      NewSlotIsEmpty(mesh, n / 3, next[s]);
    }
  }

  lemma PaddedSums(mesh: seq<FullVertex>, f: int, known: seq<V3>, tangents: seq<V3>, bitangents: seq<V3>, next: seq<V3>)
    requires 0 <= f && 3 * f <= |mesh|
    requires known == KnownPositions(mesh, 3 * f) && SumsUpTo(mesh, f, known, tangents, bitangents) && known <= next
    requires forall s | |known| <= s < |next| :: next[s] !in known
    ensures SumsUpTo(mesh, f, next, Pad(tangents, |next|, Zero3), Pad(bitangents, |next|, Zero3))
  {
    forall s | |known| <= s < |next|
      ensures Pad(tangents, |next|, Zero3)[s] == TangentSum(mesh, f, next[s])
      ensures Pad(bitangents, |next|, Zero3)[s] == BitangentSum(mesh, f, next[s])
    {
      NewSlotIsEmpty(mesh, f, next[s]);
    }
  }

  /** `verticesRef[i].push_back(&mesh[n])`, where i is the slot of vertex n, extends the
      instance lists to the first n + 1 vertices. */
  lemma PushRef(mesh: seq<FullVertex>, n: int, known: seq<V3>, refs: seq<seq<int>>, i: int)
    requires 0 <= n < |mesh| && RefsUpTo(mesh, n, known, refs)
    requires forall a, b | 0 <= a < b < |known| :: known[a] != known[b]
    requires 0 <= i < |known| && known[i] == mesh[n].position
    ensures RefsUpTo(mesh, n + 1, known, refs[i := refs[i] + [n]])
  {
  }

  /** The slots after the face's three AddToKnownVertices calls: the new ones come last,
      and the known positions stay pairwise distinct. */
  lemma SlotsAfterFace(mesh: seq<FullVertex>, f: int, before: seq<V3>, after: seq<V3>)
    requires 0 <= f && 3 * f + 3 <= |mesh|
    requires before == KnownPositions(mesh, 3 * f) && after == KnownPositions(mesh, 3 * f + 3)
    ensures before <= after
    ensures forall s | |before| <= s < |after| :: after[s] !in before
    ensures forall a, b | 0 <= a < b < |after| :: after[a] != after[b]
  {
    KnownPositionsFacts(mesh, 3 * f + 3);
    assert KnownPositions(mesh, 3 * f) <= KnownPositions(mesh, 3 * f + 1) <= KnownPositions(mesh, 3 * f + 2);
  }

  /** The three slot indices of face f select the same slots as the three corner
      positions do. */
  lemma SumsStep(mesh: seq<FullVertex>, f: int, known: seq<V3>, tangents: seq<V3>, bitangents: seq<V3>,
                 i0: int, i1: int, i2: int)
    requires 0 <= f && 3 * f + 3 <= |mesh| && SumsUpTo(mesh, f, known, tangents, bitangents)
    requires forall a, b | 0 <= a < b < |known| :: known[a] != known[b]
    requires 0 <= i0 < |known| && known[i0] == mesh[3 * f].position
    requires 0 <= i1 < |known| && known[i1] == mesh[3 * f + 1].position
    requires 0 <= i2 < |known| && known[i2] == mesh[3 * f + 2].position
    ensures SumsUpTo(mesh, f + 1, known,
                     Accumulate(tangents, i0, i1, i2, FaceFrame(mesh, f).tangent),
                     Accumulate(bitangents, i0, i1, i2, FaceFrame(mesh, f).bitangent))
  {
  }

  /** The three AddToKnownVertices calls of face f. */
  method FaceSlots(mesh: seq<FullVertex>, f: int, before: seq<V3>) returns (known: seq<V3>, i0: int, i1: int, i2: int)
    requires 0 <= f && 3 * f + 3 <= |mesh| && before == KnownPositions(mesh, 3 * f)
    ensures known == KnownPositions(mesh, 3 * (f + 1)) && before <= known
    ensures forall s | |before| <= s < |known| :: known[s] !in before
    ensures forall a, b | 0 <= a < b < |known| :: known[a] != known[b]
    ensures 0 <= i0 < |known| && known[i0] == mesh[3 * f].position
    ensures 0 <= i1 < |known| && known[i1] == mesh[3 * f + 1].position
    ensures 0 <= i2 < |known| && known[i2] == mesh[3 * f + 2].position
  {
    known, i0 := KnowCorner(mesh, 3 * f, before);
    known, i1 := KnowCorner(mesh, 3 * f + 1, known);
    known, i2 := KnowCorner(mesh, 3 * f + 2, known);
    assert 3 * f + 2 + 1 == 3 * (f + 1);
    SlotsAfterFace(mesh, f, before, known);
  }

  /** `verticesRef[i0].push_back(&mesh[i + 0])` and the next two pushes. */
  method FaceRefs(mesh: seq<FullVertex>, f: int, before: seq<V3>, refs: seq<seq<int>>, known: seq<V3>,
                  i0: int, i1: int, i2: int)
    returns (next: seq<seq<int>>)
    requires 0 <= f && 3 * f + 3 <= |mesh| && before == KnownPositions(mesh, 3 * f) && RefsUpTo(mesh, 3 * f, before, refs)
    requires before <= known && forall s | |before| <= s < |known| :: known[s] !in before
    requires forall a, b | 0 <= a < b < |known| :: known[a] != known[b]
    requires 0 <= i0 < |known| && known[i0] == mesh[3 * f].position
    requires 0 <= i1 < |known| && known[i1] == mesh[3 * f + 1].position
    requires 0 <= i2 < |known| && known[i2] == mesh[3 * f + 2].position
    ensures RefsUpTo(mesh, 3 * (f + 1), known, next)
  {
    PaddedRefs(mesh, 3 * f, before, refs, known);
    next := Pad(refs, |known|, []);
    PushRef(mesh, 3 * f, known, next, i0);
    next := next[i0 := next[i0] + [3 * f]];
    PushRef(mesh, 3 * f + 1, known, next, i1);
    next := next[i1 := next[i1] + [3 * f + 1]];
    PushRef(mesh, 3 * f + 2, known, next, i2);
    next := next[i2 := next[i2] + [3 * f + 2]];
    assert 3 * f + 2 + 1 == 3 * (f + 1);
  }

  /** The face's frame added to the sums of its three slots. */
  method FaceSums(mesh: seq<FullVertex>, f: int, before: seq<V3>, tangents: seq<V3>, bitangents: seq<V3>,
                  known: seq<V3>, i0: int, i1: int, i2: int)
    returns (nextTangents: seq<V3>, nextBitangents: seq<V3>)
    requires 0 <= f && 3 * f + 3 <= |mesh| && before == KnownPositions(mesh, 3 * f)
    requires SumsUpTo(mesh, f, before, tangents, bitangents)
    requires before <= known && forall s | |before| <= s < |known| :: known[s] !in before
    requires forall a, b | 0 <= a < b < |known| :: known[a] != known[b]
    requires 0 <= i0 < |known| && known[i0] == mesh[3 * f].position
    requires 0 <= i1 < |known| && known[i1] == mesh[3 * f + 1].position
    requires 0 <= i2 < |known| && known[i2] == mesh[3 * f + 2].position
    ensures SumsUpTo(mesh, f + 1, known, nextTangents, nextBitangents)
  {
    var frame := FaceFrame(mesh, f);
    PaddedSums(mesh, f, before, tangents, bitangents, known);
    nextTangents, nextBitangents := Pad(tangents, |known|, Zero3), Pad(bitangents, |known|, Zero3);
    SumsStep(mesh, f, known, nextTangents, nextBitangents, i0, i1, i2);
    nextTangents := Accumulate(nextTangents, i0, i1, i2, frame.tangent);
    nextBitangents := Accumulate(nextBitangents, i0, i1, i2, frame.bitangent);
  }

  /** One iteration of the first loop of ComputeTangentBasis, over face f. A face with a
      zero UV determinant bumps the counter and raises the warning flag. */
  method FaceStep(mesh: seq<FullVertex>, f: int, g: Gathered) returns (next: Gathered)
    requires 0 <= f && 3 * f + 3 <= |mesh| && GatheredUpTo(mesh, f, g)
    ensures GatheredUpTo(mesh, f + 1, next)
  {
    var known, i0, i1, i2 := FaceSlots(mesh, f, g.known);
    var refs := FaceRefs(mesh, f, g.known, g.refs, known, i0, i1, i2);
    var warned, warnings := g.warned, g.warnings;
    if UVDeterminant(mesh, f) == 0.0 {
      warnings := warnings + 1;
      if !warned {
        warned := true;
      }
    }
    var tangents, bitangents := FaceSums(mesh, f, g.known, g.tangents, g.bitangents, known, i0, i1, i2);
    next := Gathered(known, refs, tangents, bitangents, warned, warnings);
  }

  // ---------------------------------------------------------------------------
  // The second pass: averaging and assignment
  // ---------------------------------------------------------------------------

  /** The vertices assigned so far: those in the first `done` slots, and the first k
      instances of the slot being processed. */
  predicate AssignedUpTo(mesh: seq<FullVertex>, known: seq<V3>, done: int, partial: seq<int>, out: seq<FullVertex>)
    requires |mesh| % 3 == 0 && 0 <= done <= |known|
  {
    |out| == |mesh| &&
    forall m | 0 <= m < |mesh| ::
      out[m] == if mesh[m].position in known[..done] || m in partial then Expected(mesh, m) else mesh[m]
  }

  /** The inner loop of the second pass: every listed instance gets the frame (t, b). */
  method AssignInstances(base: seq<FullVertex>, cur: seq<FullVertex>, refs: seq<int>, t: V3, b: V3)
    returns (out: seq<FullVertex>)
    requires |cur| == |base| && forall x | x in refs :: 0 <= x < |base| && cur[x] == base[x]
    ensures |out| == |cur|
    ensures forall m | 0 <= m < |cur| :: out[m] == if m in refs then WithFrame(base[m], t, b) else cur[m]
  {
    out := cur;
    for k := 0 to |refs|
      invariant |out| == |cur|
      invariant forall m | 0 <= m < |cur| :: out[m] == if m in refs[..k] then WithFrame(base[m], t, b) else cur[m]
    {
      var r := refs[k];
      assert r in refs;
      out := out[r := WithFrame(out[r], t, b)];
      assert refs[..k + 1] == refs[..k] + [r];
    }
    assert refs[..|refs|] == refs;
  }

  /** Expected(mesh, m) once the averages of m's position are known. */
  lemma ExpectedIs(mesh: seq<FullVertex>, m: int, t: V3, b: V3)
    requires |mesh| % 3 == 0 && 0 <= m < |mesh|
    requires |Instances(mesh, |mesh|, mesh[m].position)| > 0
    requires t == TangentSum(mesh, |mesh| / 3, mesh[m].position).Div(|Instances(mesh, |mesh|, mesh[m].position)| as real)
    requires b == BitangentSum(mesh, |mesh| / 3, mesh[m].position).Div(|Instances(mesh, |mesh|, mesh[m].position)| as real)
    ensures Expected(mesh, m) == WithFrame(mesh[m], t, b)
  {
  }

  /** Divides the sums of slot i by its number of instances and gives every instance the
      result. */
  method AssignSlot(mesh: seq<FullVertex>, g: Gathered, i: int, cur: seq<FullVertex>) returns (out: seq<FullVertex>)
    requires |mesh| % 3 == 0 && GatheredUpTo(mesh, |mesh| / 3, g) && 0 <= i < |g.known|
    requires AssignedUpTo(mesh, g.known, i, [], cur)
    ensures AssignedUpTo(mesh, g.known, i + 1, [], out)
  {
    var p := g.known[i];
    assert 3 * (|mesh| / 3) == |mesh|;
    var refs := g.refs[i];
    assert refs == Instances(mesh, |mesh|, p);
    KnownPositionsFacts(mesh, |mesh|);
    assert Occurs(mesh, |mesh|, p);
    var m0 :| 0 <= m0 < |mesh| && mesh[m0].position == p;
    assert |refs| > 0 by { assert m0 in refs; }
    var t := g.tangents[i].Div(|refs| as real);
    var b := g.bitangents[i].Div(|refs| as real);
    forall x | x in refs
      ensures 0 <= x < |mesh| && cur[x] == mesh[x]
    {
      assert mesh[x].position !in g.known[..i];
    }
    out := AssignInstances(mesh, cur, refs, t, b);
    var done := g.known[..i];
    PrefixStep(g.known, i);
    assert p !in done;
    SlotDone(mesh, done, p, refs, cur, out, t, b);
  }

  lemma PrefixStep<T>(xs: seq<T>, i: int)
    requires 0 <= i < |xs|
    ensures xs[..i + 1] == xs[..i] + [xs[i]]
  {
  }

  /** After the instances of position p get their frame, the vertices at p are done too. */
  lemma SlotDone(mesh: seq<FullVertex>, done: seq<V3>, p: V3, refs: seq<int>, cur: seq<FullVertex>,
                 out: seq<FullVertex>, t: V3, b: V3)
    requires |mesh| % 3 == 0 && |cur| == |mesh| && |out| == |mesh| && p !in done
    requires forall m | 0 <= m < |mesh| :: cur[m] == if mesh[m].position in done then Expected(mesh, m) else mesh[m]
    requires forall m | 0 <= m < |mesh| :: out[m] == if m in refs then WithFrame(mesh[m], t, b) else cur[m]
    requires refs == Instances(mesh, |mesh|, p) && |refs| > 0
    requires t == TangentSum(mesh, |mesh| / 3, p).Div(|refs| as real)
    requires b == BitangentSum(mesh, |mesh| / 3, p).Div(|refs| as real)
    ensures forall m | 0 <= m < |mesh| :: out[m] == if mesh[m].position in done + [p] then Expected(mesh, m) else mesh[m]
  {
    forall m | 0 <= m < |mesh| && mesh[m].position == p
      ensures out[m] == Expected(mesh, m)
    {
      ExpectedIs(mesh, m, t, b);
    }
  }

  /** The second loop of ComputeTangentBasis, over every slot. */
  method AssignFrames(mesh: seq<FullVertex>, g: Gathered) returns (out: seq<FullVertex>)
    requires |mesh| % 3 == 0 && GatheredUpTo(mesh, |mesh| / 3, g)
    ensures |out| == |mesh| && forall m | 0 <= m < |mesh| :: out[m] == Expected(mesh, m)
  {
    out := mesh;
    for i := 0 to |g.known|
      invariant AssignedUpTo(mesh, g.known, i, [], out)
    {
      out := AssignSlot(mesh, g, i, out);
    }
    assert 3 * (|mesh| / 3) == |mesh|;
    KnownPositionsFacts(mesh, |mesh|);
    assert g.known[..|g.known|] == g.known;
    forall m | 0 <= m < |mesh|
      ensures out[m] == Expected(mesh, m)
    {
      assert Occurs(mesh, |mesh|, mesh[m].position);
    }
  }

  /** Mesh::ComputeTangentBasis: every vertex gets the tangent frame of Expected, and the
      degenerate-face counter ends at the number of faces whose UV determinant is 0. The
      warning flag is raised exactly when that number is positive, so the warning is
      printed once. */
  method ComputeTangentBasis(mesh: seq<FullVertex>) returns (out: seq<FullVertex>, degenerate: int, warned: bool)
    requires |mesh| % 3 == 0
    ensures |out| == |mesh| && forall m | 0 <= m < |mesh| :: out[m] == Expected(mesh, m)
    ensures degenerate == DegenerateFaces(mesh, |mesh| / 3) && (warned <==> degenerate > 0)
  {
    var g := Gathered([], [], [], [], false, 0);
    for f := 0 to |mesh| / 3
      invariant GatheredUpTo(mesh, f, g)
    {
      g := FaceStep(mesh, f, g);
    }
    out := AssignFrames(mesh, g);
    degenerate, warned := g.warnings, g.warned;
  }

  // ---------------------------------------------------------------------------
  // Properties
  // ---------------------------------------------------------------------------

  /** Vertices at the same position get the same bitangent, and tangents that are equal
      or opposite: the sign rule is the only thing that tells them apart. */
  lemma SharedPositionSharesFrame(mesh: seq<FullVertex>, a: int, b: int)
    requires |mesh| % 3 == 0 && 0 <= a < |mesh| && 0 <= b < |mesh| && mesh[a].position == mesh[b].position
    ensures Expected(mesh, a).bitangent == Expected(mesh, b).bitangent
    ensures Expected(mesh, a).tangent == Expected(mesh, b).tangent ||
            Expected(mesh, a).tangent == Expected(mesh, b).tangent.Times(-1.0)
  {
    var p := mesh[a].position;
    var n := |Instances(mesh, |mesh|, p)| as real;
    var t := TangentSum(mesh, |mesh| / 3, p).Div(n);
    var bt := BitangentSum(mesh, |mesh| / 3, p).Div(n);
    ExpectedIs(mesh, a, t, bt);
    ExpectedIs(mesh, b, t, bt);
    assert t.Times(-1.0).Times(-1.0) == t;
  }

  /** The tangent is negated exactly when the triple product is non-zero, so a non-zero
      tangent keeps its value only in the degenerate case Dot(Cross(N, T), B) == 0. */
  lemma SignRuleFlipsUnlessFlat(n: V3, t: V3, b: V3)
    requires t != Zero3
    ensures SignRule(n, t, b) == t <==> Dot(Cross(n, t), b) == 0.0
  {
    if Dot(Cross(n, t), b) != 0.0 {
      assert SignRule(n, t, b) == t.Times(-1.0);
    }
  }

  /** For a face with a non-zero UV determinant, the tangent T and bitangent B it
      contributes are the solution of the UV system: each edge vector equals the tangent
      times the edge's U delta plus the bitangent times its V delta. */
  lemma FaceFrameSolvesUVSystem(mesh: seq<FullVertex>, f: int)
    requires 0 <= f && 3 * f + 3 <= |mesh| && UVDeterminant(mesh, f) != 0.0
    ensures var d1, d2 := mesh[3 * f + 1].uv.Sub(mesh[3 * f].uv), mesh[3 * f + 2].uv.Sub(mesh[3 * f].uv);
            var fr := FaceFrame(mesh, f);
            mesh[3 * f + 1].position.Sub(mesh[3 * f].position) == fr.tangent.Times(d1.x).Add(fr.bitangent.Times(d1.y)) &&
            mesh[3 * f + 2].position.Sub(mesh[3 * f].position) == fr.tangent.Times(d2.x).Add(fr.bitangent.Times(d2.y))
  {
    var d1, d2 := mesh[3 * f + 1].uv.Sub(mesh[3 * f].uv), mesh[3 * f + 2].uv.Sub(mesh[3 * f].uv);
    var e1 := mesh[3 * f + 1].position.Sub(mesh[3 * f].position);
    var e2 := mesh[3 * f + 2].position.Sub(mesh[3 * f].position);
    var r := 1.0 / UVDeterminant(mesh, f);
    assert FaceFrame(mesh, f) == Frame(e1.Times(d2.y).Sub(e2.Times(d1.y)).Times(r), e2.Times(d1.x).Sub(e1.Times(d2.x)).Times(r));
    SolvesVector(e1, e2, d1, d2, r);
  }

  /** Cramer's rule for the 2x2 system, one vector at a time. */
  lemma SolvesVector(e1: V3, e2: V3, d1: V2, d2: V2, r: real)
    requires d1.x * d2.y - d1.y * d2.x != 0.0 && r == 1.0 / (d1.x * d2.y - d1.y * d2.x)
    ensures var t, b := e1.Times(d2.y).Sub(e2.Times(d1.y)).Times(r), e2.Times(d1.x).Sub(e1.Times(d2.x)).Times(r);
            e1 == t.Times(d1.x).Add(b.Times(d1.y)) && e2 == t.Times(d2.x).Add(b.Times(d2.y))
  {
    SolvesX(e1, e2, d1, d2, r);
    SolvesY(e1, e2, d1, d2, r);
    SolvesZ(e1, e2, d1, d2, r);
    Recombine(e1, e2, d1, d2, e1.Times(d2.y).Sub(e2.Times(d1.y)).Times(r), e2.Times(d1.x).Sub(e1.Times(d2.x)).Times(r));
  }

  /** The x component of SolvesVector. */
  lemma SolvesX(e1: V3, e2: V3, d1: V2, d2: V2, r: real)
    requires d1.x * d2.y - d1.y * d2.x != 0.0 && r == 1.0 / (d1.x * d2.y - d1.y * d2.x)
    ensures var t, b := e1.Times(d2.y).Sub(e2.Times(d1.y)).Times(r), e2.Times(d1.x).Sub(e1.Times(d2.x)).Times(r);
            t.x * d1.x + b.x * d1.y == e1.x && t.x * d2.x + b.x * d2.y == e2.x
  {
    SolvesScalar(e1.x, e2.x, d1.x, d1.y, d2.x, d2.y, r, (e1.x * d2.y - e2.x * d1.y) * r, (e2.x * d1.x - e1.x * d2.x) * r);
  }

  /** The y component of SolvesVector. */
  lemma SolvesY(e1: V3, e2: V3, d1: V2, d2: V2, r: real)
    requires d1.x * d2.y - d1.y * d2.x != 0.0 && r == 1.0 / (d1.x * d2.y - d1.y * d2.x)
    ensures var t, b := e1.Times(d2.y).Sub(e2.Times(d1.y)).Times(r), e2.Times(d1.x).Sub(e1.Times(d2.x)).Times(r);
            t.y * d1.x + b.y * d1.y == e1.y && t.y * d2.x + b.y * d2.y == e2.y
  {
    SolvesScalar(e1.y, e2.y, d1.x, d1.y, d2.x, d2.y, r, (e1.y * d2.y - e2.y * d1.y) * r, (e2.y * d1.x - e1.y * d2.x) * r);
  }

  /** The z component of SolvesVector. */
  lemma SolvesZ(e1: V3, e2: V3, d1: V2, d2: V2, r: real)
    requires d1.x * d2.y - d1.y * d2.x != 0.0 && r == 1.0 / (d1.x * d2.y - d1.y * d2.x)
    ensures var t, b := e1.Times(d2.y).Sub(e2.Times(d1.y)).Times(r), e2.Times(d1.x).Sub(e1.Times(d2.x)).Times(r);
            t.z * d1.x + b.z * d1.y == e1.z && t.z * d2.x + b.z * d2.y == e2.z
  {
    SolvesScalar(e1.z, e2.z, d1.x, d1.y, d2.x, d2.y, r, (e1.z * d2.y - e2.z * d1.y) * r, (e2.z * d1.x - e1.z * d2.x) * r);
  }

  /** Three component equations make two vector equations. */
  lemma Recombine(e1: V3, e2: V3, d1: V2, d2: V2, t: V3, b: V3)
    requires t.x * d1.x + b.x * d1.y == e1.x && t.x * d2.x + b.x * d2.y == e2.x
    requires t.y * d1.x + b.y * d1.y == e1.y && t.y * d2.x + b.y * d2.y == e2.y
    requires t.z * d1.x + b.z * d1.y == e1.z && t.z * d2.x + b.z * d2.y == e2.z
    ensures e1 == t.Times(d1.x).Add(b.Times(d1.y)) && e2 == t.Times(d2.x).Add(b.Times(d2.y))
  {
  }

  /** One component of SolvesVector. */
  lemma SolvesScalar(e1: real, e2: real, u1: real, v1: real, u2: real, v2: real, r: real, t: real, b: real)
    requires u1 * v2 - v1 * u2 != 0.0 && r == 1.0 / (u1 * v2 - v1 * u2)
    requires t == (e1 * v2 - e2 * v1) * r && b == (e2 * u1 - e1 * u2) * r
    ensures t * u1 + b * v1 == e1 && t * u2 + b * v2 == e2
  {
    var d := u1 * v2 - v1 * u2;
    assert r * d == 1.0;
    calc {
      t * u1 + b * v1;
      r * (e1 * (u1 * v2 - v1 * u2));
      e1 * (r * d);
    }
    calc {
      t * u2 + b * v2;
      r * (e2 * (u1 * v2 - v1 * u2));
      e2 * (r * d);
    }
  }

  /** When every face has a zero UV determinant, no division happens, every sum stays
      zero and the counter counts every face. */
  lemma {:induction false} AllDegenerate(mesh: seq<FullVertex>, f: int, p: V3)
    requires 0 <= f && 3 * f <= |mesh|
    requires forall g | 0 <= g < f :: UVDeterminant(mesh, g) == 0.0
    ensures TangentSum(mesh, f, p) == Zero3 && BitangentSum(mesh, f, p) == Zero3
    ensures DegenerateFaces(mesh, f) == f
  {
    if f > 0 {
      AllDegenerate(mesh, f - 1, p);
      assert FaceFrame(mesh, f - 1) == Frame(Zero3, Zero3);
    }
  }

  /** Instances of a position in a mesh whose faces all have a zero UV determinant get
      zero frames, whatever the sign rule does. */
  lemma DegenerateMeshGetsZeroFrames(mesh: seq<FullVertex>, m: int)
    requires |mesh| % 3 == 0 && 0 <= m < |mesh|
    requires forall g | 0 <= g < |mesh| / 3 :: UVDeterminant(mesh, g) == 0.0
    ensures Expected(mesh, m).tangent == Zero3 && Expected(mesh, m).bitangent == Zero3
  {
    var p := mesh[m].position;
    AllDegenerate(mesh, |mesh| / 3, p);
    var n := |Instances(mesh, |mesh|, p)| as real;
    ExpectedIs(mesh, m, TangentSum(mesh, |mesh| / 3, p).Div(n), BitangentSum(mesh, |mesh| / 3, p).Div(n));
  }

  // ---------------------------------------------------------------------------
  // The sign rule: as written and as intended
  // ---------------------------------------------------------------------------

  /** The rule as written negates the tangent of every right-handed frame (positive
      triple product), and the frame it then produces is left-handed. */
  lemma RightHandedFrameFlipped(n: V3, t: V3, b: V3)
    requires Dot(Cross(n, t), b) > 0.0
    ensures SignRule(n, t, b) == t.Times(-1.0)
    ensures Dot(Cross(n, SignRule(n, t, b)), b) < 0.0
  {
    NegatedTripleProduct(n, t, b);
  }

  /** Right-handed frames exist: normal (0,0,1), tangent (1,0,0) and bitangent (0,1,0)
      have triple product 1, so RightHandedFrameFlipped applies to them. */
  lemma CanonicalFrameIsRightHanded()
    ensures Dot(Cross(V3(0.0, 0.0, 1.0), V3(1.0, 0.0, 0.0)), V3(0.0, 1.0, 0.0)) == 1.0
  {
    assert Cross(V3(0.0, 0.0, 1.0), V3(1.0, 0.0, 0.0)) == V3(0.0, 1.0, 0.0);
  }

  /** The handedness correction the rule evidently intends: negate the tangent only when
      the frame is left-handed, that is when the triple product is negative. */
  function OrientedTangent(n: V3, t: V3, b: V3): (r: V3)
    ensures Dot(Cross(n, r), b) >= 0.0
    ensures r == t || r == t.Times(-1.0)
    ensures Dot(Cross(n, t), b) >= 0.0 ==> r == t
  {
    if Dot(Cross(n, t), b) < 0.0 then (NegatedTripleProduct(n, t, b); t.Times(-1.0)) else t
  }

  /** Negating the tangent negates the triple product. */
  lemma NegatedTripleProduct(n: V3, t: V3, b: V3)
    ensures Dot(Cross(n, t.Times(-1.0)), b) == -Dot(Cross(n, t), b)
  {
  }
}
