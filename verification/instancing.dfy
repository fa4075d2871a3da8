/** The instancing demo (demo_instancing.cpp): the lattice of instance offsets its
    constructor uploads and the single instanced draw that consumes them. */
module Instancing {
  import opened Maths

  /** INSTANCE_RANGE and INSTANCES_COUNT. */
  const InstanceRange := 5
  const InstancesCount := InstanceRange * InstanceRange * InstanceRange

  /** `float offsets = 5.f`: the spacing of the lattice. */
  const Spacing: real := 5.0

  /** The slot of lattice point (x, y, z) in the position array: z varies fastest. */
  function InstanceIndex(x: int, y: int, z: int): int {
    InstanceRange * InstanceRange * x + InstanceRange * y + z
  }

  /** The lattice point stored in slot k, read back digit by digit in base 5. */
  function LatticePoint(k: int): V3 {
    V3((k / 25) as real * Spacing, ((k / 5) % 5) as real * Spacing, (k % 5) as real * Spacing)
  }

  /** Indices are base-5 numerals with digits x, y, z: each slot below 125 belongs to
      exactly one point of the 5 x 5 x 5 grid, and the point is recovered from it. */
  lemma InstanceIndexDecodes(x: int, y: int, z: int)
    requires 0 <= x < InstanceRange && 0 <= y < InstanceRange && 0 <= z < InstanceRange
    ensures 0 <= InstanceIndex(x, y, z) < InstancesCount
    ensures InstanceIndex(x, y, z) / 25 == x && (InstanceIndex(x, y, z) / 5) % 5 == y && InstanceIndex(x, y, z) % 5 == z
    ensures LatticePoint(InstanceIndex(x, y, z)) == V3(x as real * Spacing, y as real * Spacing, z as real * Spacing)
  {
    var k := InstanceIndex(x, y, z);
    assert k == 25 * x + 5 * y + z;
    assert k == 5 * (5 * x + y) + z;
    assert k % 5 == z && k / 5 == 5 * x + y;
    assert (5 * x + y) % 5 == y && (5 * x + y) / 5 == x;
    assert k / 25 == (k / 5) / 5;
  }

  /** Every slot below 125 is the index of the point it holds. */
  lemma InstanceIndexCovers(k: int)
    requires 0 <= k < InstancesCount
    ensures 0 <= k / 25 < 5 && 0 <= (k / 5) % 5 < 5 && 0 <= k % 5 < 5
    ensures InstanceIndex(k / 25, (k / 5) % 5, k % 5) == k
  {
    assert k == 5 * (k / 5) + k % 5;
    assert k / 5 == 5 * ((k / 5) / 5) + (k / 5) % 5;
    assert k / 25 == (k / 5) / 5;
  }

  /** The constructor's triple loop over x, y, z with a running slot counter i: slot
      i receives (5x, 5y, 5z). */
  method InstancePositions() returns (position: seq<V3>)
    ensures |position| == InstancesCount
    ensures forall x, y, z | 0 <= x < InstanceRange && 0 <= y < InstanceRange && 0 <= z < InstanceRange ::
      position[InstanceIndex(x, y, z)] == V3(x as real * Spacing, y as real * Spacing, z as real * Spacing)
  {
    position := seq(InstancesCount, _ => Zero3);
    var i := 0;
    var x := 0;
    while x < InstanceRange
      invariant 0 <= x <= InstanceRange && i == InstanceIndex(x, 0, 0) && |position| == InstancesCount
      invariant forall k | 0 <= k < i :: position[k] == LatticePoint(k)
    {
      var y := 0;
      while y < InstanceRange
        invariant 0 <= y <= InstanceRange && i == InstanceIndex(x, y, 0) && |position| == InstancesCount
        invariant forall k | 0 <= k < i :: position[k] == LatticePoint(k)
      {
        var z := 0;
        while z < InstanceRange
          invariant 0 <= z <= InstanceRange && i == InstanceIndex(x, y, z) && |position| == InstancesCount
          invariant forall k | 0 <= k < i :: position[k] == LatticePoint(k)
        {
          InstanceIndexDecodes(x, y, z);
          position := position[i := V3(x as real * Spacing, y as real * Spacing, z as real * Spacing)];
          i := i + 1;
          z := z + 1;
        }
        y := y + 1;
      }
      x := x + 1;
    }
    forall x, y, z | 0 <= x < InstanceRange && 0 <= y < InstanceRange && 0 <= z < InstanceRange
      ensures position[InstanceIndex(x, y, z)] == V3(x as real * Spacing, y as real * Spacing, z as real * Spacing)
    {
      InstanceIndexDecodes(x, y, z);
    }
  }

  /** The lattice coordinates: every coordinate of every stored offset is one of 0, 5,
      10, 15 and 20. */
  lemma OffsetsOnTheLattice(k: int)
    requires 0 <= k < InstancesCount
    ensures LatticePoint(k).x in {0.0, 5.0, 10.0, 15.0, 20.0}
    ensures LatticePoint(k).y in {0.0, 5.0, 10.0, 15.0, 20.0}
    ensures LatticePoint(k).z in {0.0, 5.0, 10.0, 15.0, 20.0}
  {
    InstanceIndexCovers(k);
    var x, y, z := k / 25, (k / 5) % 5, k % 5;
    assert x == 0 || x == 1 || x == 2 || x == 3 || x == 4;
    assert y == 0 || y == 1 || y == 2 || y == 3 || y == 4;
    assert z == 0 || z == 1 || z == 2 || z == 3 || z == 4;
  }

  /** No two instances share an offset. */
  lemma OffsetsAreDistinct(k: int, m: int)
    requires 0 <= k < InstancesCount && 0 <= m < InstancesCount && k != m
    ensures LatticePoint(k) != LatticePoint(m)
  {
    InstanceIndexCovers(k);
    InstanceIndexCovers(m);
  }

  /** glDrawArraysInstanced(mode, first, count, instances). */
  datatype InstancedDraw = InstancedDraw(first: int, count: int, instances: int)

  /** The render call: the whole mesh, once per instance. */
  function DrawCall(meshVertexCount: int): InstancedDraw {
    InstancedDraw(0, meshVertexCount, InstancesCount)
  }

  /** The instance attribute advances once per instance (divisor 1): instance j reads
      element j of the offset buffer. */
  const OffsetDivisor := 1

  /** The offset that instance j of a draw reads from the buffer. */
  function InstanceOffset(buffer: seq<V3>, j: int): V3
    requires 0 <= j && j / OffsetDivisor < |buffer|
  {
    buffer[j / OffsetDivisor]
  }

  /** The draw reads exactly the offsets InstancePositions uploads: its instance count equals the
      buffer length, so every instance's read is in range, instance j is drawn at
      lattice point j, each grid point is drawn by exactly one instance, and the draw
      runs the vertex shader count * 125 times. */
  lemma DrawCoversLattice(buffer: seq<V3>, meshVertexCount: nat, x: int, y: int, z: int)
    requires |buffer| == InstancesCount
    requires forall x, y, z | 0 <= x < InstanceRange && 0 <= y < InstanceRange && 0 <= z < InstanceRange ::
      buffer[InstanceIndex(x, y, z)] == V3(x as real * Spacing, y as real * Spacing, z as real * Spacing)
    requires 0 <= x < InstanceRange && 0 <= y < InstanceRange && 0 <= z < InstanceRange
    ensures DrawCall(meshVertexCount).instances == |buffer| == 125
    ensures DrawCall(meshVertexCount).count * DrawCall(meshVertexCount).instances == 125 * meshVertexCount
    ensures var j := InstanceIndex(x, y, z);
            0 <= j < DrawCall(meshVertexCount).instances &&
            InstanceOffset(buffer, j) == V3(x as real * Spacing, y as real * Spacing, z as real * Spacing)
    ensures forall j | 0 <= j < DrawCall(meshVertexCount).instances ::
      InstanceOffset(buffer, j) == V3(x as real * Spacing, y as real * Spacing, z as real * Spacing) ==> j == InstanceIndex(x, y, z)
  {
    InstanceIndexDecodes(x, y, z);
    forall j | 0 <= j < InstancesCount && InstanceOffset(buffer, j) == V3(x as real * Spacing, y as real * Spacing, z as real * Spacing)
      ensures j == InstanceIndex(x, y, z)
    {
      if j != InstanceIndex(x, y, z) {
        InstanceIndexCovers(j);
        InstanceIndexDecodes(j / 25, (j / 5) % 5, j % 5);
        OffsetsAreDistinct(j, InstanceIndex(x, y, z));
      }
    }
  }
}
