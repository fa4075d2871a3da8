/** The float routines of maths.h whose value cannot be stated exactly: square roots,
    sines and cosines, and arc tangents. They are not given bodies here: the caller
    passes the square root as a `SqrtFn` and the trigonometry as a `Trig` record. The
    contracts that use them hold for any square root that is 0 at 0 and positive on
    positive arguments, and for any trigonometry, except where a lemma asks for exact
    right angles (Mesh.ExactRightAngles). */
module FloatLib {
  import opened Wrappers
  import opened Maths

  /** A square root as the float library computes it, known only to be positive on
      positive arguments and exact at zero. */
  type SqrtFn = f: real -> real | f(0.0) == 0.0 && forall x :: 0.0 < x ==> 0.0 < f(x) witness (x: real) => x

  /** The trigonometric routines left abstract; see the module comment. `atan2` stands
      for Math::Atan2. */
  datatype Trig = Trig(
    cos: real -> real,
    sin: real -> real,
    atan2: (real, real) -> real)

  /** The factor Vec3::Normalize multiplies by: 1/sqrt(|v|^2), or 0 when the squared
      length is 0. It is never negative. */
  function InverseLength(v: V3, sqrt: SqrtFn): (k: real)
    ensures k >= 0.0
    ensures SquaredLength(v) != 0.0 ==> k > 0.0
  {
    SquaredLengthNonNegative(v);
    var sq := SquaredLength(v);
    if sq != 0.0 then 1.0 / sqrt(sq) else 0.0
  }

  /** Vec3::Normalize guards a zero squared length: such a vector becomes the zero
      vector instead of being divided by zero. Every other vector keeps its direction:
      it is scaled by a positive factor. */
  function Normalize(v: V3, sqrt: SqrtFn): (r: V3)
    ensures SquaredLength(v) == 0.0 ==> r == Zero3
    ensures SquaredLength(v) != 0.0 ==> exists k: real :: k > 0.0 && r == v.Times(k)
  {
    v.Times(InverseLength(v, sqrt))
  }

  /** Vec2::SquaredLength. */
  function SquaredLength2(v: V2): real {
    v.x * v.x + v.y * v.y
  }

  /** v2 * float. */
  function Scaled2(v: V2, k: real): V2 {
    V2(v.x * k, v.y * k)
  }

  /** Vec2::Normalize multiplies by 1 / Length(V) with no guard. For the zero vector
      that divides by zero (a NaN in float), which is the `None` result here. */
  function Normalize2(v: V2, sqrt: SqrtFn): (r: Option<V2>)
    ensures r.None? <==> SquaredLength2(v) == 0.0
    ensures r.Some? ==> exists k: real :: k > 0.0 && r.value == Scaled2(v, k)
  {
    SquareSign(v.x);
    SquareSign(v.y);
    var len := sqrt(SquaredLength2(v));
    if len == 0.0 then None else
      var k := 1.0 / len;
      assert k > 0.0;
      Some(Scaled2(v, k))
  }

  /** Only the 3-component normalisation guards the zero vector: Vec3 returns zero
      where Vec2 divides by zero. */
  lemma OnlyVec3NormalizeGuardsZero(sqrt: SqrtFn)
    ensures Normalize(Zero3, sqrt) == Zero3
    ensures Normalize2(Zero2, sqrt).None?
  {
    ZeroHasNoLength();
  }

  lemma ZeroHasNoLength()
    ensures SquaredLength(Zero3) == 0.0 && SquaredLength2(Zero2) == 0.0
  {
  }

  /** Mat4::RotateX(Angle) and RotateY(Angle): the angle goes through the float cosine
      and sine. */
  function RotateXAngle(trig: Trig, a: real): M4 { RotateX(trig.cos(a), trig.sin(a)) }
  function RotateYAngle(trig: Trig, a: real): M4 { RotateY(trig.cos(a), trig.sin(a)) }
}
