/** The exact part of maths.h: the integer helpers of namespace Math, vectors, and the
    column-major 4x4 / 3x3 matrices, with float values taken as reals. The routines
    that need square roots, sines or an inverse are in module FloatLib. */
module Maths {

  // ---------------------------------------------------------------------------
  // Integer helpers (Math::Min, Max, Clamp, Mod, TrueMod on int)
  // ---------------------------------------------------------------------------

  function Abs(a: int): nat {
    if a < 0 then -a else a
  }

  function Min(a: int, b: int): (r: int)
    ensures r <= a && r <= b
    ensures r == a || r == b
  {
    if a < b then a else b
  }

  function Max(a: int, b: int): (r: int)
    ensures r >= a && r >= b
    ensures r == a || r == b
  {
    if a > b then a else b
  }

  /** Math::Clamp is Min(Max(x, lo), hi): the upper bound wins when the bounds cross. */
  function Clamp(x: int, lo: int, hi: int): (r: int)
    ensures lo <= hi ==> lo <= r <= hi
    ensures lo <= x <= hi ==> r == x
    ensures x < lo <= hi ==> r == lo
    ensures lo <= hi < x ==> r == hi
    ensures lo > hi ==> r == hi
  {
    Min(Max(x, lo), hi)
  }

  lemma ClampIdempotent(x: int, lo: int, hi: int)
    ensures Clamp(Clamp(x, lo, hi), lo, hi) == Clamp(x, lo, hi)
  {
  }

  /** C++ `/` on int: the quotient is truncated toward zero, so its magnitude is
      |a| / |b| and its sign is the product of the operands' signs. */
  function TruncDiv(a: int, b: int): (q: int)
    requires b != 0
  {
    if (a < 0) == (b < 0) then Abs(a) / Abs(b) else -(Abs(a) / Abs(b))
  }

  /** Math::Mod(int, int) is C++ `%`: the remainder has magnitude |v| mod |base| and
      takes the sign of the dividend. */
  function Mod(v: int, base: int): (r: int)
    requires base != 0
    ensures Abs(r) < Abs(base)
    ensures r == 0 || ((r < 0) <==> (v < 0))
    ensures v == base * TruncDiv(v, base) + r
  {
    DivisionIdentity(v, base);
    if v < 0 then -(Abs(v) % Abs(base)) else Abs(v) % Abs(base)
  }

  lemma DivisionIdentity(v: int, base: int)
    requires base != 0
    ensures v == base * TruncDiv(v, base) + (if v < 0 then -(Abs(v) % Abs(base)) else Abs(v) % Abs(base))
  {
    var av, ab: int := Abs(v), Abs(base);
    var q, r: int := av / ab, av % ab;
    assert av == ab * q + r;
    if v < 0 && base < 0 {
      assert base * q == -(ab * q);
    } else if v < 0 {
      assert base * (-q) == -(ab * q);
    } else if base < 0 {
      assert base * (-q) == ab * q;
    }
  }

  /** The C++ remainder differs from Dafny's Euclidean `%` on negative dividends. */
  lemma ModIsNotEuclidean()
    ensures Mod(-7, 3) == -1 && -7 % 3 == 2
    ensures Mod(7, -3) == 1 && TruncDiv(-7, 2) == -3
  {
  }

  /** Math::TrueMod(int, int) is (Value % Base + Base) % Base with C++ `%`; for a
      positive base it is the Euclidean remainder: in [0, Base) and congruent to Value. */
  function TrueMod(v: int, base: int): (r: int)
    requires base != 0
    ensures base > 0 ==> 0 <= r < base && r == v % base
  {
    var m := Mod(v, base);
    var r := Mod(m + base, base);
    if base > 0 then
      TrueModPositive(v, base);
      r
    else
      r
  }

  lemma TrueModPositive(v: int, base: int)
    requires base > 0
    ensures Mod(Mod(v, base) + base, base) == v % base
  {
    var m := Mod(v, base);
    var q := TruncDiv(v, base);
    assert v == base * q + m;
    assert 0 < m + base < 2 * base;
    var r := Mod(m + base, base);
    var q2 := TruncDiv(m + base, base);
    assert m + base == base * q2 + r;
    assert 0 <= r < base;
    assert v == base * (q + q2 - 1) + r;
    ModUnique(v, base, q + q2 - 1, r);
  }

  /** The Euclidean remainder is determined by any decomposition v == b*q + r, 0 <= r < b. */
  lemma ModUnique(v: int, b: int, q: int, r: int)
    requires b > 0 && 0 <= r < b && v == b * q + r
    ensures v / b == q && v % b == r
  {
    var q0, r0 := v / b, v % b;
    assert b * (q - q0) == r0 - r;
    SmallMultipleIsZero(b, q - q0);
  }

  lemma SmallMultipleIsZero(b: int, d: int)
    requires b > 0 && -b < b * d < b
    ensures d == 0
  {
    if d >= 1 {
      MulAtLeast(b, d);
    } else if d <= -1 {
      assert b * d == -(b * -d);
      MulAtLeast(b, -d);
    }
  }

  lemma {:induction false} MulAtLeast(b: int, d: int)
    requires b > 0 && d >= 1
    ensures b * d >= b
    decreases d
  {
    if d > 1 {
      MulAtLeast(b, d - 1);
      assert b * d == b * (d - 1) + b;
    }
  }

  // ---------------------------------------------------------------------------
  // Vectors (v2, v3, v4 and namespaces Vec2, Vec3, Vec4)
  // ---------------------------------------------------------------------------

  datatype V2 = V2(x: real, y: real) {
    function Add(o: V2): V2 { V2(x + o.x, y + o.y) }
    function Sub(o: V2): V2 { V2(x - o.x, y - o.y) }
  }

  datatype V3 = V3(x: real, y: real, z: real) {
    function Add(o: V3): V3 { V3(x + o.x, y + o.y, z + o.z) }
    function Sub(o: V3): V3 { V3(x - o.x, y - o.y, z - o.z) }
    /** Component-wise product (v3 * v3). */
    function Mul(o: V3): V3 { V3(x * o.x, y * o.y, z * o.z) }
    /** Product by a scalar (v3 * float). */
    function Times(k: real): V3 { V3(x * k, y * k, z * k) }
    function Div(k: real): V3 requires k != 0.0 { V3(x / k, y / k, z / k) }
  }

  const Zero2 := V2(0.0, 0.0)
  const Zero3 := V3(0.0, 0.0, 0.0)

  function Dot(a: V3, b: V3): real {
    a.x * b.x + a.y * b.y + a.z * b.z
  }

  function SquaredLength(v: V3): real {
    v.x * v.x + v.y * v.y + v.z * v.z
  }

  function Cross(a: V3, b: V3): V3 {
    V3(a.y * b.z - a.z * b.y,
       a.z * b.x - a.x * b.z,
       a.x * b.y - a.y * b.x)
  }

  /** The cross product is perpendicular to both of its arguments. */
  lemma CrossIsPerpendicular(a: V3, b: V3)
    ensures Dot(Cross(a, b), a) == 0.0 && Dot(Cross(a, b), b) == 0.0
  {
  }

  lemma CrossAnticommutes(a: V3, b: V3)
    ensures Cross(b, a) == V3(-Cross(a, b).x, -Cross(a, b).y, -Cross(a, b).z)
  {
  }

  lemma SquaredLengthNonNegative(v: V3)
    ensures SquaredLength(v) >= 0.0
  {
    SquareSign(v.x);
    SquareSign(v.y);
    SquareSign(v.z);
  }

  lemma SquareSign(a: real)
    ensures a * a >= 0.0
  {
    if a < 0.0 {
      assert a * a == (-a) * (-a);
    }
  }

  datatype V4 = V4(x: real, y: real, z: real, w: real) {
    function At(i: int): real
      requires 0 <= i < 4
    {
      if i == 0 then x else if i == 1 then y else if i == 2 then z else w
    }
    function Add(o: V4): V4 { V4(x + o.x, y + o.y, z + o.z, w + o.w) }
    function Times(k: real): V4 { V4(x * k, y * k, z * k, w * k) }
    function Xyz(): V3 { V3(x, y, z) }
  }

  /** Vec4::vec4(p, 1): a position in homogeneous coordinates. */
  function Point(p: V3): V4 { V4(p.x, p.y, p.z, 1.0) }

  /** Vec4::vec4(n, 0): a direction, which translations do not move. */
  function Direction(n: V3): V4 { V4(n.x, n.y, n.z, 0.0) }

  // ---------------------------------------------------------------------------
  // Matrices: column-major, c[i] is column i and c[i].e[j] its row j.
  // ---------------------------------------------------------------------------

  datatype M4 = M4(c0: V4, c1: V4, c2: V4, c3: V4) {
    function Col(i: int): V4
      requires 0 <= i < 4
    {
      if i == 0 then c0 else if i == 1 then c1 else if i == 2 then c2 else c3
    }
    /** Entry c[col].e[row]. */
    function At(col: int, row: int): real
      requires 0 <= col < 4 && 0 <= row < 4
    {
      Col(col).At(row)
    }
  }

  /** mat4 * v4, written out row by row as the source does. */
  function Apply(m: M4, v: V4): V4 {
    V4(v.x * m.c0.x + v.y * m.c1.x + v.z * m.c2.x + v.w * m.c3.x,
       v.x * m.c0.y + v.y * m.c1.y + v.z * m.c2.y + v.w * m.c3.y,
       v.x * m.c0.z + v.y * m.c1.z + v.z * m.c2.z + v.w * m.c3.z,
       v.x * m.c0.w + v.y * m.c1.w + v.z * m.c2.w + v.w * m.c3.w)
  }

  /** mat4 * mat4: column c of the product is A applied to column c of B, which is the
      triple loop Res.c[c].e[r] += A.c[i].e[r] * B.c[c].e[i] of the source. */
  function Mul(a: M4, b: M4): M4 {
    M4(Apply(a, b.c0), Apply(a, b.c1), Apply(a, b.c2), Apply(a, b.c3))
  }

  function Identity(): M4 {
    M4(V4(1.0, 0.0, 0.0, 0.0),
       V4(0.0, 1.0, 0.0, 0.0),
       V4(0.0, 0.0, 1.0, 0.0),
       V4(0.0, 0.0, 0.0, 1.0))
  }

  function Translate(t: V3): M4 {
    M4(V4(1.0, 0.0, 0.0, 0.0),
       V4(0.0, 1.0, 0.0, 0.0),
       V4(0.0, 0.0, 1.0, 0.0),
       V4(t.x, t.y, t.z, 1.0))
  }

  function Scale(s: V3): M4 {
    M4(V4(s.x, 0.0, 0.0, 0.0),
       V4(0.0, s.y, 0.0, 0.0),
       V4(0.0, 0.0, s.z, 0.0),
       V4(0.0, 0.0, 0.0, 1.0))
  }

  /** Mat4::RotateX(C, S), taking the cosine and sine directly. */
  function RotateX(c: real, s: real): M4 {
    M4(V4(1.0, 0.0, 0.0, 0.0),
       V4(0.0, c, s, 0.0),
       V4(0.0, -s, c, 0.0),
       V4(0.0, 0.0, 0.0, 1.0))
  }

  /** Mat4::RotateY(C, S). */
  function RotateY(c: real, s: real): M4 {
    M4(V4(c, 0.0, s, 0.0),
       V4(0.0, 1.0, 0.0, 0.0),
       V4(-s, 0.0, c, 0.0),
       V4(0.0, 0.0, 0.0, 1.0))
  }

  /** Math::Pi(), HalfPi(): the float constant 3.14159265359f, taken as a real. */
  const Pi: real := 3.14159265359
  const HalfPi: real := 0.5 * Pi
  const TwoPi: real := 2.0 * Pi

  function Transpose(m: M4): (r: M4)
    ensures forall c, row | 0 <= c < 4 && 0 <= row < 4 :: r.At(c, row) == m.At(row, c)
  {
    M4(V4(m.c0.x, m.c1.x, m.c2.x, m.c3.x),
       V4(m.c0.y, m.c1.y, m.c2.y, m.c3.y),
       V4(m.c0.z, m.c1.z, m.c2.z, m.c3.z),
       V4(m.c0.w, m.c1.w, m.c2.w, m.c3.w))
  }

  lemma TransposeInvolution(m: M4)
    ensures Transpose(Transpose(m)) == m
  {
  }

  /** Rewrites a product whose factors are known, without expanding it symbolically. */
  lemma MulOfEqual(a: M4, b: M4, a2: M4, b2: M4)
    requires a == a2 && b == b2
    ensures Mul(a, b) == Mul(a2, b2)
  {
  }

  /** Identity is a unit on both sides of the product. */
  lemma IdentityIsUnit(m: M4)
    ensures Mul(Identity(), m) == m
    ensures Mul(m, Identity()) == m
  {
  }

  /** Translate(T) moves a point by T and leaves a direction alone. */
  lemma TranslateMovesPoints(t: V3, p: V3, n: V3)
    ensures Apply(Translate(t), Point(p)) == Point(p.Add(t))
    ensures Apply(Translate(t), Direction(n)) == Direction(n)
  {
  }

  /** Scale(S) multiplies a point component-wise by S. */
  lemma ScaleScalesPoints(s: V3, p: V3)
    ensures Apply(Scale(s), Point(p)) == Point(s.Mul(p))
  {
  }

  /** Mat4::Inverse: the cofactor formula of the source, with the 2x2 minors S of the
      first two columns and C of the last two, each entry multiplied by 1/det. The
      source assumes an invertible matrix; for a singular one the float division yields
      infinities, and here the factor is taken as 0 instead. */
  function Inverse(m: M4): M4 {
    var s0 := m.c0.x * m.c1.y - m.c1.x * m.c0.y;
    var s1 := m.c0.x * m.c1.z - m.c1.x * m.c0.z;
    var s2 := m.c0.x * m.c1.w - m.c1.x * m.c0.w;
    var s3 := m.c0.y * m.c1.z - m.c1.y * m.c0.z;
    var s4 := m.c0.y * m.c1.w - m.c1.y * m.c0.w;
    var s5 := m.c0.z * m.c1.w - m.c1.z * m.c0.w;
    var k0 := m.c2.x * m.c3.y - m.c3.x * m.c2.y;
    var k1 := m.c2.x * m.c3.z - m.c3.x * m.c2.z;
    var k2 := m.c2.x * m.c3.w - m.c3.x * m.c2.w;
    var k3 := m.c2.y * m.c3.z - m.c3.y * m.c2.z;
    var k4 := m.c2.y * m.c3.w - m.c3.y * m.c2.w;
    var k5 := m.c2.z * m.c3.w - m.c3.z * m.c2.w;
    var det := s0 * k5 - s1 * k4 + s2 * k3 + s3 * k2 - s4 * k1 + s5 * k0;
    var d := if det != 0.0 then 1.0 / det else 0.0;
    M4(V4( (m.c1.y * k5 - m.c1.z * k4 + m.c1.w * k3) * d,
          -(m.c0.y * k5 - m.c0.z * k4 + m.c0.w * k3) * d,
           (m.c3.y * s5 - m.c3.z * s4 + m.c3.w * s3) * d,
          -(m.c2.y * s5 - m.c2.z * s4 + m.c2.w * s3) * d),
       V4(-(m.c1.x * k5 - m.c1.z * k2 + m.c1.w * k1) * d,
           (m.c0.x * k5 - m.c0.z * k2 + m.c0.w * k1) * d,
          -(m.c3.x * s5 - m.c3.z * s2 + m.c3.w * s1) * d,
           (m.c2.x * s5 - m.c2.z * s2 + m.c2.w * s1) * d),
       V4( (m.c1.x * k4 - m.c1.y * k2 + m.c1.w * k0) * d,
          -(m.c0.x * k4 - m.c0.y * k2 + m.c0.w * k0) * d,
           (m.c3.x * s4 - m.c3.y * s2 + m.c3.w * s0) * d,
          -(m.c2.x * s4 - m.c2.y * s2 + m.c2.w * s0) * d),
       V4(-(m.c1.x * k3 - m.c1.y * k1 + m.c1.z * k0) * d,
           (m.c0.x * k3 - m.c0.y * k1 + m.c0.z * k0) * d,
          -(m.c3.x * s3 - m.c3.y * s1 + m.c3.z * s0) * d,
           (m.c2.x * s3 - m.c2.y * s1 + m.c2.z * s0) * d))
  }

  /** The cofactor formula inverts the basic transforms: Identity is its own inverse,
      Translate(T) is undone by Translate(-T) and Scale(S) by Scale(1/S). */
  lemma InverseOfIdentity()
    ensures Inverse(Identity()) == Identity()
  {
  }

  lemma InverseOfTranslate(t: V3)
    ensures Inverse(Translate(t)) == Translate(V3(-t.x, -t.y, -t.z))
  {
  }

  lemma InverseOfScale(s: V3)
    requires s.x != 0.0 && s.y != 0.0 && s.z != 0.0
    ensures Inverse(Scale(s)) == Scale(V3(1.0 / s.x, 1.0 / s.y, 1.0 / s.z))
  {
  }

  /** A matrix whose last row is (0, 0, 0, 1): it maps points to points (w stays 1), so
      the homogeneous division in Mesh::Transform is by 1. */
  predicate IsAffine(m: M4) {
    m.c0.w == 0.0 && m.c1.w == 0.0 && m.c2.w == 0.0 && m.c3.w == 1.0
  }

  lemma AffineKeepsPoints(m: M4, p: V3)
    requires IsAffine(m)
    ensures Apply(m, Point(p)).w == 1.0
  {
  }

  lemma AffineClosedUnderMul(a: M4, b: M4)
    requires IsAffine(a) && IsAffine(b)
    ensures IsAffine(Mul(a, b))
  {
  }

  lemma BasicMatricesAreAffine(t: V3, s: V3, c: real, sn: real)
    ensures IsAffine(Identity()) && IsAffine(Translate(t)) && IsAffine(Scale(s))
    ensures IsAffine(RotateX(c, sn)) && IsAffine(RotateY(c, sn))
  {
  }

  /** (M * (p, 1)).xyz / w, the position Mesh::Transform stores. A zero w gives float
      infinities in the source; here the xyz part is kept as it is. */
  function HomogeneousPoint(m: M4, p: V3): V3 {
    var h := Apply(m, Point(p));
    if h.w != 0.0 then h.Xyz().Div(h.w) else h.Xyz()
  }

  /** An affine matrix needs no homogeneous division: the point is M * (p, 1). */
  lemma AffinePointNeedsNoDivision(m: M4, p: V3)
    requires IsAffine(m)
    ensures Point(HomogeneousPoint(m, p)) == Apply(m, Point(p))
  {
  }

  datatype M3 = M3(c0: V3, c1: V3, c2: V3)

  function Transpose3(m: M3): M3 {
    M3(V3(m.c0.x, m.c1.x, m.c2.x),
       V3(m.c0.y, m.c1.y, m.c2.y),
       V3(m.c0.z, m.c1.z, m.c2.z))
  }

  lemma Transpose3Involution(m: M3)
    ensures Transpose3(Transpose3(m)) == m
  {
  }

  /** Mat3::Mat3(mat4): the upper-left 3x3 block. */
  function ToMat3(m: M4): M3 {
    M3(m.c0.Xyz(), m.c1.Xyz(), m.c2.Xyz())
  }

  /** Mat4::Mat4(mat3): embeds the block, zero row and column 3 except [3][3] = 1. */
  function ToMat4(m: M3): (r: M4)
    ensures IsAffine(r)
    ensures ToMat3(r) == m
    ensures r.c3 == V4(0.0, 0.0, 0.0, 1.0)
  {
    M4(Direction(m.c0), Direction(m.c1), Direction(m.c2), V4(0.0, 0.0, 0.0, 1.0))
  }

  /** Mat4(Mat3(M)) keeps the upper-left block of M and nothing else: it equals M
      exactly when M has no translation and an affine last row. */
  lemma StripKeepsBlock(m: M4)
    ensures forall c, row | 0 <= c < 3 && 0 <= row < 3 ::
      ToMat4(ToMat3(m)).At(c, row) == m.At(c, row)
    ensures ToMat4(ToMat3(m)) == m <==> IsAffine(m) && m.c3 == V4(0.0, 0.0, 0.0, 1.0)
  {
  }

  /** The skybox view matrix Mat4(Mat3(View)) drops translation: translating a linear
      map (one whose first three columns have w == 0) does not change it. */
  lemma StripRemovesTranslation(t: V3, m: M4)
    requires m.c0.w == 0.0 && m.c1.w == 0.0 && m.c2.w == 0.0
    ensures ToMat4(ToMat3(Mul(Translate(t), m))) == ToMat4(ToMat3(m))
  {
  }
}
