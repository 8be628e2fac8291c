/**
 * The three-component vector kernel (src/vector.rs). Every `f64` is a `real`.
 * A `Vec3` is used as a point, a direction and an RGB colour.
 */
module Vectors {
  import opened RealArith

  datatype Vec3 = Vec3(x: real, y: real, z: real)

  type Point3 = Vec3
  type Color = Vec3

  /** A byte, the target of the `as u8` conversion used when a pixel is written. */
  type Byte = b: int | 0 <= b < 256

  const Zero: Vec3 := Vec3(0.0, 0.0, 0.0)

  /**
   * The numeric helpers the tracer relies on but whose definitions are not part of the
   * model: `f64::sqrt`, the source's `unit_vector` (which divides by zero on the zero vector),
   * and `reflect`, `refract` and `near_zero`, which are imported from the vector module but
   * not defined in its shown text. The predicates below state the facts the code relies on.
   */
  datatype Kernel = Kernel(
    sqrt: real -> real,
    unitVector: Vec3 -> Vec3,
    reflect: (Vec3, Vec3) -> Vec3,
    refract: (Vec3, Vec3, real) -> Vec3,
    nearZero: Vec3 -> bool)

  /** `sqrt` gives the non-negative square root of every non-negative number. */
  ghost predicate SqrtSound(k: Kernel) {
    forall a :: 0.0 <= a ==> 0.0 <= k.sqrt(a) && k.sqrt(a) * k.sqrt(a) == a
  }

  /** `unit_vector(v)` is `v / v.length()` wherever that length is not zero. */
  ghost predicate UnitVectorFaithful(k: Kernel) {
    forall v :: k.sqrt(LengthSquared(v)) != 0.0 ==> k.unitVector(v) == Div(v, k.sqrt(LengthSquared(v)))
  }

  /** The vertical coordinate of every unit vector the kernel produces is in [-1, 1]. */
  ghost predicate UnitVectorYBounded(k: Kernel) {
    forall v :: -1.0 <= k.unitVector(v).y <= 1.0
  }

  /** Every channel of the colour lies in [0, 1]. */
  predicate InUnitCube(c: Color) {
    0.0 <= c.x <= 1.0 && 0.0 <= c.y <= 1.0 && 0.0 <= c.z <= 1.0
  }

  /** `Neg` for `Vec3` and `&Vec3`. */
  function Neg(v: Vec3): Vec3 {
    Vec3(-v.x, -v.y, -v.z)
  }

  /** `Add` for all operand kinds. */
  function Add(u: Vec3, v: Vec3): Vec3 {
    Vec3(u.x + v.x, u.y + v.y, u.z + v.z)
  }

  /** `Sub` for all operand kinds. */
  function Sub(u: Vec3, v: Vec3): Vec3 {
    Vec3(u.x - v.x, u.y - v.y, u.z - v.z)
  }

  /** `Mul<f64> for Vec3`: `v * t`. */
  function MulScalar(v: Vec3, t: real): Vec3 {
    Vec3(v.x * t, v.y * t, v.z * t)
  }

  /** `Mul<Vec3> for f64`: `t * v`, which the source computes as `v * t`. */
  function ScalarMul(t: real, v: Vec3): Vec3 {
    MulScalar(v, t)
  }

  /** `Div<f64>`: `v / t`, computed by the source as `(1.0 / t) * v`. */
  function Div(v: Vec3, t: real): Vec3
    requires t != 0.0
  {
    ScalarMul(1.0 / t, v)
  }

  /**
   * Component-wise product of two colours (`attenuation * colour` in the camera);
   * the impl is imported by the camera but not shown in the vector module's text.
   */
  function Mul(u: Vec3, v: Vec3): Vec3 {
    Vec3(u.x * v.x, u.y * v.y, u.z * v.z)
  }

  function Dot(u: Vec3, v: Vec3): real {
    u.x * v.x + u.y * v.y + u.z * v.z
  }

  function LengthSquared(v: Vec3): real {
    v.x * v.x + v.y * v.y + v.z * v.z
  }

  function Length(k: Kernel, v: Vec3): real {
    k.sqrt(LengthSquared(v))
  }

  /**
   * `unit_vector(v) = v / v.length()`, defined where the length is not zero. The tracer calls
   * the kernel's `unitVector` field, which also covers the zero vector (where the code divides
   * 0 by 0); this function is the reference `UnitVectorFaithful` ties that field to.
   */
  function UnitVector(k: Kernel, v: Vec3): Vec3
    requires Length(k, v) != 0.0
  {
    Div(v, Length(k, v))
  }

  /**
   * Rust's saturating `f64 as u8`: truncation toward zero, negative values (and values
   * that truncate to zero) give 0, values of 256 and more give 255.
   */
  function AsU8(a: real): (b: Byte)
    ensures 0.0 <= a < 256.0 ==> b == a.Floor
    ensures a < 0.0 ==> b == 0
    ensures 256.0 <= a ==> b == 255
  {
    if a < 0.0 then 0 else if 256.0 <= a then 255 else a.Floor
  }

  /** The byte `write` emits for one colour channel. */
  function Quantize(c: real): Byte {
    AsU8(255.999 * c)
  }

  /** The three bytes `Vec3::write` emits for a colour, in R, G, B order. */
  function WriteBytes(c: Color): (bytes: seq<Byte>)
    ensures |bytes| == 3
    ensures bytes[0] == Quantize(c.x) && bytes[1] == Quantize(c.y) && bytes[2] == Quantize(c.z)
  {
    [Quantize(c.x), Quantize(c.y), Quantize(c.z)]
  }

  // ---- Properties of the operators ----

  lemma AccessorsOfNew(a: real, b: real, c: real)
    ensures Vec3(a, b, c).x == a && Vec3(a, b, c).y == b && Vec3(a, b, c).z == c
  {
  }

  lemma AddCommutative(u: Vec3, v: Vec3)
    ensures Add(u, v) == Add(v, u)
  {
  }

  lemma SubSelfIsZero(v: Vec3)
    ensures Sub(v, v) == Zero
  {
  }

  lemma SubIsAddNeg(u: Vec3, v: Vec3)
    ensures Sub(u, v) == Add(u, Neg(v))
  {
  }

  lemma NegInvolutive(v: Vec3)
    ensures Neg(Neg(v)) == v
  {
  }

  lemma ScalarMulCommutes(t: real, v: Vec3)
    ensures ScalarMul(t, v) == MulScalar(v, t)
    ensures ScalarMul(t, v) == Vec3(t * v.x, t * v.y, t * v.z)
  {
  }

  /** Dividing by `t` and then multiplying by `t` gives the vector back. */
  lemma DivUndoesMul(v: Vec3, t: real)
    requires t != 0.0
    ensures Div(ScalarMul(t, v), t) == v
    ensures MulScalar(Div(v, t), t) == v
  {
    var inv := 1.0 / t;
    assert t * inv == 1.0;
    assert v.x * t * inv == v.x * (t * inv);
    assert v.y * t * inv == v.y * (t * inv);
    assert v.z * t * inv == v.z * (t * inv);
    assert v.x * inv * t == v.x * (t * inv);
    assert v.y * inv * t == v.y * (t * inv);
    assert v.z * inv * t == v.z * (t * inv);
  }

  lemma DotSymmetric(u: Vec3, v: Vec3)
    ensures Dot(u, v) == Dot(v, u)
  {
  }

  lemma DotNeg(u: Vec3, v: Vec3)
    ensures Dot(Neg(u), v) == -Dot(u, v)
    ensures Dot(u, Neg(v)) == -Dot(u, v)
  {
  }

  lemma LengthSquaredIsDot(v: Vec3)
    ensures LengthSquared(v) == Dot(v, v)
    ensures 0.0 <= LengthSquared(v)
    ensures LengthSquared(Zero) == 0.0
  {
    SquareSign(v.x);
    SquareSign(v.y);
    SquareSign(v.z);
  }

  lemma NegPreservesLength(v: Vec3)
    ensures LengthSquared(Neg(v)) == LengthSquared(v)
  {
  }

  /**
   * `a p + b q` with `(a, b)` inside the unit disk and `p`, `q` orthogonal of squared length
   * `r2` has squared length below `r2`.
   */
  lemma CombinationWithinRadius(a: real, b: real, p: Vec3, q: Vec3, r2: real)
    requires a * a + b * b < 1.0
    requires Dot(p, q) == 0.0 && 0.0 < r2
    requires LengthSquared(p) == r2 && LengthSquared(q) == r2
    ensures LengthSquared(Add(ScalarMul(a, p), ScalarMul(b, q))) < r2
  {
    DiskCombination(a, b, p.x, p.y, p.z, q.x, q.y, q.z, r2);
  }

  /** With a sound square root, the squared length of `t * v` is `t^2` times that of `v`. */
  lemma ScaleLengthSquared(t: real, v: Vec3)
    ensures LengthSquared(ScalarMul(t, v)) == t * t * LengthSquared(v)
  {
    assert v.x * t * (v.x * t) == t * t * (v.x * v.x);
    assert v.y * t * (v.y * t) == t * t * (v.y * v.y);
    assert v.z * t * (v.z * t) == t * t * (v.z * v.z);
  }

  /** `unit_vector` of a vector of non-zero length has length one, so each coordinate is in [-1, 1]. */
  lemma UnitVectorIsUnit(k: Kernel, v: Vec3)
    requires SqrtSound(k)
    requires 0.0 < LengthSquared(v)
    ensures Length(k, v) != 0.0
    ensures LengthSquared(UnitVector(k, v)) == 1.0
    ensures -1.0 <= UnitVector(k, v).y <= 1.0
  {
    var n := LengthSquared(v);
    var l := Length(k, v);
    assert l * l == n;
    InverseSquare(l, n);
    ScaleLengthSquared(1.0 / l, v);
    var u := UnitVector(k, v);
    assert LengthSquared(u) == 1.0;
    SquareSign(u.x);
    SquareSign(u.z);
    SquareAtMostOne(u.y);
  }

  /**
   * A kernel whose `unit_vector` agrees with the source's formula gives unit vectors whose
   * vertical coordinate is in [-1, 1] on every input of non-zero length.
   */
  lemma FaithfulUnitVectorY(k: Kernel, v: Vec3)
    requires SqrtSound(k) && UnitVectorFaithful(k)
    requires 0.0 < LengthSquared(v)
    ensures -1.0 <= k.unitVector(v).y <= 1.0
  {
    UnitVectorIsUnit(k, v);
  }

  /** Each channel in [0, 1] is written as `floor(255.999 * c)`, a byte in 0..=255. */
  lemma QuantizeUnitRange(c: real)
    requires 0.0 <= c <= 1.0
    ensures Quantize(c) == (255.999 * c).Floor
    ensures 0 <= Quantize(c) <= 255
    ensures c == 0.0 ==> Quantize(c) == 0
    ensures c == 1.0 ==> Quantize(c) == 255
  {
  }

  /** Quantisation never decreases when the channel grows. */
  lemma QuantizeMonotone(c: real, d: real)
    requires c <= d
    ensures Quantize(c) <= Quantize(d)
  {
    var a, b := 255.999 * c, 255.999 * d;
    assert a <= b;
    if 0.0 <= a && b < 256.0 {
      assert a.Floor <= b.Floor;
    }
  }
}
