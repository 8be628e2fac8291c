/**
 * Material scattering (src/material.rs). `scatter` either absorbs the incoming ray (`None`)
 * or returns an attenuation colour and the scattered ray. Each call's random draws
 * (`random_unit_vector()` and `random_f64()`) are the parameter `draw`.
 */
module Materials {
  import opened Wrappers
  import opened RealArith
  import opened Vectors
  import opened Rays
  import opened Hittables

  /** The random values one call to `scatter` may consume. */
  datatype Draw = Draw(unitVector: Vec3, uniform: real)

  /** The `(Color, Ray)` pair a scattering material returns. */
  datatype Scattered = Scattered(attenuation: Color, scattered: Ray)

  const White: Color := Vec3(1.0, 1.0, 1.0)

  /** A dielectric's refraction index is positive, as every material the program builds has. */
  predicate WellFormed(m: Material) {
    m.Dielectric? ==> 0.0 < m.refractionIndex
  }

  // ---- Lambertian ----

  /** `normal + random_unit_vector()`, or the normal itself when that sum is near zero. */
  function LambertianDirection(k: Kernel, normal: Vec3, u: Vec3): Vec3 {
    var d := Add(normal, u);
    if k.nearZero(d) then normal else d
  }

  function LambertianScatter(k: Kernel, albedo: Color, rec: HitRecord, draw: Draw): Option<Scattered> {
    Some(Scattered(albedo, Ray(rec.p, LambertianDirection(k, rec.normal, draw.unitVector))))
  }

  // ---- Metal ----

  /** `unit_vector(reflect(d, n)) + fuzz * random_unit_vector()`. */
  function MetalDirection(k: Kernel, fuzz: real, rIn: Ray, rec: HitRecord, u: Vec3): Vec3 {
    Add(k.unitVector(k.reflect(rIn.direction, rec.normal)), ScalarMul(fuzz, u))
  }

  function MetalScatter(k: Kernel, albedo: Color, fuzz: real, rIn: Ray, rec: HitRecord, draw: Draw): Option<Scattered> {
    var scattered := Ray(rec.p, MetalDirection(k, fuzz, rIn, rec, draw.unitVector));
    if Dot(scattered.direction, rec.normal) > 0.0 then Some(Scattered(albedo, scattered)) else None
  }

  // ---- Dielectric ----

  /** `powi(5)`. */
  function Pow5(a: real): real {
    a * a * a * a * a
  }

  /** Schlick's `r0 = ((1 - ri) / (1 + ri))^2`. */
  function R0(ri: real): real
    requires ri != -1.0
  {
    var q := (1.0 - ri) / (1.0 + ri);
    q * q
  }

  /** Schlick's approximation `r0 + (1 - r0) * (1 - cosine)^5`. */
  function Reflectance(cosine: real, ri: real): real
    requires ri != -1.0
  {
    R0(ri) + (1.0 - R0(ri)) * Pow5(1.0 - cosine)
  }

  /** The index ratio: `1 / refraction_index` entering through a front face, else the index. */
  function RefractionRatio(frontFace: bool, refractionIndex: real): real
    requires refractionIndex != 0.0
  {
    if frontFace then 1.0 / refractionIndex else refractionIndex
  }

  /** `f64::min`. */
  function Min(a: real, b: real): real {
    if a <= b then a else b
  }

  /** `cos_theta = min(dot(-unit_direction, normal), 1)`. */
  function CosTheta(unitDirection: Vec3, normal: Vec3): real {
    Min(Dot(Neg(unitDirection), normal), 1.0)
  }

  /** `1 - cos_theta^2`, the square of the sine. */
  function SinSquared(cosTheta: real): real {
    1.0 - cosTheta * cosTheta
  }

  /** `sin_theta = sqrt(1 - cos_theta^2)`. */
  function SinTheta(k: Kernel, cosTheta: real): real {
    k.sqrt(SinSquared(cosTheta))
  }

  /** `ri * sin_theta`. */
  function ScaledSine(k: Kernel, ri: real, cosTheta: real): real {
    ri * SinTheta(k, cosTheta)
  }

  /**
   * `ri * sin_theta > 1`. When `1 - cos_theta^2` is negative the square root is NaN and the
   * comparison is false.
   */
  function CannotRefract(k: Kernel, ri: real, cosTheta: real): bool {
    0.0 <= SinSquared(cosTheta) && ScaledSine(k, ri, cosTheta) > 1.0
  }

  /** Reflect on total internal reflection or when the Schlick term beats the draw; else refract. */
  function DielectricDirection(k: Kernel, ri: real, unitDirection: Vec3, normal: Vec3, uniform: real): Vec3
    requires ri != -1.0
  {
    var cosTheta := CosTheta(unitDirection, normal);
    if CannotRefract(k, ri, cosTheta) || Reflectance(cosTheta, ri) > uniform
    then k.reflect(unitDirection, normal)
    else k.refract(unitDirection, normal, ri)
  }

  function DielectricScatter(k: Kernel, refractionIndex: real, rIn: Ray, rec: HitRecord, draw: Draw): Option<Scattered>
    requires 0.0 < refractionIndex
  {
    var ri := RefractionRatio(rec.frontFace, refractionIndex);
    assert 0.0 < ri;
    var unitDirection := k.unitVector(rIn.direction);
    Some(Scattered(White, Ray(rec.p, DielectricDirection(k, ri, unitDirection, rec.normal, draw.uniform))))
  }

  /** `Material::scatter`, dispatched on the variant. */
  function Scatter(k: Kernel, m: Material, rIn: Ray, rec: HitRecord, draw: Draw): (res: Option<Scattered>)
    requires WellFormed(m)
    ensures res.Some? ==> res.value.scattered.origin == rec.p
    ensures !m.Metal? ==> res.Some?
    ensures res.Some? ==> res.value.attenuation == if m.Dielectric? then White else m.albedo
  {
    match m
    case Lambertian(albedo) => LambertianScatter(k, albedo, rec, draw)
    case Metal(albedo, fuzz) => MetalScatter(k, albedo, fuzz, rIn, rec, draw)
    case Dielectric(index) => DielectricScatter(k, index, rIn, rec, draw)
  }

  // ---- Lambertian properties ----

  /**
   * A Lambertian surface never absorbs; it returns its albedo and a ray from the hit point
   * along `normal + u`, or along the normal when that sum is near zero.
   */
  lemma LambertianAlwaysScatters(k: Kernel, albedo: Color, rIn: Ray, rec: HitRecord, draw: Draw)
    ensures Scatter(k, Lambertian(albedo), rIn, rec, draw).Some?
    ensures Scatter(k, Lambertian(albedo), rIn, rec, draw).value.attenuation == albedo
    ensures Scatter(k, Lambertian(albedo), rIn, rec, draw).value.scattered
            == Ray(rec.p, if k.nearZero(Add(rec.normal, draw.unitVector)) then rec.normal else Add(rec.normal, draw.unitVector))
  {
  }

  /**
   * The degenerate-direction guard works: if `near_zero` holds of the zero vector and the
   * normal is not zero, the scattered direction is never the zero vector.
   */
  lemma LambertianDirectionNonDegenerate(k: Kernel, normal: Vec3, u: Vec3)
    requires k.nearZero(Zero)
    requires normal != Zero
    ensures LambertianDirection(k, normal, u) != Zero
  {
  }

  // ---- Metal properties ----

  /**
   * A metal scatters exactly when the perturbed reflection leaves on the normal's side; the
   * scattered ray starts at the hit point and is attenuated by the albedo.
   */
  lemma MetalScattersIffOutward(k: Kernel, albedo: Color, fuzz: real, rIn: Ray, rec: HitRecord, draw: Draw)
    ensures var res := Scatter(k, Metal(albedo, fuzz), rIn, rec, draw);
      && (res.Some? <==> Dot(MetalDirection(k, fuzz, rIn, rec, draw.unitVector), rec.normal) > 0.0)
      && (res.Some? ==> res.value == Scattered(albedo, Ray(rec.p, MetalDirection(k, fuzz, rIn, rec, draw.unitVector))))
      && (res.Some? ==> Dot(res.value.scattered.direction, rec.normal) > 0.0)
  {
  }

  /** With no fuzz the metal is a perfect mirror: the direction is the unit reflection. */
  lemma MetalNoFuzzIsMirror(k: Kernel, rIn: Ray, rec: HitRecord, u: Vec3)
    ensures MetalDirection(k, 0.0, rIn, rec, u) == k.unitVector(k.reflect(rIn.direction, rec.normal))
  {
  }

  // ---- Dielectric properties ----

  /**
   * A dielectric never absorbs and is lossless: white attenuation, a ray from the hit point,
   * and the ratio chosen by `front_face`.
   */
  lemma DielectricAlwaysScatters(k: Kernel, index: real, rIn: Ray, rec: HitRecord, draw: Draw)
    requires 0.0 < index
    ensures Scatter(k, Dielectric(index), rIn, rec, draw).Some?
    ensures Scatter(k, Dielectric(index), rIn, rec, draw).value.attenuation == White
    ensures Scatter(k, Dielectric(index), rIn, rec, draw).value.scattered.origin == rec.p
    ensures Scatter(k, Dielectric(index), rIn, rec, draw).value.scattered.direction
            == DielectricDirection(k, RefractionRatio(rec.frontFace, index), k.unitVector(rIn.direction), rec.normal, draw.uniform)
    ensures RefractionRatio(rec.frontFace, index) == if rec.frontFace then 1.0 / index else index
  {
  }

  /** Under total internal reflection the direction is the reflection, whatever the draw. */
  lemma TotalInternalReflection(k: Kernel, ri: real, d: Vec3, n: Vec3, uniform: real)
    requires 0.0 < ri
    requires CannotRefract(k, ri, CosTheta(d, n))
    ensures DielectricDirection(k, ri, d, n, uniform) == k.reflect(d, n)
  {
  }

  /** Without total internal reflection the choice is the Schlick test against the draw. */
  lemma SchlickChoice(k: Kernel, ri: real, d: Vec3, n: Vec3, uniform: real)
    requires 0.0 < ri
    requires !CannotRefract(k, ri, CosTheta(d, n))
    ensures DielectricDirection(k, ri, d, n, uniform)
            == if Reflectance(CosTheta(d, n), ri) > uniform then k.reflect(d, n) else k.refract(d, n, ri)
  {
  }

  /** At normal incidence the Schlick term is `r0`, and `r0` is zero for a ratio of one. */
  lemma ReflectanceAtNormalIncidence(ri: real)
    requires ri != -1.0
    ensures Reflectance(1.0, ri) == R0(ri)
    ensures R0(1.0) == 0.0
    ensures Reflectance(1.0, 1.0) == 0.0
  {
  }

  /** For a ratio of one the Schlick term reduces to `(1 - cosine)^5`. */
  lemma ReflectanceRatioOne(cosine: real)
    ensures Reflectance(cosine, 1.0) == Pow5(1.0 - cosine)
  {
  }

  /** For a positive ratio, `0 <= r0 < 1`, and for a cosine in [0, 1] the term lies in [r0, 1]. */
  lemma ReflectanceBounds(cosine: real, ri: real)
    requires 0.0 < ri
    requires 0.0 <= cosine <= 1.0
    ensures 0.0 <= R0(ri) < 1.0
    ensures R0(ri) <= Reflectance(cosine, ri) <= 1.0
  {
    var q := (1.0 - ri) / (1.0 + ri);
    assert q * (1.0 + ri) == 1.0 - ri;
    assert -1.0 < q < 1.0;
    SquareBelowOne(q);
    var p := Pow5(1.0 - cosine);
    UnitPow5(1.0 - cosine);
    var r0 := R0(ri);
    MulNonNegative(1.0 - r0, p);
    MulAtMost(1.0 - r0, p, 1.0);
  }

  /** With a sound square root, `sin_theta <= 1`, so a ratio of at most one never reflects totally. */
  lemma NoTotalReflectionBelowOne(k: Kernel, ri: real, cosTheta: real)
    requires SqrtSound(k)
    requires 0.0 < ri <= 1.0
    ensures !CannotRefract(k, ri, cosTheta)
  {
    if 0.0 <= SinSquared(cosTheta) {
      SinThetaAtMostOne(k, cosTheta);
      RefractsWhenSineSmall(k, ri, cosTheta);
    }
  }

  /** A ratio of at most one never exceeds one against a sine of at most one. */
  lemma RefractsWhenSineSmall(k: Kernel, ri: real, cosTheta: real)
    requires 0.0 < ri <= 1.0
    requires 0.0 <= SinTheta(k, cosTheta) <= 1.0
    ensures !CannotRefract(k, ri, cosTheta)
  {
    ScaledSineAtMostOne(k, ri, cosTheta);
  }

  lemma ScaledSineAtMostOne(k: Kernel, ri: real, cosTheta: real)
    requires 0.0 < ri <= 1.0
    requires 0.0 <= SinTheta(k, cosTheta) <= 1.0
    ensures ScaledSine(k, ri, cosTheta) <= 1.0
  {
    var s := SinTheta(k, cosTheta);
    ProductAtMostOne(ri, s);
  }

  /** With a sound square root, `sin_theta` is in [0, 1] wherever it is a number. */
  lemma SinThetaAtMostOne(k: Kernel, cosTheta: real)
    requires SqrtSound(k)
    requires 0.0 <= SinSquared(cosTheta)
    ensures 0.0 <= SinTheta(k, cosTheta) <= 1.0
  {
    SquareSign(cosTheta);
    SquareAtMostOne(SinTheta(k, cosTheta));
  }

  /**
   * A dielectric of index one: the ratio is one on either face, it never reflects totally,
   * it reflects exactly when `(1 - cos_theta)^5` beats the draw, and at normal incidence it
   * refracts for every draw in [0, 1).
   */
  lemma DielectricIndexOne(k: Kernel, rIn: Ray, rec: HitRecord, draw: Draw)
    requires SqrtSound(k)
    ensures RefractionRatio(rec.frontFace, 1.0) == 1.0
    ensures var d := k.unitVector(rIn.direction);
      Scatter(k, Dielectric(1.0), rIn, rec, draw).value.scattered.direction
      == if Pow5(1.0 - CosTheta(d, rec.normal)) > draw.uniform
         then k.reflect(d, rec.normal) else k.refract(d, rec.normal, 1.0)
    ensures var d := k.unitVector(rIn.direction);
      CosTheta(d, rec.normal) == 1.0 && 0.0 <= draw.uniform ==>
      Scatter(k, Dielectric(1.0), rIn, rec, draw).value.scattered.direction == k.refract(d, rec.normal, 1.0)
  {
    var d := k.unitVector(rIn.direction);
    NoTotalReflectionBelowOne(k, 1.0, CosTheta(d, rec.normal));
    ReflectanceRatioOne(CosTheta(d, rec.normal));
  }

  /** A material whose every attenuation is a colour in the unit cube. */
  predicate AttenuationBounded(m: Material) {
    m.Dielectric? || InUnitCube(m.albedo)
  }

  /** No energy amplification: an albedo in [0, 1] gives an attenuation in [0, 1]. */
  lemma ScatterAttenuationBounded(k: Kernel, m: Material, rIn: Ray, rec: HitRecord, draw: Draw)
    requires WellFormed(m) && AttenuationBounded(m)
    ensures var res := Scatter(k, m, rIn, rec, draw);
      res.Some? ==> InUnitCube(res.value.attenuation)
  {
  }
}
