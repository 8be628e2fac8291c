/**
 * Ray-sphere intersection (src/sphere.rs). The ray `o + t d` meets the sphere of centre `C`
 * and radius `R` where `a t^2 - 2 h t + c = 0`, with `a = |d|^2`, `h = d . (C - o)` and
 * `c = |C - o|^2 - R^2`.
 */
module Spheres {
  import opened Wrappers
  import opened RealArith
  import opened Vectors
  import opened Rays
  import opened Intervals
  import opened Hittables

  /** `Sphere::new(center, radius, mat)` is the datatype's constructor. */
  datatype Sphere = Sphere(center: Point3, radius: real, mat: Material)

  /** `oc = center - r.origin()`. */
  function Oc(s: Sphere, r: Ray): Vec3 {
    Sub(s.center, r.origin)
  }

  /** `a = r.direction().length_squared()`. */
  function A(r: Ray): real {
    LengthSquared(r.direction)
  }

  /** `h = dot(r.direction(), oc)`. */
  function H(s: Sphere, r: Ray): real {
    Dot(r.direction, Oc(s, r))
  }

  /** `c = oc.length_squared() - radius^2`. */
  function C(s: Sphere, r: Ray): real {
    LengthSquared(Oc(s, r)) - s.radius * s.radius
  }

  /** `h^2 - a c`. */
  function Discriminant(s: Sphere, r: Ray): real {
    H(s, r) * H(s, r) - A(r) * C(s, r)
  }

  /** `(h - sqrtd) / a`, the first root tried. */
  function NearRoot(k: Kernel, s: Sphere, r: Ray): real
    requires A(r) != 0.0
  {
    (H(s, r) - k.sqrt(Discriminant(s, r))) / A(r)
  }

  /** `(h + sqrtd) / a`, the fallback root. */
  function FarRoot(k: Kernel, s: Sphere, r: Ray): real
    requires A(r) != 0.0
  {
    (H(s, r) + k.sqrt(Discriminant(s, r))) / A(r)
  }

  /** The point at parameter `t` lies on the sphere. */
  predicate OnSphere(s: Sphere, r: Ray, t: real) {
    LengthSquared(Sub(r.At(t), s.center)) == s.radius * s.radius
  }

  /** `(p - center) / radius`, the outward normal at `p`. */
  function OutwardNormal(s: Sphere, p: Point3): Vec3
    requires s.radius != 0.0
  {
    Div(Sub(p, s.center), s.radius)
  }

  /** The record for a hit at `t`: point, oriented normal, front face and material. */
  function Record(s: Sphere, r: Ray, t: real): HitRecord
    requires s.radius != 0.0
  {
    var p := r.At(t);
    SetFaceNormal(NewHitRecord().(t := t, p := p), r, OutwardNormal(s, p)).(mat := Some(s.mat))
  }

  /**
   * `Sphere::hit`. A negative discriminant misses. A zero `a` (a zero direction) also misses:
   * both roots are then `0 / 0`, a NaN that no interval surrounds.
   */
  function Hit(k: Kernel, s: Sphere, r: Ray, rayT: Interval): (res: Option<HitRecord>)
    requires s.radius != 0.0
    ensures Discriminant(s, r) < 0.0 || A(r) == 0.0 ==> res.None?
    ensures res.Some? ==> rayT.Surrounds(res.value.t)
    ensures res.Some? ==> res.value.p == r.At(res.value.t) && res.value.mat == Some(s.mat)
    ensures res.Some? ==> (res.value.frontFace <==> Dot(r.direction, OutwardNormal(s, res.value.p)) < 0.0)
    ensures res.Some? ==>
      res.value.normal == (if res.value.frontFace then OutwardNormal(s, res.value.p) else Neg(OutwardNormal(s, res.value.p)))
  {
    if Discriminant(s, r) < 0.0 || A(r) == 0.0 then None
    else
      var near := NearRoot(k, s, r);
      if rayT.Surrounds(near) then Some(Record(s, r, near))
      else
        var far := FarRoot(k, s, r);
        if rayT.Surrounds(far) then Some(Record(s, r, far))
        else None
  }

  // ---- Properties ----

  /** `|o + t d - C|^2 = a t^2 - 2 h t + |C - o|^2`. */
  lemma DistanceExpansion(s: Sphere, r: Ray, t: real)
    ensures LengthSquared(Sub(r.At(t), s.center))
            == A(r) * t * t - 2.0 * H(s, r) * t + LengthSquared(Oc(s, r))
  {
    var o, d, c := r.origin, r.direction, s.center;
    ShiftedSquare(o.x, d.x, c.x, t);
    ShiftedSquare(o.y, d.y, c.y, t);
    ShiftedSquare(o.z, d.z, c.z, t);
  }

  /** A parameter is on the sphere exactly when it solves the quadratic. */
  lemma OnSphereIffRoot(s: Sphere, r: Ray, t: real)
    ensures OnSphere(s, r, t) <==> A(r) * t * t - 2.0 * H(s, r) * t + C(s, r) == 0.0
  {
    DistanceExpansion(s, r, t);
  }

  /**
   * With a sound square root, every hit lies on the sphere and its stored normal has unit
   * length.
   */
  lemma HitOnSphere(k: Kernel, s: Sphere, r: Ray, rayT: Interval)
    requires SqrtSound(k) && s.radius != 0.0
    requires Hit(k, s, r, rayT).Some?
    ensures OnSphere(s, r, Hit(k, s, r, rayT).value.t)
    ensures LengthSquared(Hit(k, s, r, rayT).value.normal) == 1.0
  {
    var rec := Hit(k, s, r, rayT).value;
    RootsOnSphere(k, s, r);
    var n := OutwardNormal(s, rec.p);
    UnitOutwardNormal(s, rec.p);
    NegPreservesLength(n);
  }

  /** With a sound square root, both roots `hit` may pick lie on the sphere. */
  lemma RootsOnSphere(k: Kernel, s: Sphere, r: Ray)
    requires SqrtSound(k)
    requires A(r) != 0.0 && 0.0 <= Discriminant(s, r)
    ensures OnSphere(s, r, NearRoot(k, s, r)) && OnSphere(s, r, FarRoot(k, s, r))
  {
    var a, h, c := A(r), H(s, r), C(s, r);
    var e := k.sqrt(Discriminant(s, r));
    assert e * e == h * h - a * c;
    QuadraticRoots(a, h, c, e);
    OnSphereIffRoot(s, r, NearRoot(k, s, r));
    OnSphereIffRoot(s, r, FarRoot(k, s, r));
  }

  /** At a point on the sphere, `(p - center) / radius` has unit length. */
  lemma UnitOutwardNormal(s: Sphere, p: Point3)
    requires s.radius != 0.0
    requires LengthSquared(Sub(p, s.center)) == s.radius * s.radius
    ensures LengthSquared(OutwardNormal(s, p)) == 1.0
  {
    var v := Sub(p, s.center);
    var n := s.radius * s.radius;
    SquareSign(s.radius);
    InverseSquare(s.radius, n);
    ScaleLengthSquared(1.0 / s.radius, v);
  }

  /** A parameter on the sphere makes the discriminant non-negative. */
  lemma RootNeedsDiscriminant(s: Sphere, r: Ray, t: real)
    requires OnSphere(s, r, t)
    ensures 0.0 <= Discriminant(s, r)
  {
    OnSphereIffRoot(s, r, t);
    RootDiscriminant(A(r), H(s, r), C(s, r), t);
  }

  /** With a sound square root and a non-zero direction, the near root is not after the far one. */
  lemma RootsOrdered(k: Kernel, s: Sphere, r: Ray)
    requires SqrtSound(k)
    requires A(r) != 0.0 && 0.0 <= Discriminant(s, r)
    ensures NearRoot(k, s, r) <= FarRoot(k, s, r)
  {
    var a, h, e := A(r), H(s, r), k.sqrt(Discriminant(s, r));
    assert 0.0 <= LengthSquared(r.direction) by { LengthSquaredIsDot(r.direction); }
    assert 0.0 < a;
    assert 0.0 <= e;
    NearRootFirst(a, h, e);
  }

  /**
   * `hit` finds the nearest intersection: if the ray meets the sphere at a parameter the
   * interval surrounds, `hit` reports a hit no later than it.
   */
  lemma HitIsNearest(k: Kernel, s: Sphere, r: Ray, rayT: Interval, t: real)
    requires SqrtSound(k) && s.radius != 0.0
    requires A(r) != 0.0
    requires OnSphere(s, r, t) && rayT.Surrounds(t)
    ensures Hit(k, s, r, rayT).Some?
    ensures Hit(k, s, r, rayT).value.t <= t
  {
    RootNeedsDiscriminant(s, r, t);
    OnSphereIffRoot(s, r, t);
    var e := k.sqrt(Discriminant(s, r));
    QuadraticRootsKnown(A(r), H(s, r), C(s, r), e, t);
    RootsOrdered(k, s, r);
  }

  /**
   * Narrowing the upper bound to `hi` keeps a hit that lies below `hi` and loses the others;
   * this is what lets `HittableList::hit` shrink `closest_so_far` as it goes.
   */
  lemma HitShrink(k: Kernel, s: Sphere, r: Ray, rayT: Interval, hi: Ext)
    requires SqrtSound(k) && s.radius != 0.0
    requires Le(hi, rayT.max)
    ensures var full := Hit(k, s, r, rayT);
      Hit(k, s, r, Interval(rayT.min, hi))
      == if full.Some? && Lt(Fin(full.value.t), hi) then full else None
  {
    if !(Discriminant(s, r) < 0.0 || A(r) == 0.0) {
      RootsOrdered(k, s, r);
      var near, far := NearRoot(k, s, r), FarRoot(k, s, r);
      LeTransitive(Fin(near), hi, rayT.max);
      LeTransitive(Fin(far), hi, rayT.max);
      LeTransitive(rayT.min, Fin(near), Fin(far));
      LeTransitive(hi, Fin(near), Fin(far));
    }
  }
}
