/** Rays (src/ray.rs): an origin and a direction; `at(t) = origin + t * direction`. */
module Rays {
  import opened Vectors

  /**
   * `Ray::new(origin, direction)`; the accessors `origin()` and `direction()` are the
   * datatype's fields. The source's borrowed references become copied values.
   */
  datatype Ray = Ray(origin: Point3, direction: Vec3) {

    function At(t: real): Point3 {
      Add(origin, ScalarMul(t, direction))
    }
  }

  lemma AccessorsOfNew(o: Point3, d: Vec3)
    ensures Ray(o, d).origin == o && Ray(o, d).direction == d
  {
  }

  lemma AtZeroIsOrigin(r: Ray)
    ensures r.At(0.0) == r.origin
  {
  }

  lemma AtOneIsTip(r: Ray)
    ensures r.At(1.0) == Add(r.origin, r.direction)
  {
  }

  /** The displacement from the origin to `at(t)` is `t * direction`. */
  lemma AtDisplacement(r: Ray, t: real)
    ensures Sub(r.At(t), r.origin) == ScalarMul(t, r.direction)
  {
  }

  /** Points along a ray are affine in the parameter: `at(s) - at(t) == (s - t) * direction`. */
  lemma AtAffine(r: Ray, s: real, t: real)
    ensures Sub(r.At(s), r.At(t)) == ScalarMul(s - t, r.direction)
  {
    var d := r.direction;
    assert d.x * s - d.x * t == d.x * (s - t);
    assert d.y * s - d.y * t == d.y * (s - t);
    assert d.z * s - d.z * t == d.z * (s - t);
  }
}
