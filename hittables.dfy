/**
 * Hit records and the surface contract (src/hittable.rs).
 *
 * The `Material` variants are declared here rather than with their scattering rules in
 * `Materials`: a hit record refers to a material and a material's `scatter` reads a hit
 * record, and Dafny modules may not import each other in a cycle. The record holds the
 * material by value where the source borrows a reference to the surface's material.
 */
module Hittables {
  import opened Wrappers
  import opened Vectors
  import opened Rays

  /** Lambertian(albedo), Metal(albedo, fuzz) and Dielectric(refraction_index). */
  datatype Material =
    | Lambertian(albedo: Color)
    | Metal(albedo: Color, fuzz: real)
    | Dielectric(refractionIndex: real)

  datatype HitRecord = HitRecord(p: Point3, normal: Vec3, mat: Option<Material>, t: real, frontFace: bool)

  /** `HitRecord::new()`: everything zero, no material, not a front face. */
  function NewHitRecord(): (rec: HitRecord)
    ensures rec.p == Zero && rec.normal == Zero && rec.t == 0.0
    ensures rec.mat == None && !rec.frontFace
  {
    HitRecord(Zero, Zero, None, 0.0, false)
  }

  /**
   * `set_face_normal`: orient the normal against the incoming ray and remember whether the
   * outward normal already opposed it. The source overwrites the two fields of a record it
   * owns; here the updated record is returned.
   */
  function SetFaceNormal(rec: HitRecord, r: Ray, outwardNormal: Vec3): (rec': HitRecord)
    ensures rec'.frontFace <==> Dot(r.direction, outwardNormal) < 0.0
    ensures rec'.normal == if rec'.frontFace then outwardNormal else Neg(outwardNormal)
    ensures Dot(r.direction, rec'.normal) <= 0.0
    ensures LengthSquared(rec'.normal) == LengthSquared(outwardNormal)
    ensures rec'.p == rec.p && rec'.t == rec.t && rec'.mat == rec.mat
  {
    var front := Dot(r.direction, outwardNormal) < 0.0;
    rec.(frontFace := front, normal := if front then outwardNormal else Neg(outwardNormal))
  }

  /** Orienting twice with the same ray and outward normal changes nothing more. */
  lemma SetFaceNormalIdempotent(rec: HitRecord, r: Ray, n: Vec3)
    ensures SetFaceNormal(SetFaceNormal(rec, r, n), r, n) == SetFaceNormal(rec, r, n)
  {
  }

  /** Negating the outward normal flips `front_face` but leaves the stored normal as it was. */
  lemma SetFaceNormalOfNegated(rec: HitRecord, r: Ray, n: Vec3)
    requires Dot(r.direction, n) != 0.0
    ensures SetFaceNormal(rec, r, Neg(n)).normal == SetFaceNormal(rec, r, n).normal
    ensures SetFaceNormal(rec, r, Neg(n)).frontFace == !SetFaceNormal(rec, r, n).frontFace
  {
    NegInvolutive(n);
    DotNeg(r.direction, n);
    var d := Dot(r.direction, n);
    assert Dot(r.direction, Neg(n)) == -d;
    if d < 0.0 {
      assert !SetFaceNormal(rec, r, Neg(n)).frontFace;
    } else {
      assert SetFaceNormal(rec, r, Neg(n)).frontFace;
    }
  }
}
