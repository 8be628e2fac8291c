/**
 * The camera (src/camera.rs): derived viewport state, primary rays, the recursive colour of
 * a ray, and the render loop that accumulates samples and emits the image bytes.
 *
 * The random draws are parameters. A bounce at remaining depth `d` scatters with
 * `bounces(d)`; sample `s` of the pixel in row `j` and column `i` uses `draws(j, i, s)`.
 */
module Cameras {
  import opened Wrappers
  import opened RealArith
  import opened Vectors
  import opened Rays
  import opened Common
  import opened Intervals
  import opened Hittables
  import opened Materials
  import opened Spheres
  import opened HittableLists

  const Black: Color := Vec3(0.0, 0.0, 0.0)
  const SkyBlue: Color := Vec3(0.5, 0.7, 1.0)

  /** The interval every scene query uses: `Interval::new(0.001, INFINITY)`. */
  const SceneRange: Interval := Interval(Fin(0.001), PosInf)

  /** Every dielectric in the world has a positive index. */
  predicate MaterialsWellFormed(world: seq<Sphere>) {
    forall j :: 0 <= j < |world| ==> WellFormed(world[j].mat)
  }

  /** Every albedo in the world is a colour in the unit cube. */
  predicate AlbedosBounded(world: seq<Sphere>) {
    forall j :: 0 <= j < |world| ==> AttenuationBounded(world[j].mat)
  }

  /** A world `ray_color` can be asked about: radii non-zero and indices positive. */
  predicate Scene(world: seq<Sphere>) {
    NonDegenerate(world) && MaterialsWellFormed(world)
  }

  /** The background: a blend from white (looking down) to sky blue (looking up). */
  function Sky(k: Kernel, r: Ray): Color {
    var unitDirection := k.unitVector(r.direction);
    var t := 0.5 * (unitDirection.y + 1.0);
    Add(ScalarMul(1.0 - t, White), ScalarMul(t, SkyBlue))
  }

  /** `ray_color(r, world, depth)`. */
  function RayColor(k: Kernel, world: seq<Sphere>, r: Ray, depth: int, bounces: int -> Draw): Color
    requires Scene(world)
    decreases depth
  {
    if depth <= 0 then Black
    else
      var maybeRecord := WorldHit(k, world, r, SceneRange);
      if maybeRecord.Some? && maybeRecord.value.mat.Some? then
        WorldHitMaterial(k, world, r, SceneRange);
        var record := maybeRecord.value;
        var scattered := Scatter(k, record.mat.value, r, record, bounces(depth));
        if scattered.Some? then
          Mul(scattered.value.attenuation, RayColor(k, world, scattered.value.scattered, depth - 1, bounces))
        else Black
      else Sky(k, r)
  }

  // ---- Properties of the colour of a ray ----

  /** With the vertical direction in [-1, 1], the sky lies between white and sky blue. */
  lemma SkyBounds(k: Kernel, r: Ray)
    requires -1.0 <= k.unitVector(r.direction).y <= 1.0
    ensures InUnitCube(Sky(k, r))
    ensures 0.5 <= Sky(k, r).x && 0.7 <= Sky(k, r).y && Sky(k, r).z == 1.0
  {
  }

  /** Straight down the sky is white; straight up it is sky blue. */
  lemma SkyEndpoints(k: Kernel, r: Ray)
    ensures k.unitVector(r.direction).y == -1.0 ==> Sky(k, r) == White
    ensures k.unitVector(r.direction).y == 1.0 ==> Sky(k, r) == SkyBlue
  {
  }

  /** The product of two colours in the unit cube is in the unit cube. */
  lemma MulUnitCube(a: Color, b: Color)
    requires InUnitCube(a) && InUnitCube(b)
    ensures InUnitCube(Mul(a, b))
  {
    var a1, a2, a3, b1, b2, b3 := a.x, a.y, a.z, b.x, b.y, b.z;
    ProductAtMostOne(a1, b1);
    ProductAtMostOne(a2, b2);
    ProductAtMostOne(a3, b3);
    MulNonNegative(a1, b1);
    MulNonNegative(a2, b2);
    MulNonNegative(a3, b3);
  }

  /**
   * Energy is never created: with unit vectors whose vertical coordinate is in [-1, 1] and
   * every albedo in [0, 1], each channel of `ray_color` is in [0, 1].
   */
  lemma {:induction false} RayColorBounded(k: Kernel, world: seq<Sphere>, r: Ray, depth: int, bounces: int -> Draw)
    requires Scene(world) && AlbedosBounded(world) && UnitVectorYBounded(k)
    ensures InUnitCube(RayColor(k, world, r, depth, bounces))
    decreases depth
  {
    if depth > 0 {
      var maybeRecord := WorldHit(k, world, r, SceneRange);
      if maybeRecord.Some? && maybeRecord.value.mat.Some? {
        WorldHitMaterial(k, world, r, SceneRange);
        var record := maybeRecord.value;
        var j :| 0 <= j < |world| && record.mat == Some(world[j].mat);
        var scattered := Scatter(k, record.mat.value, r, record, bounces(depth));
        if scattered.Some? {
          ScatterAttenuationBounded(k, record.mat.value, r, record, bounces(depth));
          RayColorBounded(k, world, scattered.value.scattered, depth - 1, bounces);
          MulUnitCube(scattered.value.attenuation, RayColor(k, world, scattered.value.scattered, depth - 1, bounces));
        }
      } else {
        SkyBounds(k, r);
      }
    }
  }

  /** The recursion stops: a depth of zero or less gathers no light. */
  lemma RayColorDepthExhausted(k: Kernel, world: seq<Sphere>, r: Ray, depth: int, bounces: int -> Draw)
    requires Scene(world) && depth <= 0
    ensures RayColor(k, world, r, depth, bounces) == Black
  {
  }

  /** An empty world shows the sky on every ray while depth remains. */
  lemma EmptyWorldIsSky(k: Kernel, r: Ray, depth: int, bounces: int -> Draw)
    requires 0 < depth
    ensures RayColor(k, [], r, depth, bounces) == Sky(k, r)
  {
    WorldHitMaterial(k, [], r, SceneRange);
  }

  /**
   * A ray traced with `depth` remaining consumes only the draws for depths `1..=depth`: two
   * draw sources that agree there give the same colour.
   */
  lemma {:induction false} RayColorUsesDepthDraws(k: Kernel, world: seq<Sphere>, r: Ray, depth: int, b1: int -> Draw, b2: int -> Draw)
    requires Scene(world)
    requires forall d :: 1 <= d <= depth ==> b1(d) == b2(d)
    ensures RayColor(k, world, r, depth, b1) == RayColor(k, world, r, depth, b2)
    decreases depth
  {
    if depth > 0 {
      var maybeRecord := WorldHit(k, world, r, SceneRange);
      if maybeRecord.Some? && maybeRecord.value.mat.Some? {
        WorldHitMaterial(k, world, r, SceneRange);
        var record := maybeRecord.value;
        var scattered := Scatter(k, record.mat.value, r, record, b1(depth));
        if scattered.Some? {
          RayColorUsesDepthDraws(k, world, scattered.value.scattered, depth - 1, b1, b2);
        }
      }
    }
  }

  // ---- Image size and output format ----

  const I32Min: int := -0x8000_0000
  const I32Max: int := 0x7fff_ffff

  /** Rust's `f64 as i32`: truncation toward zero, saturating at the bounds of `i32`. */
  function AsI32(q: real): (n: int)
    ensures I32Min <= n <= I32Max
    ensures 0.0 <= q && q < I32Max as real + 1.0 ==> n == q.Floor
    ensures q <= 0.0 && I32Min as real - 1.0 < q ==> n == -((-q).Floor)
    ensures I32Max as real + 1.0 <= q ==> n == I32Max
    ensures q <= I32Min as real - 1.0 ==> n == I32Min
  {
    var truncated := if 0.0 <= q then q.Floor else -((-q).Floor);
    if truncated < I32Min then I32Min else if I32Max < truncated then I32Max else truncated
  }

  /**
   * `image_height = max(1, (image_width as f64 / aspect_ratio) as i32)`. Dividing by a zero
   * aspect ratio gives an infinity (saturated to `i32::MAX` or `i32::MIN`) or, for a zero
   * width, a NaN that converts to 0.
   */
  function ImageHeight(imageWidth: int, aspectRatio: real): (h: int)
    ensures 1 <= h <= I32Max
    ensures 0 <= imageWidth && 0.0 < aspectRatio && imageWidth as real / aspectRatio < I32Max as real + 1.0 ==>
      h == if (imageWidth as real / aspectRatio).Floor < 1 then 1 else (imageWidth as real / aspectRatio).Floor
  {
    var raw :=
      if aspectRatio == 0.0 then (if 0 < imageWidth then I32Max else if imageWidth < 0 then I32Min else 0)
      else AsI32(imageWidth as real / aspectRatio);
    if raw < 1 then 1 else raw
  }

  /** The heights of the example configurations: 16:9 at widths 400 and 1200, and one that truncates. */
  lemma ImageHeightExamples()
    ensures ImageHeight(400, 16.0 / 9.0) == 225
    ensures ImageHeight(1200, 16.0 / 9.0) == 675
    ensures ImageHeight(401, 16.0 / 9.0) == 225
    ensures ImageHeight(1, 16.0 / 9.0) == 1
  {
    assert 400 as real / (16.0 / 9.0) == 225.0;
    assert 1200 as real / (16.0 / 9.0) == 675.0;
    assert 401 as real / (16.0 / 9.0) == 225.5625;
    assert 1 as real / (16.0 / 9.0) == 0.5625;
  }

  /** The ASCII character of one decimal digit. */
  function DigitChar(d: int): char
    requires 0 <= d < 10
  {
    "0123456789"[d]
  }

  /** Decimal notation of a natural number, most significant digit first. */
  function NatToString(n: nat): (s: string)
    ensures |s| >= 1 && AllDigits(s)
    decreases n
  {
    if n < 10 then [DigitChar(n)] else NatToString(n / 10) + [DigitChar(n % 10)]
  }

  /** `{}` formatting of an `i32`: a leading minus sign for negative values. */
  function IntToString(i: int): string {
    if i < 0 then "-" + NatToString(-i) else NatToString(i)
  }

  predicate AllDigits(s: string) {
    forall i :: 0 <= i < |s| ==> '0' <= s[i] <= '9'
  }

  /** Reading decimal digits back. */
  function ParseDigits(s: string): nat
    requires AllDigits(s)
  {
    if s == [] then 0
    else ParseDigits(s[..|s| - 1]) * 10 + ((s[|s| - 1] as int) - ('0' as int))
  }

  /** Decimal notation is unambiguous: reading it back gives the number. */
  lemma {:induction false} NatToStringRoundTrip(n: nat)
    ensures ParseDigits(NatToString(n)) == n
    decreases n
  {
    var s := NatToString(n);
    if n >= 10 {
      NatToStringRoundTrip(n / 10);
      assert s[..|s| - 1] == NatToString(n / 10);
    }
  }

  /** `"P6\n{width} {height}\n255\n"`. */
  function Header(width: int, height: int): (h: string)
    ensures |h| >= 10 && h[..3] == "P6\n" && h[|h| - 5..] == "\n255\n"
  {
    "P6\n" + IntToString(width) + " " + IntToString(height) + "\n255\n"
  }

  /** The header of a 400 by 225 image, spelled out. */
  lemma HeaderExample()
    ensures Header(400, 225) == "P6\n400 225\n255\n"
  {
    assert NatToString(400) == "400";
    assert NatToString(225) == "225";
  }

  // ---- Viewport geometry ----

  /**
   * `f64::tan` and `cross`, which the camera uses to derive its frame; like the other
   * numeric helpers they are parameters of the model.
   */
  datatype Optics = Optics(tan: real -> real, cross: (Vec3, Vec3) -> Vec3)

  /** The state `initialize` derives from the configuration. */
  datatype Frame = Frame(pixel00Loc: Point3, pixelDeltaU: Vec3, pixelDeltaV: Vec3, defocusDiskU: Vec3, defocusDiskV: Vec3)

  /** The viewport edge vectors and the camera basis they are built on. */
  datatype Viewport = Viewport(u: Vec3, v: Vec3, w: Vec3, viewportU: Vec3, viewportV: Vec3)

  function ViewportOf(k: Kernel, o: Optics, imageWidth: int, imageHeight: int, vfov: real,
                      lookfrom: Point3, lookat: Point3, vup: Vec3, focusDist: real): Viewport
    requires imageHeight != 0
  {
    var theta := DegreesToRadians(vfov);
    var h := o.tan(theta / 2.0);
    var viewportHeight := 2.0 * h * focusDist;
    var viewportWidth := viewportHeight * (imageWidth as real / imageHeight as real);
    var w := k.unitVector(Sub(lookfrom, lookat));
    var u := k.unitVector(o.cross(vup, w));
    var v := o.cross(w, u);
    Viewport(u, v, w, ScalarMul(viewportWidth, u), ScalarMul(viewportHeight, Neg(v)))
  }

  /** The pixel grid and lens vectors `initialize` computes. */
  function FrameOf(k: Kernel, o: Optics, imageWidth: int, imageHeight: int, vfov: real, lookfrom: Point3,
                   lookat: Point3, vup: Vec3, defocusAngle: real, focusDist: real): Frame
    requires imageWidth != 0 && imageHeight != 0
  {
    var vp := ViewportOf(k, o, imageWidth, imageHeight, vfov, lookfrom, lookat, vup, focusDist);
    var pixelDeltaU := Div(vp.viewportU, imageWidth as real);
    var pixelDeltaV := Div(vp.viewportV, imageHeight as real);
    var upperLeft := Sub(Sub(Sub(lookfrom, ScalarMul(focusDist, vp.w)), Div(vp.viewportU, 2.0)), Div(vp.viewportV, 2.0));
    var defocusRadius := focusDist * o.tan(DegreesToRadians(defocusAngle / 2.0));
    Frame(Add(upperLeft, ScalarMul(0.5, Add(pixelDeltaU, pixelDeltaV))), pixelDeltaU, pixelDeltaV,
          MulScalar(vp.u, defocusRadius), MulScalar(vp.v, defocusRadius))
  }

  /** The pixel deltas tile the viewport: `image_width` steps span it across, `image_height` down. */
  lemma FrameTilesViewport(k: Kernel, o: Optics, imageWidth: int, imageHeight: int, vfov: real, lookfrom: Point3,
                           lookat: Point3, vup: Vec3, defocusAngle: real, focusDist: real)
    requires imageWidth != 0 && imageHeight != 0
    ensures var vp := ViewportOf(k, o, imageWidth, imageHeight, vfov, lookfrom, lookat, vup, focusDist);
      var f := FrameOf(k, o, imageWidth, imageHeight, vfov, lookfrom, lookat, vup, defocusAngle, focusDist);
      MulScalar(f.pixelDeltaU, imageWidth as real) == vp.viewportU
      && MulScalar(f.pixelDeltaV, imageHeight as real) == vp.viewportV
  {
    var vp := ViewportOf(k, o, imageWidth, imageHeight, vfov, lookfrom, lookat, vup, focusDist);
    DivUndoesMul(vp.viewportU, imageWidth as real);
    DivUndoesMul(vp.viewportV, imageHeight as real);
  }

  /** The point `pixel00 + x * delta_u + y * delta_v` of the pixel grid. */
  function GridPoint(pixel00Loc: Point3, pixelDeltaU: Vec3, pixelDeltaV: Vec3, x: real, y: real): Point3 {
    Add(Add(pixel00Loc, ScalarMul(x, pixelDeltaU)), ScalarMul(y, pixelDeltaV))
  }

  /**
   * The grid built the way `initialize` builds it is centred on `c - wf`: the point halfway
   * across and down the image.
   */
  lemma GridCentre(c: Point3, wf: Vec3, viewportU: Vec3, viewportV: Vec3, width: real, height: real)
    requires width != 0.0 && height != 0.0
    ensures var du, dv := Div(viewportU, width), Div(viewportV, height);
      var upperLeft := Sub(Sub(Sub(c, wf), Div(viewportU, 2.0)), Div(viewportV, 2.0));
      GridPoint(Add(upperLeft, ScalarMul(0.5, Add(du, dv))), du, dv, width / 2.0 - 0.5, height / 2.0 - 0.5)
      == Sub(c, wf)
  {
    CentreCoordinate(c.x, wf.x, viewportU.x, viewportV.x, width, height);
    CentreCoordinate(c.y, wf.y, viewportU.y, viewportV.y, width, height);
    CentreCoordinate(c.z, wf.z, viewportU.z, viewportV.z, width, height);
  }

  /**
   * The image is centred on the view axis: halfway across and down the image lies the point
   * `focus_dist` in front of the camera along `-w`.
   */
  lemma ImageCentreOnAxis(k: Kernel, o: Optics, imageWidth: int, imageHeight: int, vfov: real, lookfrom: Point3,
                          lookat: Point3, vup: Vec3, defocusAngle: real, focusDist: real)
    requires imageWidth != 0 && imageHeight != 0
    ensures var vp := ViewportOf(k, o, imageWidth, imageHeight, vfov, lookfrom, lookat, vup, focusDist);
      var f := FrameOf(k, o, imageWidth, imageHeight, vfov, lookfrom, lookat, vup, defocusAngle, focusDist);
      GridPoint(f.pixel00Loc, f.pixelDeltaU, f.pixelDeltaV, imageWidth as real / 2.0 - 0.5, imageHeight as real / 2.0 - 0.5)
      == Sub(lookfrom, ScalarMul(focusDist, vp.w))
  {
    var vp := ViewportOf(k, o, imageWidth, imageHeight, vfov, lookfrom, lookat, vup, focusDist);
    GridCentre(lookfrom, ScalarMul(focusDist, vp.w), vp.viewportU, vp.viewportV, imageWidth as real, imageHeight as real);
  }

  // ---- Primary rays ----

  /**
   * The random values one sample of one pixel consumes: the two `random_f64` draws of
   * `sample_square`, the point `random_in_unit_disk` returns, and the draws of its bounces.
   */
  datatype SampleDraw = SampleDraw(offsetX: real, offsetY: real, disk: Vec3, bounces: int -> Draw)

  /**
   * The part of an initialised camera that the pixel loop reads: what `get_ray` needs, the
   * depth budget, the sample count and the scale applied to a pixel's sample sum.
   */
  datatype View = View(center: Point3, pixel00Loc: Point3, pixelDeltaU: Vec3, pixelDeltaV: Vec3,
                       defocusAngle: real, defocusDiskU: Vec3, defocusDiskV: Vec3,
                       maxDepth: int, samplesPerPixel: int, pixelSamplesScale: real)

  /** `defocus_disk_sample`: the lens point for a point `p` of the unit disk. */
  function DefocusDiskSample(view: View, p: Vec3): Point3 {
    Add(Add(view.center, ScalarMul(p.x, view.defocusDiskU)), ScalarMul(p.y, view.defocusDiskV))
  }

  /**
   * `get_ray`: a ray from the camera centre (or, with a positive defocus angle, from a
   * point of the lens) towards a point of pixel (i, j) moved by the `sample_square` offset.
   */
  function GetRay(view: View, i: int, j: int, d: SampleDraw): Ray {
    var offset := Vec3(d.offsetX - 0.5, d.offsetY - 0.5, 0.0);
    var pixelSample := Add(Add(view.pixel00Loc, ScalarMul(i as real + offset.x, view.pixelDeltaU)),
                           ScalarMul(j as real + offset.y, view.pixelDeltaV));
    var rayOrigin := if view.defocusAngle <= 0.0 then view.center else DefocusDiskSample(view, d.disk);
    Ray(rayOrigin, Sub(pixelSample, rayOrigin))
  }

  /**
   * Whatever the origin, the ray reaches at parameter 1 a point of the grid inside the
   * unit square around pixel (i, j), when the draws lie in [0, 1).
   */
  lemma GetRayThroughPixel(view: View, i: int, j: int, d: SampleDraw)
    requires 0.0 <= d.offsetX < 1.0 && 0.0 <= d.offsetY < 1.0
    ensures exists x: real, y: real :: i as real - 0.5 <= x < i as real + 0.5 && j as real - 0.5 <= y < j as real + 0.5
              && GetRay(view, i, j, d).At(1.0) == GridPoint(view.pixel00Loc, view.pixelDeltaU, view.pixelDeltaV, x, y)
  {
    var r := GetRay(view, i, j, d);
    var x, y := i as real + (d.offsetX - 0.5), j as real + (d.offsetY - 0.5);
    AtOneIsTip(r);
    assert r.At(1.0) == GridPoint(view.pixel00Loc, view.pixelDeltaU, view.pixelDeltaV, x, y);
  }

  /** Without defocus the camera is a pinhole: every ray leaves from the centre. */
  lemma PinholeOrigin(view: View, i: int, j: int, d1: SampleDraw, d2: SampleDraw)
    requires view.defocusAngle <= 0.0
    ensures GetRay(view, i, j, d1).origin == view.center == GetRay(view, i, j, d2).origin
  {
  }

  /**
   * With defocus, a ray leaves from within the lens disk: when the two lens vectors are
   * orthogonal and of squared length `radius2`, and the drawn point lies in the open unit
   * disk, the origin lies less than the disk radius from the centre.
   */
  lemma LensSampleWithinDisk(view: View, i: int, j: int, d: SampleDraw, radius2: real)
    requires 0.0 < view.defocusAngle
    requires d.disk.x * d.disk.x + d.disk.y * d.disk.y < 1.0
    requires Dot(view.defocusDiskU, view.defocusDiskV) == 0.0 && 0.0 < radius2
    requires LengthSquared(view.defocusDiskU) == radius2 && LengthSquared(view.defocusDiskV) == radius2
    ensures LengthSquared(Sub(GetRay(view, i, j, d).origin, view.center)) < radius2
  {
    assert GetRay(view, i, j, d).origin == DefocusDiskSample(view, d.disk);
    DiskSampleWithinDisk(view, d.disk, radius2);
  }

  /** `defocus_disk_sample` maps the unit disk into the lens disk around the centre. */
  lemma DiskSampleWithinDisk(view: View, p: Vec3, radius2: real)
    requires p.x * p.x + p.y * p.y < 1.0
    requires Dot(view.defocusDiskU, view.defocusDiskV) == 0.0 && 0.0 < radius2
    requires LengthSquared(view.defocusDiskU) == radius2 && LengthSquared(view.defocusDiskV) == radius2
    ensures LengthSquared(Sub(DefocusDiskSample(view, p), view.center)) < radius2
  {
    var u, v := ScalarMul(p.x, view.defocusDiskU), ScalarMul(p.y, view.defocusDiskV);
    assert Sub(DefocusDiskSample(view, p), view.center) == Add(u, v);
    CombinationWithinRadius(p.x, p.y, view.defocusDiskU, view.defocusDiskV, radius2);
  }

  // ---- Pixel colours ----

  /** The number of iterations of `for _ in 0..n`. */
  function Count(n: int): (c: nat)
    ensures n <= 0 ==> c == 0
    ensures 0 <= n ==> c == n
  {
    if n < 0 then 0 else n
  }

  /**
   * The sum of the first `n` sample colours of pixel (i, j); sample `s` uses the draws
   * `draws(j, i, s)`.
   */
  function SampleSum(k: Kernel, world: seq<Sphere>, view: View, i: int, j: int, n: nat,
                     draws: (int, int, int) -> SampleDraw): Color
    requires Scene(world)
  {
    if n == 0 then Black
    else
      var d := draws(j, i, n - 1);
      Add(SampleSum(k, world, view, i, j, n - 1, draws), RayColor(k, world, GetRay(view, i, j, d), view.maxDepth, d.bounces))
  }

  /** The colour of pixel (i, j): its sample sum scaled by `pixel_samples_scale`. */
  function PixelColor(k: Kernel, world: seq<Sphere>, view: View, i: int, j: int,
                      draws: (int, int, int) -> SampleDraw): Color
    requires Scene(world)
  {
    ScalarMul(view.pixelSamplesScale, SampleSum(k, world, view, i, j, Count(view.samplesPerPixel), draws))
  }

  /** The three bytes `render` writes for each pixel (i, j). */
  function PixelBytes(k: Kernel, world: seq<Sphere>, view: View, draws: (int, int, int) -> SampleDraw)
    : (int, int) -> seq<Byte>
    requires Scene(world)
  {
    (i: int, j: int) => WriteBytes(PixelColor(k, world, view, i, j, draws))
  }

  /**
   * The sample loop of `render` for pixel (i, j): trace `samples_per_pixel` rays and sum
   * their colours.
   */
  method SamplePixel(k: Kernel, world: seq<Sphere>, view: View, i: int, j: int, draws: (int, int, int) -> SampleDraw)
    returns (color: Color)
    requires Scene(world)
    ensures color == SampleSum(k, world, view, i, j, Count(view.samplesPerPixel), draws)
  {
    color := Black;
    var sample := 0;
    while sample < view.samplesPerPixel
      invariant 0 <= sample <= Count(view.samplesPerPixel)
      invariant color == SampleSum(k, world, view, i, j, sample, draws)
    {
      var d := draws(j, i, sample);
      var r := GetRay(view, i, j, d);
      color := Add(color, RayColor(k, world, r, view.maxDepth, d.bounces));
      sample := sample + 1;
    }
  }

  /**
   * `block` gives, for every pixel (i, j), the three bytes `render` writes for it. The
   * trigger keeps the pixel colours out of proofs that only move blocks around.
   */
  ghost predicate IsPixelBytes(block: (int, int) -> seq<Byte>, k: Kernel, world: seq<Sphere>, view: View,
                               draws: (int, int, int) -> SampleDraw)
  {
    Scene(world) &&
    forall i: int, j: int {:trigger PixelColor(k, world, view, i, j, draws)} ::
      block(i, j) == WriteBytes(PixelColor(k, world, view, i, j, draws))
  }

  lemma PixelBytesCorrect(k: Kernel, world: seq<Sphere>, view: View, draws: (int, int, int) -> SampleDraw)
    requires Scene(world)
    ensures IsPixelBytes(PixelBytes(k, world, view, draws), k, world, view, draws)
  {
  }

  /**
   * The body of the column loop of `render` for pixel (i, j): sum the samples, scale the
   * sum by `pixel_samples_scale` and produce the pixel's three bytes.
   */
  method ShadePixel(k: Kernel, world: seq<Sphere>, view: View, i: int, j: int,
                    draws: (int, int, int) -> SampleDraw, ghost block: (int, int) -> seq<Byte>)
    returns (bytes: seq<Byte>)
    requires IsPixelBytes(block, k, world, view, draws)
    ensures bytes == block(i, j)
  {
    var color := SamplePixel(k, world, view, i, j, draws);
    color := ScalarMul(view.pixelSamplesScale, color);
    bytes := WriteBytes(color);
    assert bytes == WriteBytes(PixelColor(k, world, view, i, j, draws));
  }

  /** Each channel of the sum of `n` colours of the unit cube lies in [0, n]. */
  lemma {:induction false} SampleSumBounded(k: Kernel, world: seq<Sphere>, view: View, i: int, j: int, n: nat,
                                            draws: (int, int, int) -> SampleDraw)
    requires Scene(world) && AlbedosBounded(world) && UnitVectorYBounded(k)
    ensures var c := SampleSum(k, world, view, i, j, n, draws);
      0.0 <= c.x <= n as real && 0.0 <= c.y <= n as real && 0.0 <= c.z <= n as real
  {
    if n > 0 {
      var d := draws(j, i, n - 1);
      SampleSumBounded(k, world, view, i, j, n - 1, draws);
      RayColorBounded(k, world, GetRay(view, i, j, d), view.maxDepth, d.bounces);
    }
  }

  /**
   * With albedos in the unit cube, a positive sample count and the scale its reciprocal,
   * a pixel is the average of its samples and lies in the unit cube.
   */
  lemma PixelColorBounded(k: Kernel, world: seq<Sphere>, view: View, i: int, j: int,
                          draws: (int, int, int) -> SampleDraw)
    requires Scene(world) && AlbedosBounded(world) && UnitVectorYBounded(k)
    requires 0 < view.samplesPerPixel && view.pixelSamplesScale == 1.0 / view.samplesPerPixel as real
    ensures InUnitCube(PixelColor(k, world, view, i, j, draws))
  {
    var n := view.samplesPerPixel;
    var sum := SampleSum(k, world, view, i, j, n, draws);
    SampleSumBounded(k, world, view, i, j, n, draws);
    AverageInUnitCube(sum, n as real);
  }

  /** Scaling a sum of `n` unit-cube colours by `1 / n` gives a unit-cube colour. */
  lemma AverageInUnitCube(sum: Color, n: real)
    requires 0.0 < n
    requires 0.0 <= sum.x <= n && 0.0 <= sum.y <= n && 0.0 <= sum.z <= n
    ensures InUnitCube(ScalarMul(1.0 / n, sum))
  {
    AverageInUnit(sum.x, n);
    AverageInUnit(sum.y, n);
    AverageInUnit(sum.z, n);
  }

  /**
   * Under the same conditions each byte `render` writes for a pixel is exactly
   * `floor(255.999 c)` of its channel: no channel is clipped by the `as u8` conversion.
   */
  lemma PixelBytesExact(k: Kernel, world: seq<Sphere>, view: View, i: int, j: int,
                        draws: (int, int, int) -> SampleDraw)
    requires Scene(world) && AlbedosBounded(world) && UnitVectorYBounded(k)
    requires 0 < view.samplesPerPixel && view.pixelSamplesScale == 1.0 / view.samplesPerPixel as real
    ensures var c := PixelColor(k, world, view, i, j, draws);
      PixelBytes(k, world, view, draws)(i, j) == [(255.999 * c.x).Floor, (255.999 * c.y).Floor, (255.999 * c.z).Floor]
  {
    var c := PixelColor(k, world, view, i, j, draws);
    PixelColorBounded(k, world, view, i, j, draws);
    assert PixelBytes(k, world, view, draws)(i, j) == WriteBytes(c);
    QuantizeUnitRange(c.x);
    QuantizeUnitRange(c.y);
    QuantizeUnitRange(c.z);
  }

  // ---- The image body ----

  /** The blocks of cells 0 to n - 1 of row `j`, in order. */
  function TileRow(block: (int, int) -> seq<Byte>, j: int, n: nat): seq<Byte> {
    if n == 0 then [] else TileRow(block, j, n - 1) + block(n - 1, j)
  }

  /** Rows 0 to n - 1 of `w` cells each, top row first: the order in which `render` writes. */
  function Tiles(block: (int, int) -> seq<Byte>, w: nat, n: nat): seq<Byte> {
    if n == 0 then [] else Tiles(block, w, n - 1) + TileRow(block, n - 1, w)
  }

  /** Every pixel is written as three bytes. */
  ghost predicate ThreeBytes(block: (int, int) -> seq<Byte>) {
    forall i, j :: |block(i, j)| == 3
  }

  lemma PixelBytesThree(k: Kernel, world: seq<Sphere>, view: View, draws: (int, int, int) -> SampleDraw)
    requires Scene(world)
    ensures ThreeBytes(PixelBytes(k, world, view, draws))
  {
  }

  lemma {:induction false} TileRowLength(block: (int, int) -> seq<Byte>, j: int, n: nat)
    requires ThreeBytes(block)
    ensures |TileRow(block, j, n)| == 3 * n
  {
    if n > 0 {
      TileRowLength(block, j, n - 1);
    }
  }

  /** The image holds three bytes for every pixel of every row. */
  lemma {:induction false} TilesLength(block: (int, int) -> seq<Byte>, w: nat, n: nat)
    requires ThreeBytes(block)
    ensures |Tiles(block, w, n)| == 3 * n * w
  {
    if n > 0 {
      TilesLength(block, w, n - 1);
      TileRowLength(block, n - 1, w);
      RowsStep(n, w);
    }
  }

  /** Cell `i` of a row occupies bytes `3 i` to `3 i + 2` of it. */
  lemma {:induction false} TileRowLayout(block: (int, int) -> seq<Byte>, j: int, n: nat, i: int)
    requires ThreeBytes(block) && 0 <= i < n
    ensures 3 * i + 3 <= |TileRow(block, j, n)|
    ensures TileRow(block, j, n)[3 * i .. 3 * i + 3] == block(i, j)
  {
    TileRowLength(block, j, n - 1);
    if i < n - 1 {
      TileRowLayout(block, j, n - 1, i);
      BlockInPrefix(TileRow(block, j, n - 1), block(n - 1, j), 3 * i, block(i, j));
    } else {
      BlockInSuffix(TileRow(block, j, n - 1), block(n - 1, j), 3 * i, block(i, j));
    }
  }

  /** Row-major order: cell (i, j) occupies the three bytes starting at `3 (j w + i)`. */
  lemma TilesLayout(block: (int, int) -> seq<Byte>, w: nat, n: nat, i: int, j: int)
    requires ThreeBytes(block) && 0 <= j < n && 0 <= i < w
    ensures 3 * (j * w + i) + 3 <= |Tiles(block, w, n)|
    ensures Tiles(block, w, n)[3 * (j * w + i) .. 3 * (j * w + i) + 3] == block(i, j)
  {
    TilesLength(block, w, j);
    CellOffset(i, j, w);
    CellAfterRows(block, w, n, i, j);
  }

  /** Cell (i, j) starts `3 i` bytes after the first `j` rows. */
  lemma {:induction false} CellAfterRows(block: (int, int) -> seq<Byte>, w: nat, n: nat, i: int, j: nat)
    requires ThreeBytes(block) && j < n && 0 <= i < w
    ensures |Tiles(block, w, j)| + 3 * i + 3 <= |Tiles(block, w, n)|
    ensures Tiles(block, w, n)[|Tiles(block, w, j)| + 3 * i .. |Tiles(block, w, j)| + 3 * i + 3] == block(i, j)
  {
    var prefix, row := Tiles(block, w, n - 1), TileRow(block, n - 1, w);
    TileRowLength(block, n - 1, w);
    var at := |Tiles(block, w, j)| + 3 * i;
    if j < n - 1 {
      CellAfterRows(block, w, n - 1, i, j);
      BlockInPrefix(prefix, row, at, block(i, j));
    } else {
      TileRowLayout(block, j, w, i);
      BlockInSuffix(prefix, row, at, block(i, j));
    }
  }

  /** A block of a concatenation that lies within its first part. */
  lemma BlockInPrefix<T>(a: seq<T>, b: seq<T>, at: int, block: seq<T>)
    requires 0 <= at && at + |block| <= |a| && a[at .. at + |block|] == block
    ensures (a + b)[at .. at + |block|] == block
  {
    assert (a + b)[at .. at + |block|] == a[at .. at + |block|];
  }

  /** A block of a concatenation that lies within its second part. */
  lemma BlockInSuffix<T>(a: seq<T>, b: seq<T>, at: int, block: seq<T>)
    requires |a| <= at && at + |block| <= |a| + |b| && b[at - |a| .. at - |a| + |block|] == block
    ensures (a + b)[at .. at + |block|] == block
  {
    assert (a + b)[at .. at + |block|] == b[at - |a| .. at - |a| + |block|];
  }

  // ---- The camera object ----

  /** The ten values a camera is configured with. */
  datatype Configuration = Configuration(aspectRatio: real, imageWidth: int, samplesPerPixel: int, maxDepth: int,
                                         vfov: real, lookfrom: Point3, lookat: Point3, vup: Vec3,
                                         defocusAngle: real, focusDist: real)

  class Camera {
    var aspectRatio: real
    var imageWidth: int
    var samplesPerPixel: int
    var maxDepth: int
    var vfov: real
    var lookfrom: Point3
    var lookat: Point3
    var vup: Vec3
    var defocusAngle: real
    var focusDist: real
    var imageHeight: int
    var pixelSamplesScale: real
    var center: Point3
    var pixel00Loc: Point3
    var pixelDeltaU: Vec3
    var pixelDeltaV: Vec3
    var defocusDiskU: Vec3
    var defocusDiskV: Vec3

    function Config(): Configuration
      reads this
    {
      Configuration(aspectRatio, imageWidth, samplesPerPixel, maxDepth, vfov, lookfrom, lookat, vup,
                    defocusAngle, focusDist)
    }

    function CurrentFrame(): Frame
      reads this
    {
      Frame(pixel00Loc, pixelDeltaU, pixelDeltaV, defocusDiskU, defocusDiskV)
    }

    function CurrentView(): View
      reads this
    {
      View(center, pixel00Loc, pixelDeltaU, pixelDeltaV, defocusAngle, defocusDiskU, defocusDiskV,
           maxDepth, samplesPerPixel, pixelSamplesScale)
    }

    /** The scale factor is the reciprocal of the sample count, as both writers of it set it. */
    predicate ScaleMatchesSamples()
      reads this
    {
      samplesPerPixel != 0 && pixelSamplesScale == 1.0 / samplesPerPixel as real
    }

    /** `Camera::new`: the configuration as given, the derived state zeroed. */
    constructor (aspectRatio: real, imageWidth: int, samplesPerPixel: int, maxDepth: int, vfov: real,
                 lookfrom: Point3, lookat: Point3, vup: Vec3, defocusAngle: real, focusDist: real)
      requires samplesPerPixel != 0
      ensures Config() == Configuration(aspectRatio, imageWidth, samplesPerPixel, maxDepth, vfov, lookfrom,
                                        lookat, vup, defocusAngle, focusDist)
      ensures imageHeight == 0 && ScaleMatchesSamples()
      ensures center == Zero && CurrentFrame() == Frame(Zero, Zero, Zero, Zero, Zero)
    {
      this.aspectRatio := aspectRatio;
      this.imageWidth := imageWidth;
      this.samplesPerPixel := samplesPerPixel;
      this.maxDepth := maxDepth;
      this.vfov := vfov;
      this.lookfrom := lookfrom;
      this.lookat := lookat;
      this.vup := vup;
      this.defocusAngle := defocusAngle;
      this.focusDist := focusDist;
      imageHeight := 0;
      pixelSamplesScale := 1.0 / samplesPerPixel as real;
      center := Zero;
      pixel00Loc := Zero;
      pixelDeltaU := Zero;
      pixelDeltaV := Zero;
      defocusDiskU := Zero;
      defocusDiskV := Zero;
    }

    /**
     * `initialize`: the image height from the width and aspect ratio, the sample scale, the
     * centre at `lookfrom`, and the pixel grid and lens vectors of `FrameOf`. The
     * configuration is left as it was.
     */
    method Initialize(k: Kernel, o: Optics)
      requires imageWidth != 0 && samplesPerPixel != 0
      modifies this`imageHeight, this`pixelSamplesScale, this`center, this`pixel00Loc, this`pixelDeltaU,
               this`pixelDeltaV, this`defocusDiskU, this`defocusDiskV
      ensures imageHeight == ImageHeight(imageWidth, aspectRatio)
      ensures ScaleMatchesSamples()
      ensures center == lookfrom
      ensures CurrentFrame() == FrameOf(k, o, imageWidth, imageHeight, vfov, lookfrom, lookat, vup, defocusAngle, focusDist)
    {
      var height := ImageHeight(imageWidth, aspectRatio);
      SetFrame(FrameOf(k, o, imageWidth, height, vfov, lookfrom, lookat, vup, defocusAngle, focusDist));
      imageHeight, pixelSamplesScale, center := height, 1.0 / samplesPerPixel as real, lookfrom;
    }

    /** Stores the pixel grid and lens vectors `initialize` derives. */
    method SetFrame(frame: Frame)
      modifies this`pixel00Loc, this`pixelDeltaU, this`pixelDeltaV, this`defocusDiskU, this`defocusDiskV
      ensures CurrentFrame() == frame
    {
      pixel00Loc := frame.pixel00Loc;
      pixelDeltaU := frame.pixelDeltaU;
      pixelDeltaV := frame.pixelDeltaV;
      defocusDiskU := frame.defocusDiskU;
      defocusDiskV := frame.defocusDiskV;
    }

    /**
     * The loops of `render`: for every row and every column, sum the pixel's samples;
     * then scale the sum and emit the pixel's three bytes.
     */
    method Trace(k: Kernel, world: HittableList, draws: (int, int, int) -> SampleDraw,
                 ghost block: (int, int) -> seq<Byte>)
      returns (body: seq<Byte>)
      requires IsPixelBytes(block, k, world.objects, CurrentView(), draws)
      ensures body == Tiles(block, Count(imageWidth), Count(imageHeight))
    {
      var view := CurrentView();
      body := [];
      var height := 0;
      while height < imageHeight
        invariant 0 <= height <= Count(imageHeight)
        invariant body == Tiles(block, Count(imageWidth), height)
      {
        var width := 0;
        while width < imageWidth
          invariant 0 <= width <= Count(imageWidth)
          invariant body == Tiles(block, Count(imageWidth), height) + TileRow(block, height, width)
        {
          var bytes := ShadePixel(k, world.objects, view, width, height, draws, block);
          body := body + bytes;
          width := width + 1;
        }
        height := height + 1;
      }
    }

    /**
     * `render`: initialise, then produce the header and the pixel bytes written after it.
     * The body holds three bytes for each of the `image_width` by `image_height` pixels.
     */
    method Render(k: Kernel, o: Optics, world: HittableList, draws: (int, int, int) -> SampleDraw)
      returns (header: string, body: seq<Byte>)
      requires imageWidth != 0 && samplesPerPixel != 0 && Scene(world.objects)
      modifies this`imageHeight, this`pixelSamplesScale, this`center, this`pixel00Loc, this`pixelDeltaU,
               this`pixelDeltaV, this`defocusDiskU, this`defocusDiskV
      ensures imageHeight == ImageHeight(imageWidth, aspectRatio) && ScaleMatchesSamples() && center == lookfrom
      ensures CurrentFrame() == FrameOf(k, o, imageWidth, imageHeight, vfov, lookfrom, lookat, vup, defocusAngle, focusDist)
      ensures header == Header(imageWidth, imageHeight)
      ensures body == Tiles(PixelBytes(k, world.objects, CurrentView(), draws), Count(imageWidth), imageHeight)
      ensures |body| == 3 * imageHeight * Count(imageWidth)
    {
      Initialize(k, o);
      header := Header(imageWidth, imageHeight);
      ghost var block := PixelBytes(k, world.objects, CurrentView(), draws);
      PixelBytesCorrect(k, world.objects, CurrentView(), draws);
      body := Trace(k, world, draws, block);
      assert Count(imageHeight) == imageHeight;
      PixelBytesThree(k, world.objects, CurrentView(), draws);
      TilesLength(block, Count(imageWidth), imageHeight);
    }
  }
}
