# A verified model of a small recursive ray tracer

This project models the tracing core of the `raytracing` repository, a Rust path tracer in the
style of "Ray Tracing in One Weekend". It covers:

- the vector, ray, interval and numeric kernels;
- the hit record and its face-normal rule;
- analytic sphere intersection;
- the nearest-hit scan over a list of spheres;
- the three scattering materials (Lambertian, metal, dielectric);
- the camera: `initialize`, `get_ray`, the depth-bounded `ray_color` recursion, and the
  `render` loops that sum samples, scale them and write the PPM bytes.

Every `f64` is a Dafny `real`. `INFINITY` is an extended real (`Intervals.Ext`). Numeric
functions are fields of two datatypes of function values:

- `Vectors.Kernel` holds `sqrt`, `unit_vector`, `reflect`, `refract` and `near_zero`.
- `Cameras.Optics` holds `tan` and `cross`.

All of these except `unit_vector` are called but not defined in the source text.
`unit_vector` is defined (`v / v.length()`). The model writes that definition as
`Vectors.UnitVector`, and `Vectors.UnitVectorFaithful` ties the kernel field to it. The
tracer calls the field, because the code also normalises the zero vector (a `0/0`), which
`UnitVector` leaves undefined.

The facts the code relies on are hypotheses (`Vectors.SqrtSound`, `Vectors.UnitVectorYBounded`).
Random draws are parameters:

- `Materials.Draw` is the draw of one `scatter` call; a bounce at remaining depth `d` uses
  `bounces(d)`.
- `Cameras.SampleDraw` is the draw of one sample; sample `s` of the pixel in row `j`, column
  `i` uses `draws(j, i, s)`.

Modules follow the source files:

| module | file | flavour |
|---|---|---|
| `RealArith` | — | arithmetic facts over plain reals and integers used by the proofs |
| `Wrappers` | — | `Option` |
| `Vectors` | `src/vector.rs` | pure |
| `Rays` | `src/ray.rs` | pure |
| `Common` | `src/common.rs` | pure |
| `Intervals` | `src/interval.rs` | pure |
| `Hittables` | `src/hittable.rs` | hit records; `set_face_normal` returns the updated record |
| `Spheres` | `src/sphere.rs` | pure |
| `HittableLists` | `src/hittable_list.rs` | a class whose `Hit` method runs the scan loop |
| `Materials` | `src/material.rs` | pure |
| `Cameras` | `src/camera.rs` | the `Camera` class with `Initialize`, `Trace`, `Render`; pure `RayColor`, `GetRay` |

The loops are proved against pure functions that define their results:

- `HittableList.Hit` returns `WorldHit`, the fold `Scan` over the objects. `WorldHitNearest`
  proves that `WorldHit` is the first of the nearest hits among `OwnHits`. `OwnHits` is each
  object's own answer on the whole interval, a reference that the loop never computes.
- The sample loop returns `SampleSum`.
- The pixel loops build `Tiles`, the row-major concatenation of each pixel's bytes.
  `TilesLayout` places pixel (i, j) at byte offset `3 (j w + i)`.

## Model

| member | source | states |
|---|---|---|
| Vectors.AccessorsOfNew | src/vector.rs:12-26 | `x()`, `y()`, `z()` return the three values given to `new` |
| Vectors.NegInvolutive | src/vector.rs:47-61 | negation is component-wise and `-(-v) == v` |
| Vectors.AddCommutative | src/vector.rs:63-85 | component-wise addition is commutative |
| Vectors.SubSelfIsZero | src/vector.rs:87-117 | `v - v` is the zero vector |
| Vectors.SubIsAddNeg | src/vector.rs:87-93 | `u - v == u + (-v)` |
| Vectors.ScalarMulCommutes | src/vector.rs:119-149 | `t * v == v * t`, each component scaled |
| Vectors.DivUndoesMul | src/vector.rs:151-165 | dividing by `t` (as `(1/t) * v`) undoes multiplying by `t`, both ways |
| Vectors.DotSymmetric | src/vector.rs:167-169 | `dot(u, v) == dot(v, u)` |
| Vectors.DotNeg | src/vector.rs:47-53 | `dot(-u, v) == -dot(u, v)`, and likewise in the second argument |
| Vectors.LengthSquaredIsDot | src/vector.rs:32-34 | `length_squared(v) == dot(v, v) >= 0`, and zero for the zero vector |
| Vectors.NegPreservesLength | src/vector.rs:47-53 | negation keeps the squared length |
| Vectors.ScaleLengthSquared | src/vector.rs:119-125 | `|t v|^2 == t^2 |v|^2` |
| Vectors.UnitVectorIsUnit | src/vector.rs:171-173 | with a sound `sqrt`, `v / v.length()` has length one and its `y` lies in [-1, 1] |
| Vectors.FaithfulUnitVectorY | src/vector.rs:171-173 | a kernel whose `unit_vector` is the source's formula yields `y` in [-1, 1] on non-zero input |
| Vectors.CombinationWithinRadius | src/camera.rs:209-213 | a unit-disk combination of two orthogonal vectors of squared length `r2` has squared length below `r2` |
| Vectors.AsU8 | src/vector.rs:37-39 | Rust's saturating `as u8`: the floor in [0, 256), 0 below, 255 above |
| Vectors.WriteBytes | src/vector.rs:36-44 | `write` emits three bytes, R, G, B, each the quantised channel |
| Vectors.QuantizeUnitRange | src/vector.rs:37-39 | a channel in [0, 1] is written as `floor(255.999 c)`, a byte in 0..=255; 0 maps to 0 and 1 to 255 |
| Vectors.QuantizeMonotone | src/vector.rs:37-39 | quantisation is monotone in the channel |
| Rays.AccessorsOfNew | src/ray.rs:9-19 | `origin()` and `direction()` return what `new` was given |
| Rays.Ray.At | src/ray.rs:21-23 | definition `origin + t * direction`; properties in `Rays.AtZeroIsOrigin`, `AtOneIsTip`, `AtDisplacement`, `AtAffine` |
| Rays.AtZeroIsOrigin | src/ray.rs:21-23 | `at(0) == origin` |
| Rays.AtOneIsTip | src/ray.rs:21-23 | `at(1) == origin + direction` |
| Rays.AtDisplacement | src/ray.rs:21-23 | `at(t) - origin == t * direction` |
| Rays.AtAffine | src/ray.rs:21-23 | `at(s) - at(t) == (s - t) * direction` |
| Common.DegreesToRadians | src/common.rs:7-9 | definition `degrees * PI / 180`; properties in the three `DegreesToRadians…` rows |
| Common.RandomRange | src/common.rs:15-17 | definition `min + (max - min) * draw`, the draw a parameter; properties in `RandomRangeEndpoints`, `RandomRangeBounds` |
| Common.DegreesToRadiansFixedPoints | src/common.rs:4-9 | 0° is 0, 180° is `PI`, 90° is `PI / 2` |
| Common.DegreesToRadiansLinear | src/common.rs:7-9 | the conversion respects sums and scalar multiples |
| Common.DegreesToRadiansIncreasing | src/common.rs:7-9 | the conversion is strictly increasing |
| Common.RandomRangeEndpoints | src/common.rs:15-17 | a draw of 0 gives `min`, a draw of 1 gives `max` |
| Common.RandomRangeBounds | src/common.rs:15-17 | for `min < max`, a draw in [0, 1) lands in [min, max) |
| Intervals.Minus | src/interval.rs:13-15 | `max - min` on extended reals: NaN exactly for `inf - inf` of one sign, the difference for finite bounds |
| Intervals.Interval.Size | src/interval.rs:13-15 | definition `max - min` through `Minus`; properties in `Intervals.SizeSign` |
| Intervals.Interval.Contains | src/interval.rs:17-19 | definition `min <= x <= max`; properties in `FiniteMembership`, `BoundaryExactness`, `SurroundsIsInterior` |
| Intervals.Interval.Surrounds | src/interval.rs:21-23 | definition `min < x < max`; properties in `FiniteMembership`, `BoundaryExactness`, `SurroundsIsInterior` |
| Intervals.Interval.Clamp | src/interval.rs:25-33 | definition, the branches in source order; properties in `ClampInRange`, `ClampFixesContained`, `ClampIdempotent` |
| Intervals.FiniteMembership | src/interval.rs:17-23 | `contains` is `min <= x <= max`, `surrounds` is `min < x < max` |
| Intervals.BoundaryExactness | src/interval.rs:17-23 | for `[1, 5]` both ends are contained and neither is surrounded |
| Intervals.SurroundsIsInterior | src/interval.rs:17-23 | surrounded implies contained; contained and not an end implies surrounded |
| Intervals.SizeSign | src/interval.rs:13-15 | `size()` is `max - min`, NaN only for equal infinite bounds, non-negative exactly when `min <= max` |
| Intervals.ClampInRange | src/interval.rs:25-33 | with `min <= max`, `clamp(x)` lies in [min, max] |
| Intervals.ClampFixesContained | src/interval.rs:25-33 | `clamp(x) == x` exactly when `x` is contained; otherwise the nearer bound |
| Intervals.ClampIdempotent | src/interval.rs:25-33 | clamping twice is clamping once on a non-empty interval |
| Intervals.EmptyAndUniverse | src/interval.rs:36-37 | `EMPTY` holds no finite value; `UNIVERSE` surrounds every finite value |
| Intervals.LeTransitive | src/interval.rs:17-23 | the order on extended reals is transitive, strictly where either step is strict |
| Hittables.NewHitRecord | src/hittable.rs:21-30 | a fresh record has zero point and normal, `t = 0`, no material, `front_face = false` |
| Hittables.SetFaceNormal | src/hittable.rs:32-38 | `front_face` iff `dot(direction, outward) < 0`; the normal is `outward` or `-outward` accordingly, never points along the ray, keeps its squared length; `p`, `t`, `mat` unchanged |
| Hittables.SetFaceNormalIdempotent | src/hittable.rs:32-38 | orienting twice with the same inputs changes nothing more |
| Hittables.SetFaceNormalOfNegated | src/hittable.rs:32-38 | flipping the outward normal flips `front_face` but leaves the stored normal as it was |
| Spheres.Hit | src/sphere.rs:20-56 | a negative discriminant (or zero direction) misses; a hit lies strictly inside the interval, at `r.at(t)`, with the sphere's material and a normal oriented by `set_face_normal` from `(p - center) / radius` |
| Spheres.DistanceExpansion | src/sphere.rs:21-27 | `|o + t d - C|^2 == a t^2 - 2 h t + |C - o|^2` |
| Spheres.OnSphereIffRoot | src/sphere.rs:21-27 | a parameter is on the sphere exactly when it solves `a t^2 - 2 h t + c = 0` |
| Spheres.RootsOnSphere | src/sphere.rs:32-37 | with a sound `sqrt`, both candidate roots lie on the sphere |
| Spheres.HitOnSphere | src/sphere.rs:35-49 | every hit is on the sphere and its normal has unit length |
| Spheres.UnitOutwardNormal | src/sphere.rs:48 | at a point on the sphere `(p - center) / radius` has unit length |
| Spheres.RootNeedsDiscriminant | src/sphere.rs:27-30 | a parameter on the sphere forces a non-negative discriminant |
| Spheres.RootsOrdered | src/sphere.rs:35-37 | the root tried first is not after the fallback root |
| Spheres.HitIsNearest | src/sphere.rs:27-42 | if the ray meets the sphere at a surrounded `t`, `hit` reports a hit no later than `t` |
| Spheres.HitShrink | src/sphere.rs:35-41 | narrowing the upper bound keeps exactly the hits below it |
| HittableLists.ScanStep | src/hittable_list.rs:34-49 | one iteration keeps the scan invariant: no record and no hit yet, or the kept record is the first nearest hit and the bound is its `t` |
| HittableLists.Scan | src/hittable_list.rs:29-50 | definition: the loop state after `n` objects, each asked on `Interval::new(ray_t.min, closest_so_far)`; properties in `ScanStep`, `ScanIsNearest` |
| HittableLists.WorldHit | src/hittable_list.rs:24-57 | definition: the record kept after the last object; properties in `WorldHitNearest`, `WorldHitMaterial` |
| HittableLists.ScanIsNearest | src/hittable_list.rs:29-50 | the scan invariant holds after every prefix of the objects |
| HittableLists.WorldHitNearest | src/hittable_list.rs:24-57 | the list reports `None` exactly when no object is hit, and otherwise the record of the first object with the nearest hit (ties go to the earlier object) |
| HittableLists.ScanRecordFromObject | src/hittable_list.rs:42-48 | a kept record carries the material of an object already scanned |
| HittableLists.WorldHitMaterial | src/hittable_list.rs:24-57 | an empty list is never hit; a record carries one of the objects' materials |
| HittableLists.HittableList.constructor | src/hittable_list.rs:13-15 | a new list is empty |
| HittableLists.HittableList.Add | src/hittable_list.rs:17-20 | `add` appends at the end, keeping earlier objects and their order |
| HittableLists.HittableList.Hit | src/hittable_list.rs:24-57 | the loop returns `WorldHit`, the nearest-hit scan |
| Materials.Scatter | src/material.rs:11-13 | a scattered ray starts at the hit point; only a metal can absorb; the attenuation is white for a dielectric and the albedo otherwise |
| Materials.LambertianScatter | src/material.rs:26-37 | definition; properties in `LambertianAlwaysScatters`, `LambertianDirectionNonDegenerate` |
| Materials.MetalScatter | src/material.rs:52-62 | definition; properties in `MetalScattersIffOutward`, `MetalNoFuzzIsMirror` |
| Materials.Reflectance | src/material.rs:76-81 | definition, Schlick's term; properties in `ReflectanceAtNormalIncidence`, `ReflectanceRatioOne`, `ReflectanceBounds` |
| Materials.DielectricScatter | src/material.rs:85-109 | definition; properties in `DielectricAlwaysScatters`, `TotalInternalReflection`, `SchlickChoice`, `DielectricIndexOne` |
| Materials.LambertianAlwaysScatters | src/material.rs:26-37 | Lambertian always scatters with its albedo along `normal + u`, or along `normal` when that sum is near zero |
| Materials.LambertianDirectionNonDegenerate | src/material.rs:27-32 | with `near_zero(0)` and a non-zero normal the direction is never zero |
| Materials.MetalScattersIffOutward | src/material.rs:52-62 | metal scatters exactly when `dot(direction, normal) > 0`, with its albedo and a ray from the hit point |
| Materials.MetalNoFuzzIsMirror | src/material.rs:53-54 | with no fuzz the direction is the unit reflection |
| Materials.DielectricAlwaysScatters | src/material.rs:85-109 | a dielectric always scatters, white, from the hit point, with ratio `1/index` on a front face and `index` otherwise |
| Materials.TotalInternalReflection | src/material.rs:95-101 | when `ri sin_theta > 1` the direction is the reflection whatever the draw |
| Materials.SchlickChoice | src/material.rs:100-104 | otherwise it reflects exactly when the Schlick term beats the draw, else refracts |
| Materials.ReflectanceAtNormalIncidence | src/material.rs:76-81 | `reflectance(1, ri) == r0`, and `r0 == 0` for a ratio of one |
| Materials.ReflectanceRatioOne | src/material.rs:76-81 | for a ratio of one the Schlick term is `(1 - cosine)^5` |
| Materials.ReflectanceBounds | src/material.rs:76-81 | for a positive ratio `0 <= r0 < 1`, and for a cosine in [0, 1] the term lies in [r0, 1] |
| Materials.SinThetaAtMostOne | src/material.rs:95-96 | with a sound `sqrt`, `sin_theta` is in [0, 1] wherever it is a number |
| Materials.ScaledSineAtMostOne | src/material.rs:98 | a ratio of at most one times a sine of at most one is at most one |
| Materials.RefractsWhenSineSmall | src/material.rs:98 | such a ratio and sine never trigger `cannot_refract` |
| Materials.NoTotalReflectionBelowOne | src/material.rs:95-98 | a ratio in (0, 1] never reflects totally |
| Materials.DielectricIndexOne | src/material.rs:85-104 | index one: ratio one on both faces; reflects exactly when `(1 - cos_theta)^5` beats the draw; refracts at normal incidence for every draw in [0, 1) |
| Materials.ScatterAttenuationBounded | src/material.rs:26-109 | an albedo in the unit cube gives an attenuation in the unit cube |
| Cameras.SkyBounds | src/camera.rs:179-181 | with `y` in [-1, 1] the sky colour is in the unit cube, between white and sky blue |
| Cameras.SkyEndpoints | src/camera.rs:179-181 | straight down is white, straight up is `(0.5, 0.7, 1.0)` |
| Cameras.Sky | src/camera.rs:179-181 | definition, the white to sky-blue blend on the unit direction's `y`; properties in `SkyBounds`, `SkyEndpoints` |
| Cameras.RayColor | src/camera.rs:151-182 | definition: black when depth runs out, the sky on a miss or a hit without material, else the attenuation times the scattered ray's colour; properties in `RayColorBounded`, `RayColorDepthExhausted`, `EmptyWorldIsSky`, `RayColorUsesDepthDraws` |
| Cameras.MulUnitCube | src/camera.rs:172 | the product of two unit-cube colours is in the unit cube |
| Cameras.RayColorBounded | src/camera.rs:151-182 | every channel of `ray_color` is in [0, 1] when albedos are and unit vectors have `y` in [-1, 1] |
| Cameras.RayColorDepthExhausted | src/camera.rs:153-155 | depth `<= 0` gives black whatever the ray and world |
| Cameras.EmptyWorldIsSky | src/camera.rs:157-181 | with depth left, an empty world shows the sky |
| Cameras.RayColorUsesDepthDraws | src/camera.rs:151-182 | a trace at depth `d` consumes only the draws of depths `1..=d` (at most `d` nested bounces) |
| Cameras.AsI32 | src/camera.rs:107 | Rust's `f64 as i32`: truncation toward zero, saturating at the `i32` bounds |
| Cameras.ImageHeight | src/camera.rs:107-108 | `max(1, trunc(width / aspect_ratio))`, within `1..=i32::MAX` |
| Cameras.ImageHeightExamples | src/camera.rs:107-108 | 400 at 16:9 gives 225, 1200 gives 675, 401 truncates to 225, 1 is raised to 1 |
| Cameras.NatToString | src/camera.rs:74 | decimal notation is a non-empty string of digits |
| Cameras.NatToStringRoundTrip | src/camera.rs:74 | reading the decimal notation back gives the number |
| Cameras.Header | src/camera.rs:74 | the header starts with `P6\n` and ends with `\n255\n` |
| Cameras.HeaderExample | src/camera.rs:74 | a 400 by 225 image has header `P6\n400 225\n255\n` |
| Cameras.ViewportOf | src/camera.rs:117-133 | definition: the camera basis and the viewport edge vectors; properties in `FrameTilesViewport`, `ImageCentreOnAxis` |
| Cameras.FrameOf | src/camera.rs:136-148 | definition: pixel deltas, the upper-left pixel and the lens vectors; properties in `FrameTilesViewport`, `GridCentre`, `ImageCentreOnAxis` |
| Cameras.FrameTilesViewport | src/camera.rs:132-137 | `image_width` steps of `pixel_delta_u` span the viewport across, `image_height` steps of `pixel_delta_v` down |
| Cameras.GridCentre | src/camera.rs:142-143 | a grid built as `initialize` builds it is centred on `center - focus_dist w` |
| Cameras.ImageCentreOnAxis | src/camera.rs:117-148 | halfway across and down the image lies the point `focus_dist` in front of the camera |
| Cameras.DefocusDiskSample | src/camera.rs:209-213 | definition `center + p.x disk_u + p.y disk_v`; properties in `DiskSampleWithinDisk` |
| Cameras.GetRay | src/camera.rs:184-207 | definition, with the `sample_square` offset and the lens point drawn; properties in `GetRayThroughPixel`, `PinholeOrigin`, `LensSampleWithinDisk` |
| Cameras.GetRayThroughPixel | src/camera.rs:184-207 | with draws in [0, 1), the ray reaches at `t = 1` a grid point within half a pixel of (i, j) |
| Cameras.PinholeOrigin | src/camera.rs:194-195 | with `defocus_angle <= 0` every ray leaves from the centre |
| Cameras.LensSampleWithinDisk | src/camera.rs:194-198 | with a positive defocus angle the origin lies within the lens disk |
| Cameras.DiskSampleWithinDisk | src/camera.rs:209-213 | `defocus_disk_sample` maps the unit disk into the lens disk |
| Cameras.Count | src/camera.rs:95 | `for _ in 0..n` runs `max(n, 0)` times |
| Cameras.SampleSum | src/camera.rs:94-98 | definition: the colours of the first `n` samples added in order; properties in `SamplePixel`, `SampleSumBounded` |
| Cameras.PixelColor | src/camera.rs:94-100 | definition: the sample sum scaled by `pixel_samples_scale`; properties in `PixelColorBounded`, `PixelBytesExact`, `ShadePixel` |
| Cameras.SamplePixel | src/camera.rs:94-98 | the sample loop returns the sum of the `samples_per_pixel` sample colours |
| Cameras.ShadePixel | src/camera.rs:94-101 | one column-loop body emits exactly the pixel's bytes |
| Cameras.SampleSumBounded | src/camera.rs:94-98 | each channel of a sum of `n` samples lies in [0, n] |
| Cameras.PixelColorBounded | src/camera.rs:94-100 | a pixel, scaled by `1 / samples_per_pixel`, is the average of its samples and lies in the unit cube |
| Cameras.AverageInUnitCube | src/camera.rs:100 | a sum of `n` unit-cube colours scaled by `1/n` is in the unit cube |
| Cameras.PixelBytesExact | src/camera.rs:100-101 | each written byte is exactly `floor(255.999 c)`: no channel saturates |
| Cameras.PixelBytesThree | src/camera.rs:101 | each pixel is written as three bytes |
| Cameras.TileRowLength | src/camera.rs:85-102 | a row of `n` pixels is `3 n` bytes |
| Cameras.TilesLength | src/camera.rs:81-103 | `n` rows of `w` pixels are `3 n w` bytes |
| Cameras.TileRowLayout | src/camera.rs:85-102 | pixel `i` of a row occupies bytes `3 i` to `3 i + 2` |
| Cameras.CellAfterRows | src/camera.rs:81-103 | pixel (i, j) starts `3 i` bytes after the first `j` rows |
| Cameras.TilesLayout | src/camera.rs:81-103 | row-major order: pixel (i, j) occupies the three bytes at `3 (j w + i)` |
| Cameras.Camera.constructor | src/camera.rs:33-66 | the configuration as given, height 0, scale `1 / samples_per_pixel`, derived vectors zero |
| Cameras.Camera.Initialize | src/camera.rs:106-149 | sets the truncated, clamped height, the scale `1 / samples_per_pixel`, `center = lookfrom` and the frame; leaves the configuration as it was |
| Cameras.Camera.SetFrame | src/camera.rs:136-148 | stores the pixel grid and lens vectors |
| Cameras.Camera.Trace | src/camera.rs:81-103 | the nested loops emit every pixel's bytes, rows top to bottom, each row left to right |
| Cameras.Camera.Render | src/camera.rs:68-104 | the header for the computed height, then a body of `3 h w` bytes laid out as `Tiles` of the pixel bytes |

## Left out

- File and console output: `File::create`, `write_all`, the progress `print!` and `flush` (src/camera.rs:72-83). `Render` returns the header and the body instead.
- The random number generator `random_f64` (src/common.rs:11-13). Every draw is a parameter, and no claim is made about distributions.
- `random_unit_vector`, `random_in_unit_disk`, `cross`, `reflect`, `refract`, `near_zero` and `f64::tan` are called but not defined in the vector module's text. They are function-valued parameters, and the model does not invent their bodies.
- `unit_vector` (src/vector.rs:171-173): the tracer (`Sky`, `MetalDirection`, `DielectricScatter`, `ViewportOf`) calls the kernel field `unitVector`, not `Vectors.UnitVector`, so no tracer lemma assumes `UnitVectorFaithful`.
- `Cameras.RayColorBounded`, `Cameras.SampleSumBounded`, `Cameras.PixelColorBounded` and `Cameras.PixelBytesExact`: each assumes `UnitVectorYBounded`, which bounds `y` for every vector, the zero vector included. For the zero vector the code computes `0/0` and the colour is NaN. `FaithfulUnitVectorY` derives the bound only for non-zero lengths, so these lemmas say nothing about a ray with a zero direction.
- IEEE-754 rounding, overflow, NaN and infinities, except where a branch depends on them. Those cases are written out: the infinite interval bounds, `inf - inf` in `size`, a zero-length direction in `Sphere::hit` (the roots are `0/0`, which no interval surrounds), a negative `1 - cos^2` under `sqrt` (the comparison is false), and the saturating `as u8` and `as i32` conversions.
- `Spheres.Hit`: requires a non-zero radius. With radius 0 the source divides by zero and stores a NaN normal; `HittableLists.NonDegenerate` carries the same requirement up to the list and the camera.
- `Materials.Scatter`: requires a positive dielectric index (`Materials.WellFormed`). An index of `-1` divides by zero in `reflectance`, and an index of 0 in the ratio.
- `Cameras.Camera.constructor`: requires `samples_per_pixel != 0`. The source computes `1.0 / 0`, an infinity.
- `Cameras.Camera.Initialize`: requires `image_width != 0` and `samples_per_pixel != 0`. For these the source divides by zero.
- `Cameras.Camera.Render`: requires the same as `Initialize`, plus a world whose spheres have non-zero radii and positive indices.
- The world is a sequence of spheres; the trait objects `Box<dyn Hittable>` and `Box<dyn Material>` become the `Sphere` and `Material` datatypes, and borrowed references become copied values.
- `i32` overflow of pixel indices and of `samples_per_pixel` loop counters is not modelled: the image sizes the program uses are far below it.
- Scene construction in `src/main.rs` is not part of this model.

Three behaviours of the code worth knowing:

- `image_height` truncates (`as i32`), so a width of 401 at 16:9 gives 225 (`Cameras.ImageHeightExamples`).
- `write` applies no gamma and no clamp, only a saturating `(255.999 * c) as u8`.
- With `refraction_index = 1` the Schlick term is `(1 - cos_theta)^5`, which is zero only at normal incidence (`Materials.DielectricIndexOne`).
