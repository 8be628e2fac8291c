/**
 * The world as a list of surfaces (src/hittable_list.rs). Its `hit` asks each object in turn
 * for a hit nearer than the nearest found so far and keeps the last one it is given, which is
 * the nearest hit overall. Every surface the program builds is a sphere, so the list holds
 * `Sphere` values.
 */
module HittableLists {
  import opened Wrappers
  import opened Vectors
  import opened Rays
  import opened Intervals
  import opened Hittables
  import opened Spheres

  /** Every sphere has a non-zero radius, so its normal `(p - center) / radius` is defined. */
  predicate NonDegenerate(objects: seq<Sphere>) {
    forall j :: 0 <= j < |objects| ==> objects[j].radius != 0.0
  }

  /** What the scan carries between objects: `closest_so_far` and the record kept so far. */
  datatype ScanState = ScanState(closest: Ext, best: Option<HitRecord>)

  /** The scan of `hit` after the first `n` objects. */
  function Scan(k: Kernel, objects: seq<Sphere>, r: Ray, rayT: Interval, n: nat): ScanState
    requires NonDegenerate(objects) && n <= |objects|
  {
    if n == 0 then ScanState(rayT.max, None)
    else
      var prev := Scan(k, objects, r, rayT, n - 1);
      var maybe := Hit(k, objects[n - 1], r, Interval(rayT.min, prev.closest));
      if maybe.Some? then ScanState(Fin(maybe.value.t), maybe) else prev
  }

  /** `HittableList::hit` as a value: the record kept after the last object. */
  function WorldHit(k: Kernel, objects: seq<Sphere>, r: Ray, rayT: Interval): Option<HitRecord>
    requires NonDegenerate(objects)
  {
    Scan(k, objects, r, rayT, |objects|).best
  }

  /**
   * Each object's own answer on the whole interval, in list order: the reference the scan is
   * compared with. The loop itself asks each object only for hits before the nearest so far.
   */
  function OwnHits(k: Kernel, objects: seq<Sphere>, r: Ray, rayT: Interval): (hits: seq<Option<HitRecord>>)
    requires NonDegenerate(objects)
    ensures |hits| == |objects|
    ensures forall j :: 0 <= j < |objects| ==> hits[j] == Hit(k, objects[j], r, rayT)
  {
    seq(|objects|, j requires 0 <= j < |objects| => Hit(k, objects[j], r, rayT))
  }

  /**
   * Among the first `n` answers, answer `w` is a hit, no earlier answer hits at or before it
   * and no later answer hits before it: the first of the nearest hits.
   */
  ghost predicate NearestAmong(hits: seq<Option<HitRecord>>, n: nat, w: int)
    requires n <= |hits|
  {
    && 0 <= w < n
    && hits[w].Some?
    && forall j :: 0 <= j < n && j != w && hits[j].Some? ==>
         (j < w ==> hits[w].value.t < hits[j].value.t) && (w < j ==> hits[w].value.t <= hits[j].value.t)
  }

  /**
   * What the scan has established after `n` answers: with no record nothing has hit and the
   * bound is still the interval's maximum; with a record, the bound is its `t` and it is the
   * first nearest hit.
   */
  ghost predicate ScanSpec(hits: seq<Option<HitRecord>>, n: nat, rayT: Interval, st: ScanState)
    requires n <= |hits|
  {
    && (st.best.None? ==> st.closest == rayT.max && forall j :: 0 <= j < n ==> hits[j].None?)
    && (st.best.Some? ==> st.closest == Fin(st.best.value.t) && exists w :: NearestAmong(hits, n, w) && st.best == hits[w])
  }

  /** One step of the scan, told what the narrowed query returns, keeps `ScanSpec`. */
  lemma ScanStep(hits: seq<Option<HitRecord>>, n: nat, rayT: Interval, prev: ScanState, maybe: Option<HitRecord>)
    requires n < |hits|
    requires forall j :: 0 <= j < |hits| && hits[j].Some? ==> Lt(Fin(hits[j].value.t), rayT.max)
    requires ScanSpec(hits, n, rayT, prev)
    requires maybe == if hits[n].Some? && Lt(Fin(hits[n].value.t), prev.closest) then hits[n] else None
    ensures ScanSpec(hits, n + 1, rayT, if maybe.Some? then ScanState(Fin(maybe.value.t), maybe) else prev)
  {
    if prev.best.Some? {
      var w :| NearestAmong(hits, n, w) && prev.best == hits[w];
      if maybe.Some? {
        assert NearestAmong(hits, n + 1, n);
      } else {
        assert NearestAmong(hits, n + 1, w);
      }
    } else if maybe.Some? {
      assert NearestAmong(hits, n + 1, n);
    }
  }

  /** The scan's invariant, by induction on the number of objects scanned. */
  lemma {:induction false} ScanIsNearest(k: Kernel, objects: seq<Sphere>, r: Ray, rayT: Interval, n: nat)
    requires SqrtSound(k) && NonDegenerate(objects) && n <= |objects|
    ensures ScanSpec(OwnHits(k, objects, r, rayT), n, rayT, Scan(k, objects, r, rayT, n))
  {
    if n > 0 {
      ScanIsNearest(k, objects, r, rayT, n - 1);
      var hits := OwnHits(k, objects, r, rayT);
      var prev := Scan(k, objects, r, rayT, n - 1);
      assert Le(prev.closest, rayT.max) by {
        if prev.best.Some? {
          var w :| NearestAmong(hits, n - 1, w) && prev.best == hits[w];
          assert hits[w] == Hit(k, objects[w], r, rayT);
          assert Lt(Fin(hits[w].value.t), rayT.max);
        }
      }
      HitShrink(k, objects[n - 1], r, rayT, prev.closest);
      ScanStep(hits, n - 1, rayT, prev, Hit(k, objects[n - 1], r, Interval(rayT.min, prev.closest)));
    }
  }

  /**
   * `hit` on the list reports nothing exactly when no object is hit in the interval, and
   * otherwise the record of the first object with the nearest hit.
   */
  lemma WorldHitNearest(k: Kernel, objects: seq<Sphere>, r: Ray, rayT: Interval)
    requires SqrtSound(k) && NonDegenerate(objects)
    ensures WorldHit(k, objects, r, rayT).None? <==>
      forall j :: 0 <= j < |objects| ==> Hit(k, objects[j], r, rayT).None?
    ensures WorldHit(k, objects, r, rayT).Some? ==>
      exists w :: NearestAmong(OwnHits(k, objects, r, rayT), |objects|, w)
        && WorldHit(k, objects, r, rayT) == Hit(k, objects[w], r, rayT)
  {
    ScanIsNearest(k, objects, r, rayT, |objects|);
  }

  /** Every record the scan keeps lies strictly inside the interval and carries some object's material. */
  lemma {:induction false} ScanRecordFromObject(k: Kernel, objects: seq<Sphere>, r: Ray, rayT: Interval, n: nat)
    requires NonDegenerate(objects) && n <= |objects|
    ensures var st := Scan(k, objects, r, rayT, n);
      st.best.Some? ==> exists j :: 0 <= j < n && st.best.value.mat == Some(objects[j].mat)
  {
    if n > 0 {
      ScanRecordFromObject(k, objects, r, rayT, n - 1);
      var prev := Scan(k, objects, r, rayT, n - 1);
      var maybe := Hit(k, objects[n - 1], r, Interval(rayT.min, prev.closest));
      if maybe.Some? {
        assert maybe.value.mat == Some(objects[n - 1].mat);
      } else if prev.best.Some? {
        var j :| 0 <= j < n - 1 && prev.best.value.mat == Some(objects[j].mat);
        assert 0 <= j < n;
      }
    }
  }

  /** A record from the world carries the material of one of its objects; an empty world is never hit. */
  lemma WorldHitMaterial(k: Kernel, objects: seq<Sphere>, r: Ray, rayT: Interval)
    requires NonDegenerate(objects)
    ensures objects == [] ==> WorldHit(k, objects, r, rayT).None?
    ensures WorldHit(k, objects, r, rayT).Some? ==>
      exists j :: 0 <= j < |objects| && WorldHit(k, objects, r, rayT).value.mat == Some(objects[j].mat)
  {
    ScanRecordFromObject(k, objects, r, rayT, |objects|);
  }

  /** `HittableList`: a growable list of objects. */
  class HittableList {
    var objects: seq<Sphere>

    /** `HittableList::new()`: no objects. */
    constructor ()
      ensures objects == []
    {
      objects := [];
    }

    /** `add`: append an object at the end. */
    method Add(sphere: Sphere)
      modifies this
      ensures objects == old(objects) + [sphere]
    {
      objects := objects + [sphere];
    }

    /** `hit`: scan the objects, narrowing the interval to the nearest hit found so far. */
    method Hit(k: Kernel, r: Ray, rayT: Interval) returns (result: Option<HitRecord>)
      requires NonDegenerate(objects)
      ensures result == WorldHit(k, objects, r, rayT)
    {
      var record := NewHitRecord();
      var hitAnything := false;
      var closestSoFar := rayT.max;
      var i := 0;
      while i < |objects|
        invariant 0 <= i <= |objects|
        invariant Scan(k, objects, r, rayT, i) == ScanState(closestSoFar, if hitAnything then Some(record) else None)
      {
        var maybeRecord := Spheres.Hit(k, objects[i], r, Interval(rayT.min, closestSoFar));
        if maybeRecord.Some? {
          var tempRecord := maybeRecord.value;
          hitAnything := true;
          closestSoFar := Fin(tempRecord.t);
          record := tempRecord;
        }
        i := i + 1;
      }
      if hitAnything {
        return Some(record);
      }
      return None;
    }
  }
}
