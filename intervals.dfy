/**
 * Intervals of the ray parameter (src/interval.rs). The bounds are `f64` values that may be
 * infinite (`EMPTY`, `UNIVERSE` and the camera's `(0.001, INFINITY)` query use them), so a
 * bound is an extended real.
 */
module Intervals {
  import opened Wrappers

  /** An extended real: a finite `f64` or one of the two infinities. */
  datatype Ext = NegInf | Fin(v: real) | PosInf

  /** `a <= b` on extended reals. */
  predicate Le(a: Ext, b: Ext) {
    match (a, b)
    case (NegInf, _) => true
    case (_, PosInf) => true
    case (Fin(x), Fin(y)) => x <= y
    case _ => false
  }

  /** `a < b` on extended reals. */
  predicate Lt(a: Ext, b: Ext) {
    Le(a, b) && a != b
  }

  /**
   * `b - a` on extended reals; `None` stands for the NaN that IEEE-754 gives for
   * `inf - inf` with both infinities of the same sign.
   */
  function Minus(b: Ext, a: Ext): (d: Option<Ext>)
    ensures d.None? <==> (a == b && !a.Fin?)
    ensures a.Fin? && b.Fin? ==> d == Some(Fin(b.v - a.v))
  {
    match (b, a)
    case (Fin(x), Fin(y)) => Some(Fin(x - y))
    case (PosInf, PosInf) => None
    case (NegInf, NegInf) => None
    case (PosInf, _) => Some(PosInf)
    case (NegInf, _) => Some(NegInf)
    case (_, PosInf) => Some(NegInf)
    case (_, NegInf) => Some(PosInf)
  }

  /** `Interval::new(min, max)` is the datatype's constructor. */
  datatype Interval = Interval(min: Ext, max: Ext) {

    /** `size()`: `max - min`. */
    function Size(): Option<Ext> {
      Minus(max, min)
    }

    /** Closed membership: both endpoints count. */
    predicate Contains(x: real) {
      Le(min, Fin(x)) && Le(Fin(x), max)
    }

    /** Open membership: neither endpoint counts. */
    predicate Surrounds(x: real) {
      Lt(min, Fin(x)) && Lt(Fin(x), max)
    }

    /** Saturate `x` into the interval; an infinite bound is returned as it is. */
    function Clamp(x: real): Ext {
      if Lt(Fin(x), min) then min
      else if Lt(max, Fin(x)) then max
      else Fin(x)
    }
  }

  const Empty: Interval := Interval(PosInf, NegInf)
  const Universe: Interval := Interval(NegInf, PosInf)

  // ---- Properties ----

  /** For finite bounds, `contains` is `min <= x <= max` and `surrounds` is `min < x < max`. */
  lemma FiniteMembership(lo: real, hi: real, x: real)
    ensures Interval(Fin(lo), Fin(hi)).Contains(x) <==> lo <= x <= hi
    ensures Interval(Fin(lo), Fin(hi)).Surrounds(x) <==> lo < x < hi
  {
  }

  /** The boundary example: with `Interval::new(1, 5)`, both ends are contained, neither surrounded. */
  lemma BoundaryExactness()
    ensures Interval(Fin(1.0), Fin(5.0)).Contains(1.0) && Interval(Fin(1.0), Fin(5.0)).Contains(5.0)
    ensures !Interval(Fin(1.0), Fin(5.0)).Surrounds(1.0) && !Interval(Fin(1.0), Fin(5.0)).Surrounds(5.0)
  {
  }

  /** A surrounded value is contained; a contained value that is not a bound is surrounded. */
  lemma SurroundsIsInterior(i: Interval, x: real)
    ensures i.Surrounds(x) ==> i.Contains(x)
    ensures i.Contains(x) && i.min != Fin(x) && i.max != Fin(x) ==> i.Surrounds(x)
  {
  }

  /** `size()` is `max - min`; it is non-negative exactly when `min <= max` (when it is a number). */
  lemma SizeSign(i: Interval)
    ensures i.min.Fin? && i.max.Fin? ==> i.Size() == Some(Fin(i.max.v - i.min.v))
    ensures i.Size().None? <==> i.min == i.max && !i.min.Fin?
    ensures i.Size().Some? ==> (Le(Fin(0.0), i.Size().value) <==> Le(i.min, i.max))
  {
  }

  /** With `min <= max`, `clamp(x)` lies in `[min, max]`. */
  lemma ClampInRange(i: Interval, x: real)
    requires Le(i.min, i.max)
    ensures Le(i.min, i.Clamp(x)) && Le(i.Clamp(x), i.max)
  {
  }

  /** `clamp` leaves contained values alone and moves others to the nearer bound. */
  lemma ClampFixesContained(i: Interval, x: real)
    ensures i.Contains(x) <==> i.Clamp(x) == Fin(x)
    ensures Lt(Fin(x), i.min) ==> i.Clamp(x) == i.min
    ensures !Lt(Fin(x), i.min) && Lt(i.max, Fin(x)) ==> i.Clamp(x) == i.max
  {
  }

  /** `clamp` is idempotent on a non-empty interval. */
  lemma ClampIdempotent(i: Interval, x: real)
    requires Le(i.min, i.max)
    ensures i.Clamp(x).Fin? ==> i.Clamp(i.Clamp(x).v) == i.Clamp(x)
  {
  }

  /** `EMPTY` contains no finite value; `UNIVERSE` surrounds every finite value. */
  lemma EmptyAndUniverse(x: real)
    ensures !Empty.Contains(x) && !Empty.Surrounds(x)
    ensures Universe.Surrounds(x) && Universe.Contains(x)
  {
  }

  lemma LeTransitive(a: Ext, b: Ext, c: Ext)
    ensures Le(a, b) && Le(b, c) ==> Le(a, c)
    ensures Lt(a, b) && Le(b, c) ==> Lt(a, c)
    ensures Le(a, b) && Lt(b, c) ==> Lt(a, c)
  {
  }
}
