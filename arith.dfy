/** Small facts of real arithmetic that the solver needs spelled out. */
module RealArith {

  lemma SquareSign(a: real)
    ensures 0.0 <= a * a
    ensures a != 0.0 ==> 0.0 < a * a
  {
    if a < 0.0 {
      var b := -a;
      assert 0.0 < b * b;
      assert a * a == b * b;
    }
  }

  /** A real root of `a t^2 - 2 h t + c` forces `h^2 - a c` to be non-negative. */
  lemma RootDiscriminant(a: real, h: real, c: real, t: real)
    requires a * t * t - 2.0 * h * t + c == 0.0
    ensures 0.0 <= h * h - a * c
  {
    var x := a * t - h;
    assert x * x == a * (a * t * t - 2.0 * h * t + c) + h * h - a * c;
    SquareSign(x);
  }

  /** If `l * l == n` and `n` is positive, then `l` is not zero and `(1/l)^2 * n == 1`. */
  lemma InverseSquare(l: real, n: real)
    requires l * l == n && 0.0 < n
    ensures l != 0.0 && 1.0 / l * (1.0 / l) * n == 1.0
  {
    var inv := 1.0 / l;
    assert inv * l == 1.0;
    calc {
      inv * inv * n;
      inv * inv * (l * l);
      (inv * l) * (inv * l);
      1.0;
    }
  }

  lemma SquareAtMostOne(a: real)
    requires a * a <= 1.0
    ensures -1.0 <= a <= 1.0
  {
  }

  lemma MulStrictlyMonotone(a: real, b: real, c: real)
    requires 0.0 < a && b < c
    ensures a * b < a * c
  {
  }

  lemma MulNonNegative(a: real, b: real)
    requires 0.0 <= a && 0.0 <= b
    ensures 0.0 <= a * b
  {
  }

  lemma MulAtMost(a: real, b: real, c: real)
    requires 0.0 <= a && b <= c
    ensures a * b <= a * c
  {
  }

  lemma ProductAtMostOne(a: real, b: real)
    requires 0.0 <= a <= 1.0 && 0.0 <= b <= 1.0
    ensures a * b <= 1.0
  {
    var d := 1.0 - b;
    MulNonNegative(a, d);
    assert a * d == a - a * b;
  }

  /** A number strictly between -1 and 1 has a square in [0, 1). */
  lemma SquareBelowOne(q: real)
    requires -1.0 < q < 1.0
    ensures 0.0 <= q * q < 1.0
  {
    SquareSign(q);
    if q < 0.0 {
      var b := -q;
      MulAtMost(b, b, 1.0);
      assert q * q == b * b;
    } else {
      MulAtMost(q, q, 1.0);
    }
  }

  /** The fifth power of a number in [0, 1] is in [0, 1]. */
  lemma UnitPow5(a: real)
    requires 0.0 <= a <= 1.0
    ensures 0.0 <= a * a * a * a * a <= 1.0
  {
    MulAtMost(a, a, 1.0);
    var a2 := a * a;
    MulNonNegative(a, a);
    MulAtMost(a2, a, 1.0);
    var a3 := a2 * a;
    MulNonNegative(a2, a);
    MulAtMost(a3, a, 1.0);
    var a4 := a3 * a;
    MulNonNegative(a3, a);
    MulAtMost(a4, a, 1.0);
    MulNonNegative(a4, a);
    assert a2 <= 1.0;
    assert a3 <= a2 * 1.0;
    assert a4 <= a3 * 1.0;
    assert a4 * a <= a4 * 1.0;
  }

  /** A product is zero only when a factor is. */
  lemma ZeroProduct(a: real, b: real)
    requires a * b == 0.0
    ensures a == 0.0 || b == 0.0
  {
  }

  /** Two numbers with the same square are equal or opposite. */
  lemma EqualSquares(x: real, y: real)
    requires x * x == y * y
    ensures x == y || x == -y
  {
    assert (x - y) * (x + y) == x * x - y * y;
    ZeroProduct(x - y, x + y);
  }

  /** Both `(h - e) / a` and `(h + e) / a` solve `a t^2 - 2 h t + c = 0` when `e^2 = h^2 - a c`. */
  lemma QuadraticRoots(a: real, h: real, c: real, e: real)
    requires a != 0.0
    requires e * e == h * h - a * c
    ensures var near := (h - e) / a; a * near * near - 2.0 * h * near + c == 0.0
    ensures var far := (h + e) / a; a * far * far - 2.0 * h * far + c == 0.0
  {
    var ne := -e;
    assert ne * ne == e * e;
    QuadraticRoot(a, h, c, ne, (h - e) / a);
    QuadraticRoot(a, h, c, e, (h + e) / a);
  }

  /**
   * `t = (h + e) / a`, with `e^2 = h^2 - a c`, solves `a t^2 - 2 h t + c = 0`: the
   * quadratic formula with the half coefficient `h`.
   */
  lemma QuadraticRoot(a: real, h: real, c: real, e: real, t: real)
    requires a != 0.0
    requires e * e == h * h - a * c
    requires t == (h + e) / a
    ensures a * t * t - 2.0 * h * t + c == 0.0
  {
    var x := a * t;
    assert x == h + e;
    var q := a * t * t - 2.0 * h * t + c;
    assert a * q == x * x - 2.0 * h * x + a * c;
    SquareAfterShift(x, h, e);
    assert x * x - 2.0 * h * x == e * e - h * h;
    assert a * q == 0.0;
    ZeroProduct(a, q);
  }

  lemma SquareAfterShift(x: real, h: real, e: real)
    requires x == h + e
    ensures x * x - 2.0 * h * x == e * e - h * h
  {
  }

  /** Every root of `a t^2 - 2 h t + c` is `(h - e) / a` or `(h + e) / a` when `e^2 = h^2 - a c`. */
  lemma QuadraticRootsKnown(a: real, h: real, c: real, e: real, t: real)
    requires a != 0.0
    requires e * e == h * h - a * c
    requires a * t * t - 2.0 * h * t + c == 0.0
    ensures t == (h - e) / a || t == (h + e) / a
  {
    var x := a * t - h;
    var q := a * t * t - 2.0 * h * t + c;
    assert x * x == a * q + h * h - a * c;
    assert x * x == e * e;
    EqualSquares(x, e);
    assert a * t == h + x;
  }

  /** `(h - e) / a <= (h + e) / a` for `a > 0` and `e >= 0`. */
  lemma NearRootFirst(a: real, h: real, e: real)
    requires 0.0 < a && 0.0 <= e
    ensures (h - e) / a <= (h + e) / a
  {
    var inv := 1.0 / a;
    assert 0.0 < inv;
    assert (h - e) / a == (h - e) * inv;
    assert (h + e) / a == (h + e) * inv;
    MulAtMost(inv, h - e, h + e);
    assert inv * (h - e) <= inv * (h + e);
  }

  /** One coordinate of `|o + t d - c|^2`, expanded in powers of `t`. */
  lemma ShiftedSquare(o: real, d: real, c: real, t: real)
    ensures (o + d * t - c) * (o + d * t - c) == t * t * (d * d) - 2.0 * t * (d * (c - o)) + (c - o) * (c - o)
  {
  }

  /**
   * One coordinate of the image centre: the upper-left pixel centre, moved by half the
   * viewport in each direction, less the half-pixel it started in.
   */
  lemma CentreCoordinate(c: real, wf: real, u: real, v: real, width: real, height: real)
    requires width != 0.0 && height != 0.0
    ensures var du, dv := u * (1.0 / width), v * (1.0 / height);
      c - wf - u * (1.0 / 2.0) - v * (1.0 / 2.0) + (du + dv) * 0.5
        + du * (width / 2.0 - 0.5) + dv * (height / 2.0 - 0.5) == c - wf
  {
    var du, dv := u * (1.0 / width), v * (1.0 / height);
    assert du * width == u;
    assert dv * height == v;
    assert du * (width / 2.0 - 0.5) == du * width / 2.0 - du * 0.5;
    assert dv * (height / 2.0 - 0.5) == dv * height / 2.0 - dv * 0.5;
  }

  /** A sum of `n` values in [0, 1], scaled by `1 / n`, lies in [0, 1]. */
  lemma AverageInUnit(x: real, n: real)
    requires 0.0 < n && 0.0 <= x <= n
    ensures 0.0 <= (1.0 / n) * x <= 1.0
  {
    var r := 1.0 / n;
    assert r * n == 1.0;
    MulNonNegative(r, x);
    MulAtMost(r, x, n);
  }

  /** `(a p + b q)^2` expanded. */
  lemma SquareOfSum(a: real, p: real, b: real, q: real)
    ensures (p * a + q * b) * (p * a + q * b) == a * a * (p * p) + b * b * (q * q) + 2.0 * (a * b) * (p * q)
  {
  }

  /** The squared length of `a p + b q`, for three-component `p` and `q`, expanded. */
  lemma CombinationSquared(a: real, b: real, p1: real, p2: real, p3: real, q1: real, q2: real, q3: real)
    ensures (p1 * a + q1 * b) * (p1 * a + q1 * b) + (p2 * a + q2 * b) * (p2 * a + q2 * b)
              + (p3 * a + q3 * b) * (p3 * a + q3 * b)
            == a * a * (p1 * p1 + p2 * p2 + p3 * p3) + b * b * (q1 * q1 + q2 * q2 + q3 * q3)
              + 2.0 * (a * b) * (p1 * q1 + p2 * q2 + p3 * q3)
  {
    SquareOfSum(a, p1, b, q1);
    SquareOfSum(a, p2, b, q2);
    SquareOfSum(a, p3, b, q3);
    var aa, bb, ab := a * a, b * b, a * b;
    assert aa * (p1 * p1 + p2 * p2 + p3 * p3) == aa * (p1 * p1) + aa * (p2 * p2) + aa * (p3 * p3);
    assert bb * (q1 * q1 + q2 * q2 + q3 * q3) == bb * (q1 * q1) + bb * (q2 * q2) + bb * (q3 * q3);
    assert 2.0 * ab * (p1 * q1 + p2 * q2 + p3 * q3) == 2.0 * ab * (p1 * q1) + 2.0 * ab * (p2 * q2) + 2.0 * ab * (p3 * q3);
  }

  /**
   * `a p + b q` for orthogonal `p` and `q` of squared length `r2` and a point (a, b) of the
   * open unit disk has squared length below `r2`.
   */
  lemma DiskCombination(a: real, b: real, p1: real, p2: real, p3: real, q1: real, q2: real, q3: real, r2: real)
    requires p1 * p1 + p2 * p2 + p3 * p3 == r2 && q1 * q1 + q2 * q2 + q3 * q3 == r2
    requires p1 * q1 + p2 * q2 + p3 * q3 == 0.0
    requires a * a + b * b < 1.0 && 0.0 < r2
    ensures (p1 * a + q1 * b) * (p1 * a + q1 * b) + (p2 * a + q2 * b) * (p2 * a + q2 * b)
              + (p3 * a + q3 * b) * (p3 * a + q3 * b) < r2
  {
    CombinationSquared(a, b, p1, p2, p3, q1, q2, q3);
    var aa, bb := a * a, b * b;
    assert aa * r2 + bb * r2 == (aa + bb) * r2;
    MulStrictlyMonotone(r2, aa + bb, 1.0);
  }

  /** One more row of `w` three-byte pixels. */
  lemma RowsStep(n: int, w: int)
    ensures 3 * n * w == 3 * (n - 1) * w + 3 * w
  {
  }

  /** Cell (i, j) starts `3 i` bytes after the `j` rows before it. */
  lemma CellOffset(i: int, j: int, w: int)
    ensures 3 * (j * w + i) == 3 * j * w + 3 * i
  {
  }
}
