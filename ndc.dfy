/** The viewport mapper (`setViewPort`) and the NDC test (`isInNDC`) of
    main.c, with the corrected half-open test the drawing routines need. */
module Ndc {
  import opened Common

  /** C's float-to-int conversion: truncation toward zero. */
  function Trunc(r: real): (t: int)
    ensures r >= 0.0 ==> t as real <= r < t as real + 1.0
    ensures r < 0.0 ==> t as real - 1.0 < r <= t as real
  {
    if r >= 0.0 then r.Floor else -((-r).Floor)
  }

  /** One coordinate of the viewport map: `(c + 1) * dim / 2`, truncated. */
  function ViewCoord(c: real, dim: int): int
  {
    Trunc((c + 1.0) * dim as real / 2.0)
  }

  /** `setViewPort`: NDC point to pixel; z is ignored. */
  function SetViewPort(p: PointF): (s: Point)
    ensures s.x == ViewCoord(p.x, WIDTH) && s.y == ViewCoord(p.y, HEIGHT)
  {
    Point(ViewCoord(p.x, WIDTH), ViewCoord(p.y, HEIGHT))
  }

  /** `isInNDC`: the closed square [-1,1] x [-1,1]; z is never consulted. */
  predicate IsInNDC(p: PointF)
  {
    -1.0 <= p.x && -1.0 <= p.y && 1.0 >= p.x && 1.0 >= p.y
  }

  /** The test the drawing routines need: the half-open square [-1,1) x [-1,1),
      exactly the NDC points whose viewport pixel lies inside the raster. This
      holds over the reals the model computes with. In C's `float` arithmetic
      the largest float below 1.0, 1 - 2^-24, gives `x + 1.0f == 2.0f` and so
      lands on pixel 2048 as well; there a robust fix bounds the converted
      pixel coordinate rather than the NDC value. */
  predicate InRasterNDC(p: PointF)
  {
    -1.0 <= p.x < 1.0 && -1.0 <= p.y < 1.0
  }

  /** `isInNDC` never reads z: two points that differ only in z are both in
      or both out. */
  lemma IsInNDCIgnoresZ(p: PointF, z: real)
    ensures IsInNDC(p) <==> IsInNDC(PointF(p.x, p.y, z))
  {
  }

  /** The viewport coordinate of a point of [-1,1) is a pixel index of [0, dim). */
  lemma ViewCoordInRange(c: real, dim: int)
    requires -1.0 <= c < 1.0
    requires dim > 0
    ensures 0 <= ViewCoord(c, dim) < dim
  {
    ScaledInRange(c, dim);
    TruncInRange((c + 1.0) * dim as real / 2.0, dim);
  }

  /** Before truncation, a point of [-1,1) scales into [0, dim). */
  lemma ScaledInRange(c: real, dim: int)
    requires -1.0 <= c < 1.0
    requires dim > 0
    ensures 0.0 <= (c + 1.0) * dim as real / 2.0 < dim as real
  {
    HalfProductBelow(c + 1.0, dim as real);
  }

  /** Truncating a real of [0, dim) gives an index of [0, dim). */
  lemma TruncInRange(r: real, dim: int)
    requires 0.0 <= r < dim as real
    ensures 0 <= Trunc(r) < dim
  {
  }

  /** Half of `a * d` lies in [0, d) when `a` lies in [0, 2). */
  lemma HalfProductBelow(a: real, d: real)
    requires 0.0 <= a < 2.0 && d > 0.0
    ensures 0.0 <= a * d / 2.0 < d
  {
    MulNonNeg(a, d);
    MulPos(2.0 - a, d);
    assert (2.0 - a) * d == 2.0 * d - a * d;
  }

  /** The closed upper NDC bound maps to `dim`, one past the last pixel. */
  lemma ViewCoordAtUpperBound(dim: int)
    ensures ViewCoord(1.0, dim) == dim
  {
    var r := (1.0 + 1.0) * dim as real / 2.0;
    assert r == dim as real;
  }

  /** The viewport map is monotone non-decreasing in the NDC coordinate. */
  lemma ViewCoordMonotone(c1: real, c2: real, dim: int)
    requires c1 <= c2
    requires dim >= 0
    ensures ViewCoord(c1, dim) <= ViewCoord(c2, dim)
  {
    var r1 := (c1 + 1.0) * dim as real / 2.0;
    var r2 := (c2 + 1.0) * dim as real / 2.0;
    assert r1 <= r2 by {
      MulNonNeg(c2 - c1, dim as real);
      assert (c2 - c1) * dim as real >= 0.0;
    }
  }

  /** NDC -> pixel -> NDC recovers the coordinate to within one pixel width:
      feeding back `2*px/dim - 1` lands in (c - 2/dim, c]. */
  lemma ViewCoordRoundTrip(c: real, dim: int)
    requires -1.0 <= c <= 1.0
    requires dim > 0
    ensures var back := 2.0 * ViewCoord(c, dim) as real / dim as real - 1.0;
            c - 2.0 / dim as real < back <= c
  {
    var d := dim as real;
    var r := (c + 1.0) * d / 2.0;
    var px := ViewCoord(c, dim);
    assert px as real <= r < px as real + 1.0 by {
      MulNonNeg(c + 1.0, d);
    }
    var lo, x, hi := 2.0 * px as real, (c + 1.0) * d, 2.0 * px as real + 2.0;
    assert lo / d <= x / d < hi / d by {
      QuotientBounds(lo, x, hi, d);
    }
    assert x / d == c + 1.0 by {
      DivCancel(c + 1.0, d);
    }
    assert hi / d == lo / d + 2.0 / d by {
      DivSum(lo, 2.0, d);
    }
  }

  lemma DivCancel(y: real, d: real)
    requires d != 0.0
    ensures (y * d) / d == y
  {
  }

  lemma DivSum(a: real, b: real, d: real)
    requires d != 0.0
    ensures (a + b) / d == a / d + b / d
  {
  }

  /** Dividing by a positive number keeps `lo <= x < hi`. */
  lemma QuotientBounds(lo: real, x: real, hi: real, d: real)
    requires d > 0.0
    requires lo <= x < hi
    ensures lo / d <= x / d < hi / d
  {
    var q1, q2, q3 := lo / d, x / d, hi / d;
    assert (q1 - q2) * d == lo - x;
    assert (q2 - q3) * d == x - hi;
    if q1 > q2 {
      MulPos(q1 - q2, d);
    }
    if q2 >= q3 {
      MulNonNeg(q2 - q3, d);
    }
  }

  /** A point accepted by `isInNDC` at the upper edge: the viewport maps it to
      (WIDTH, HEIGHT), which is not a pixel of the raster. */
  lemma UpperCornerLeavesRaster()
    ensures IsInNDC(PointF(1.0, 1.0, 0.0))
    ensures !InRasterNDC(PointF(1.0, 1.0, 0.0))
    ensures SetViewPort(PointF(1.0, 1.0, 0.0)) == Point(WIDTH, HEIGHT)
  {
    ViewCoordAtUpperBound(WIDTH);
    ViewCoordAtUpperBound(HEIGHT);
  }

  /** The corrected test keeps the viewport inside the raster, and differs
      from `isInNDC` exactly on the points that map onto the edge WIDTH or
      HEIGHT. */
  lemma InRasterNDCViewPort(p: PointF)
    ensures InRasterNDC(p) ==> IsInNDC(p)
    ensures InRasterNDC(p) ==>
      0 <= SetViewPort(p).x < WIDTH && 0 <= SetViewPort(p).y < HEIGHT
    ensures IsInNDC(p) && !InRasterNDC(p) ==>
      SetViewPort(p).x == WIDTH || SetViewPort(p).y == HEIGHT
  {
    if InRasterNDC(p) {
      ViewCoordInRange(p.x, WIDTH);
      ViewCoordInRange(p.y, HEIGHT);
    }
    if IsInNDC(p) && !InRasterNDC(p) {
      if p.x == 1.0 {
        ViewCoordAtUpperBound(WIDTH);
      } else {
        ViewCoordAtUpperBound(HEIGHT);
      }
    }
  }
}
