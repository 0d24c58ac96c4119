/** The line drawer of main.c (`drawLine`): integer Bresenham between the
    viewport pixels of two NDC points, with the steep swap and the order swap. */
module Line {
  import opened Common
  import opened Ndc
  import opened FrameBuffer

  /** The endpoints after `drawLine`'s two swaps: the loop walks the major
      axis from `sx` to `ex`; `steep` records that x and y were exchanged. */
  datatype Span = Span(sx: int, sy: int, ex: int, ey: int, steep: bool)

  /** First and last endpoint of a span, back in viewport coordinates. */
  function SpanStart(sp: Span): Point
  {
    if sp.steep then Point(sp.sy, sp.sx) else Point(sp.sx, sp.sy)
  }

  function SpanEnd(sp: Span): Point
  {
    if sp.steep then Point(sp.ey, sp.ex) else Point(sp.ex, sp.ey)
  }

  /** The steep swap (`|dx| < |dy|` exchanges x and y) and then the order
      swap (`start.x > end.x` exchanges the endpoints). */
  function Normalize(s: Point, e: Point): (sp: Span)
    ensures sp.steep == (Abs(s.x - e.x) < Abs(s.y - e.y))
    ensures sp.sx <= sp.ex
    ensures Abs(sp.ey - sp.sy) <= sp.ex - sp.sx
    ensures sp.ex - sp.sx == Max(Abs(s.x - e.x), Abs(s.y - e.y))
    ensures (SpanStart(sp) == s && SpanEnd(sp) == e) || (SpanStart(sp) == e && SpanEnd(sp) == s)
  {
    var steep := Abs(s.x - e.x) < Abs(s.y - e.y);
    var sx, sy, ex, ey := if steep then s.y else s.x, if steep then s.x else s.y,
                          if steep then e.y else e.x, if steep then e.x else e.y;
    if sx > ex then Span(ex, ey, sx, sy, steep) else Span(sx, sy, ex, ey, steep)
  }

  /** How far the minor coordinate has moved when pixel `k` is written: the
      `y += ...` steps taken in the first `k` iterations. For `dx > 0` it is
      the integer m with `-dx < 2*k*ady - 2*dx*m <= dx` (MinorStepsRange). */
  function MinorSteps(dx: int, ady: int, k: int): int
    requires dx >= 0
  {
    if dx == 0 then 0 else (2 * k * ady + dx - 1) / (2 * dx)
  }

  /** The minor coordinate of pixel `k`. */
  function Minor(sp: Span, k: int): int
    requires sp.sx <= sp.ex
  {
    var m := MinorSteps(sp.ex - sp.sx, Abs(sp.ey - sp.sy), k);
    if sp.ey > sp.sy then sp.sy + m else sp.sy - m
  }

  /** The arguments `setPixel` receives in iteration `k`, as (x, y). */
  function Plot(sp: Span, k: int): Point
    requires sp.sx <= sp.ex
  {
    if sp.steep then Point(Minor(sp, k), sp.sx + k) else Point(sp.sx + k, Minor(sp, k))
  }

  function SpanPixels(sp: Span): seq<Point>
    requires sp.sx <= sp.ex
  {
    seq(sp.ex - sp.sx + 1, k requires 0 <= k => Plot(sp, k))
  }

  /** The first `n` pixels of a span, built the way the loop writes them. */
  function SpanPrefix(sp: Span, n: int): seq<Point>
    requires sp.sx <= sp.ex
    decreases n
  {
    if n <= 0 then [] else SpanPrefix(sp, n - 1) + [Plot(sp, n - 1)]
  }

  /** The pixels `drawLine(start, end)` writes, in order. */
  function LinePixels(start: PointF, end: PointF): seq<Point>
  {
    if IsInNDC(start) && IsInNDC(end)
    then SpanPixels(Normalize(SetViewPort(start), SetViewPort(end)))
    else []
  }

  /** What `drawLine` needs of its caller so that no write leaves the raster:
      accepted endpoints must not lie on the closed upper NDC edge. */
  predicate LineInRaster(start: PointF, end: PointF)
  {
    IsInNDC(start) && IsInNDC(end) ==> InRasterNDC(start) && InRasterNDC(end)
  }

  lemma MulMonotone(d: int, a: int, b: int)
    requires d >= 0 && a <= b
    ensures d * a <= d * b
  {
    assert d * b - d * a == d * (b - a);
  }

  lemma MulMonotoneRight(a: int, b: int, d: int)
    requires a <= b && d >= 0
    ensures a * d <= b * d
  {
    MulMonotone(d, a, b);
  }

  lemma MulCancelLess(d: int, a: int, b: int)
    requires d > 0 && d * a < d * b
    ensures a < b
  {
    if a >= b {
      MulMonotone(d, b, a);
    }
  }

  lemma MulNonNegInt(a: int, b: int)
    requires a >= 0 && b >= 0
    ensures a * b >= 0
  {
  }

  /** `d*lo <= n < d*(hi+1)` bounds the quotient `n / d` by `lo` and `hi`. */
  lemma QuotientRange(n: int, d: int, lo: int, hi: int)
    requires d > 0
    requires d * lo <= n < d * (hi + 1)
    ensures lo <= n / d <= hi
  {
    var r := n / d;
    assert d * r <= n < d * (r + 1) by {
      assert n == d * r + n % d && 0 <= n % d < d;
      assert d * (r + 1) == d * r + d;
    }
    MulCancelLess(d, lo, r + 1);
    MulCancelLess(d, r, hi + 1);
  }

  /** The quotient of `n` by `d` is the `q` with `d*q <= n < d*(q+1)`. */
  lemma DivUnique(n: int, d: int, q: int)
    requires d > 0
    requires d * q <= n < d * (q + 1)
    ensures n / d == q
  {
    QuotientRange(n, d, q, q);
  }

  /** The error term Bresenham keeps: `2*k*ady - 2*dx*MinorSteps` lies in
      (-dx, dx], i.e. pixel k is within half a pixel of the exact line. */
  lemma MinorStepsRange(dx: int, ady: int, k: int)
    requires dx > 0
    ensures -dx < 2 * k * ady - 2 * dx * MinorSteps(dx, ady, k) <= dx
  {
    var n, d := 2 * k * ady + dx - 1, 2 * dx;
    var m := n / d;
    assert n == d * m + n % d && 0 <= n % d < d;
    assert d * m == 2 * dx * m;
  }

  /** Conversely the error-term range determines the step count. */
  lemma MinorStepsChar(dx: int, ady: int, k: int, m: int)
    requires dx > 0
    requires -dx < 2 * k * ady - 2 * dx * m <= dx
    ensures MinorSteps(dx, ady, k) == m
  {
    var n, d := 2 * k * ady + dx - 1, 2 * dx;
    assert d * m == 2 * dx * m;
    assert d * (m + 1) == d * m + d;
    DivUnique(n, d, m);
  }

  /** The C loop's `error2` when pixel `k` is written: twice the distance,
      scaled by `dx`, between the exact line and the chosen pixel. */
  function ErrorTerm(dx: int, ady: int, k: int): int
    requires dx >= 0
  {
    2 * k * ady - 2 * dx * MinorSteps(dx, ady, k)
  }

  /** One iteration of the C loop: the error lies in (-dx, dx]; adding
      `2*ady` and, when that passes `dx`, stepping the minor axis and
      subtracting `2*dx` yields the error and the step count of pixel k+1. */
  lemma BresenhamStep(dx: int, ady: int, k: int)
    requires 0 <= ady <= dx
    ensures -dx <= ErrorTerm(dx, ady, k) <= dx
    ensures var e1 := ErrorTerm(dx, ady, k) + 2 * ady;
      if e1 > dx
      then MinorSteps(dx, ady, k + 1) == MinorSteps(dx, ady, k) + 1 && ErrorTerm(dx, ady, k + 1) == e1 - 2 * dx
      else MinorSteps(dx, ady, k + 1) == MinorSteps(dx, ady, k) && ErrorTerm(dx, ady, k + 1) == e1
  {
    var m := MinorSteps(dx, ady, k);
    assert 2 * (k + 1) * ady == 2 * k * ady + 2 * ady;
    assert 2 * dx * (m + 1) == 2 * dx * m + 2 * dx;
    if dx > 0 {
      MinorStepsRange(dx, ady, k);
      var e1 := ErrorTerm(dx, ady, k) + 2 * ady;
      if e1 > dx {
        MinorStepsChar(dx, ady, k + 1, m + 1);
      } else {
        MinorStepsChar(dx, ady, k + 1, m);
      }
    }
  }

  /** Each step moves the minor coordinate by 0 or 1 when `ady <= dx`. */
  lemma MinorStepsStep(dx: int, ady: int, k: int)
    requires 0 <= ady <= dx
    ensures MinorSteps(dx, ady, k + 1) - MinorSteps(dx, ady, k) in {0, 1}
  {
    BresenhamStep(dx, ady, k);
  }

  /** No steps are taken before pixel 0 and all `ady` of them by pixel `dx`. */
  lemma MinorStepsEnds(dx: int, ady: int)
    requires 0 <= ady <= dx
    ensures MinorSteps(dx, ady, 0) == 0
    ensures MinorSteps(dx, ady, dx) == ady
  {
    if dx > 0 {
      MinorStepsChar(dx, ady, 0, 0);
      assert 2 * dx * ady == 2 * ady * dx;
      MinorStepsChar(dx, ady, dx, ady);
    }
  }

  /** The minor coordinate stays between its two endpoint values. */
  lemma MinorStepsBounds(dx: int, ady: int, k: int)
    requires 0 <= ady <= dx && 0 <= k <= dx
    ensures 0 <= MinorSteps(dx, ady, k) <= ady
  {
    if dx > 0 {
      NumeratorBounds(dx, ady, k);
      QuotientRange(2 * k * ady + dx - 1, 2 * dx, 0, ady);
    }
  }

  /** The rounded numerator of pixel `k` lies in `[0, 2 * dx * (ady + 1))`. */
  lemma NumeratorBounds(dx: int, ady: int, k: int)
    requires 0 <= ady <= dx && 0 <= k <= dx && dx > 0
    ensures 2 * dx * 0 <= 2 * k * ady + dx - 1 < 2 * dx * (ady + 1)
  {
    MulNonNegInt(2 * k, ady);
    MulMonotoneRight(2 * k, 2 * dx, ady);
    assert 2 * dx * (ady + 1) == 2 * dx * ady + 2 * dx;
  }

  /** The span's first pixel is its start, its last pixel its end. */
  lemma SpanEndpoints(sp: Span)
    requires sp.sx <= sp.ex
    requires Abs(sp.ey - sp.sy) <= sp.ex - sp.sx
    ensures Plot(sp, 0) == SpanStart(sp)
    ensures Plot(sp, sp.ex - sp.sx) == SpanEnd(sp)
  {
    MinorStepsEnds(sp.ex - sp.sx, Abs(sp.ey - sp.sy));
  }

  /** All pixels of a span whose endpoints are raster pixels are raster pixels. */
  lemma SpanInRaster(sp: Span)
    requires sp.sx <= sp.ex
    requires Abs(sp.ey - sp.sy) <= sp.ex - sp.sx
    requires InRaster(SpanStart(sp)) && InRaster(SpanEnd(sp))
    ensures forall q :: q in SpanPixels(sp) ==> InRaster(q)
    ensures AllInBuffer(SpanPixels(sp))
  {
    var pts := SpanPixels(sp);
    forall q | q in pts ensures InRaster(q) && InBuffer(q) {
      var k :| 0 <= k < |pts| && pts[k] == q;
      MinorStepsBounds(sp.ex - sp.sx, Abs(sp.ey - sp.sy), k);
      RasterPixelsInBuffer(q, q);
    }
  }

  /** A line is drawn only when both endpoints pass `isInNDC`. */
  lemma LineOutsideNDCIsNoOp(start: PointF, end: PointF, s: seq<byte>, c: Rgb)
    requires |s| == BUFFER_SIZE
    requires !(IsInNDC(start) && IsInNDC(end))
    ensures LinePixels(start, end) == []
    ensures PaintAll(s, LinePixels(start, end), c) == s
  {
  }

  /** `isInNDC` accepts the corner (1, 1), and a line from it to itself
      writes the single pixel (WIDTH, HEIGHT), whose bytes lie past the end
      of the buffer. */
  lemma CornerLineLeavesBuffer()
    ensures var e := PointF(1.0, 1.0, 0.0);
      && IsInNDC(e)
      && LinePixels(e, e) == [Point(WIDTH, HEIGHT)]
      && !AllInBuffer(LinePixels(e, e))
  {
    var e := PointF(1.0, 1.0, 0.0);
    UpperCornerLeavesRaster();
    var sp := Normalize(SetViewPort(e), SetViewPort(e));
    assert sp == Span(WIDTH, HEIGHT, WIDTH, HEIGHT, false);
    assert Plot(sp, 0) == Point(WIDTH, HEIGHT);
    assert LinePixels(e, e) == SpanPixels(sp);
    assert |SpanPixels(sp)| == 1 && SpanPixels(sp)[0] == Plot(sp, 0);
    assert LinePixels(e, e)[0] in LinePixels(e, e);
  }

  /** Under `LineInRaster`, every written pixel is a raster pixel. */
  lemma LinePixelsInRaster(start: PointF, end: PointF)
    requires LineInRaster(start, end)
    ensures forall q :: q in LinePixels(start, end) ==> InRaster(q)
    ensures AllInBuffer(LinePixels(start, end))
  {
    if IsInNDC(start) && IsInNDC(end) {
      var s, e := SetViewPort(start), SetViewPort(end);
      InRasterNDCViewPort(start);
      InRasterNDCViewPort(end);
      SpanInRaster(Normalize(s, e));
    }
  }

  /** The line writes `max(|dx|, |dy|) + 1` pixels; the first and the last
      are the two viewport endpoints. */
  lemma LineEndpointsAndCount(start: PointF, end: PointF)
    requires IsInNDC(start) && IsInNDC(end)
    ensures var s, e, pts := SetViewPort(start), SetViewPort(end), LinePixels(start, end);
      && |pts| == Max(Abs(s.x - e.x), Abs(s.y - e.y)) + 1
      && ((pts[0] == s && pts[|pts| - 1] == e) || (pts[0] == e && pts[|pts| - 1] == s))
  {
    var sp := Normalize(SetViewPort(start), SetViewPort(end));
    SpanEndpoints(sp);
  }

  /** Consecutive pixels advance the major axis by exactly one and the minor
      axis by at most one, toward the end point (an 8-connected path). */
  lemma LineConnected(start: PointF, end: PointF, i: int)
    requires IsInNDC(start) && IsInNDC(end)
    requires 0 <= i < |LinePixels(start, end)| - 1
    ensures var sp, pts := Normalize(SetViewPort(start), SetViewPort(end)), LinePixels(start, end);
      var major := if sp.steep then pts[i + 1].y - pts[i].y else pts[i + 1].x - pts[i].x;
      var minor := if sp.steep then pts[i + 1].x - pts[i].x else pts[i + 1].y - pts[i].y;
      && major == 1
      && (if sp.ey > sp.sy then minor in {0, 1} else minor in {0, -1})
  {
    var sp := Normalize(SetViewPort(start), SetViewPort(end));
    MinorStepsStep(sp.ex - sp.sx, Abs(sp.ey - sp.sy), i);
  }

  /** Pixel `k` of a span deviates from the exact segment along the minor
      axis by at most half a pixel: `|2*dx*(minor - sy) - 2*k*dy| <= dx`. */
  lemma SpanNearIdeal(sp: Span, k: int)
    requires sp.sx <= sp.ex
    requires Abs(sp.ey - sp.sy) <= sp.ex - sp.sx
    ensures var dx, dy := sp.ex - sp.sx, sp.ey - sp.sy;
      Abs(2 * dx * (Minor(sp, k) - sp.sy) - 2 * k * dy) <= dx
  {
    var dx, dy := sp.ex - sp.sx, sp.ey - sp.sy;
    var m := MinorSteps(dx, Abs(dy), k);
    if dx > 0 {
      assert -dx < 2 * k * Abs(dy) - 2 * dx * m <= dx by {
        MinorStepsRange(dx, Abs(dy), k);
      }
      SignedError(dx, dy, k, m, Minor(sp, k) - sp.sy);
    } else {
      assert dx == 0 && dy == 0;
    }
  }

  /** The error bound in the direction of `dy`: stepping `m` times toward the
      end point keeps `|2*dx*delta - 2*k*dy| <= dx`. */
  lemma SignedError(dx: int, dy: int, k: int, m: int, delta: int)
    requires -dx < 2 * k * Abs(dy) - 2 * dx * m <= dx
    requires delta == if dy > 0 then m else -m
    ensures Abs(2 * dx * delta - 2 * k * dy) <= dx
  {
    if dy > 0 {
      assert 2 * dx * delta - 2 * k * dy == -(2 * k * Abs(dy) - 2 * dx * m);
    } else {
      assert 2 * dx * delta == -(2 * dx * m);
      assert 2 * k * dy == -(2 * k * Abs(dy));
    }
  }

  /** Every pixel of a drawn line is within half a pixel of the exact segment
      between its endpoints, measured along the minor axis. */
  lemma LineNearIdeal(start: PointF, end: PointF, k: int)
    requires IsInNDC(start) && IsInNDC(end)
    requires 0 <= k < |LinePixels(start, end)|
    ensures var sp := Normalize(SetViewPort(start), SetViewPort(end));
      var q := LinePixels(start, end)[k];
      var minor := if sp.steep then q.x else q.y;
      Abs(2 * (sp.ex - sp.sx) * (minor - sp.sy) - 2 * k * (sp.ey - sp.sy)) <= sp.ex - sp.sx
  {
    var sp := Normalize(SetViewPort(start), SetViewPort(end));
    assert LinePixels(start, end)[k] == Plot(sp, k);
    SpanNearIdeal(sp, k);
  }

  /** Pixel 0 of a span: no error and no minor steps yet. */
  lemma SpanFirst(sp: Span)
    requires sp.sx <= sp.ex && Abs(sp.ey - sp.sy) <= sp.ex - sp.sx
    ensures ErrorTerm(sp.ex - sp.sx, Abs(sp.ey - sp.sy), 0) == 0
    ensures Minor(sp, 0) == sp.sy
  {
    MinorStepsEnds(sp.ex - sp.sx, Abs(sp.ey - sp.sy));
  }

  /** `BresenhamStep` on the loop's own variables: from the minor coordinate
      `y` and the error `e` of pixel `i`, one iteration yields those of pixel
      `i + 1`. */
  lemma SpanStep(sp: Span, dx: int, ady: int, dir: int, i: int, y: int, e: int)
    requires sp.sx <= sp.ex && Abs(sp.ey - sp.sy) <= sp.ex - sp.sx
    requires dx == sp.ex - sp.sx && ady == Abs(sp.ey - sp.sy) && dir == (if sp.ey > sp.sy then 1 else -1)
    requires y == Minor(sp, i) && e == ErrorTerm(dx, ady, i)
    ensures e + ady * 2 > dx ==> Minor(sp, i + 1) == y + dir && ErrorTerm(dx, ady, i + 1) == e + ady * 2 - dx * 2
    ensures e + ady * 2 <= dx ==> Minor(sp, i + 1) == y && ErrorTerm(dx, ady, i + 1) == e + ady * 2
  {
    BresenhamStep(dx, ady, i);
  }

  /** The prefix built by appending is the prefix of `SpanPixels`. */
  lemma {:induction false} SpanPrefixIsPrefix(sp: Span, n: int)
    requires sp.sx <= sp.ex && 0 <= n <= sp.ex - sp.sx + 1
    ensures SpanPrefix(sp, n) == SpanPixels(sp)[..n]
    decreases n
  {
    if n > 0 {
      SpanPrefixIsPrefix(sp, n - 1);
      assert SpanPixels(sp)[..n] == SpanPixels(sp)[..n - 1] + [SpanPixels(sp)[n - 1]];
    }
  }

  /** Writing pixel `i` of a span extends the painted prefix by one. */
  lemma PaintNext(s: seq<byte>, sp: Span, i: int, x: int, y: int, q: Point, c: Rgb)
    requires |s| == BUFFER_SIZE
    requires sp.sx <= sp.ex && 0 <= i <= sp.ex - sp.sx
    requires AllInBuffer(SpanPixels(sp)) && AllInBuffer(SpanPrefix(sp, i))
    requires x == sp.sx + i && y == Minor(sp, i)
    requires q == if sp.steep then Point(y, x) else Point(x, y)
    ensures InBuffer(q)
    ensures AllInBuffer(SpanPrefix(sp, i + 1))
    ensures PaintAll(s, SpanPrefix(sp, i + 1), c) == Painted(PaintAll(s, SpanPrefix(sp, i), c), q, c)
  {
    SpanPixelAt(sp, i, y);
    assert q == Plot(sp, i);
    assert InBuffer(q);
    var next := SpanPrefix(sp, i + 1);
    assert next == SpanPrefix(sp, i) + [q];
    assert AllInBuffer(next) by {
      forall r | r in next ensures InBuffer(r) { assert r in SpanPrefix(sp, i) || r == q; }
    }
    assert next[..|next| - 1] == SpanPrefix(sp, i);
  }

  /** Pixel `i` of a span, given its minor coordinate `y`. */
  lemma SpanPixelAt(sp: Span, i: int, y: int)
    requires sp.sx <= sp.ex && 0 <= i <= sp.ex - sp.sx
    requires y == Minor(sp, i)
    ensures SpanPixels(sp)[i] == if sp.steep then Point(y, sp.sx + i) else Point(sp.sx + i, y)
    ensures SpanPixels(sp)[i] in SpanPixels(sp)
  {
  }

  /** The Bresenham loop of `drawLine`, run on the swapped endpoints: writes
      the pixels of the span in order, undoing the steep swap at each write. */
  method DrawSpan(red: int, green: int, blue: int, sx: int, sy: int, ex: int, ey: int, steep: bool,
                  data: array<byte>)
    requires data.Length == BUFFER_SIZE
    requires sx <= ex && Abs(ey - sy) <= ex - sx
    requires AllInBuffer(SpanPixels(Span(sx, sy, ex, ey, steep)))
    modifies data
    ensures data[..] == PaintAll(old(data[..]), SpanPixels(Span(sx, sy, ex, ey, steep)), Colour(red, green, blue))
  {
    ghost var sp := Span(sx, sy, ex, ey, steep);
    ghost var c := Colour(red, green, blue);
    ghost var s0 := data[..];
    var dx := ex - sx;
    var dy := ey - sy;
    var derror2 := Abs(dy) * 2;
    ghost var ady := Abs(dy);
    var error2 := 0;
    var y := sy;
    ghost var i := 0;
    SpanFirst(sp);
    var x := sx;
    while x <= ex
      invariant i == x - sx && 0 <= i <= dx + 1
      invariant error2 == ErrorTerm(dx, ady, i)
      invariant y == Minor(sp, i)
      invariant AllInBuffer(SpanPrefix(sp, i))
      invariant data[..] == PaintAll(s0, SpanPrefix(sp, i), c)
    {
      var px := if steep then y else x;
      var py := if steep then x else y;
      PaintNext(s0, sp, i, x, y, Point(px, py), c);
      SetPixel(red, green, blue, px, py, data);
      SpanStep(sp, dx, ady, if ey > sy then 1 else -1, i, y, error2);
      error2 := error2 + derror2;
      if error2 > dx {
        y := y + (if ey > sy then 1 else -1);
        error2 := error2 - dx * 2;
      }
      x := x + 1;
      i := i + 1;
    }
    SpanPrefixIsPrefix(sp, i);
    assert SpanPixels(sp)[..i] == SpanPixels(sp);
  }


  /** `drawLine`: writes `LinePixels(start, end)` in order and nothing else.
      `drawLine` does not check its writes; the caller must keep them inside
      the buffer (`LinePixelsInRaster` gives a sufficient condition). */
  method DrawLine(red: int, green: int, blue: int, start: PointF, end: PointF, data: array<byte>)
    requires data.Length == BUFFER_SIZE
    requires AllInBuffer(LinePixels(start, end))
    modifies data
    ensures data[..] == PaintAll(old(data[..]), LinePixels(start, end), Colour(red, green, blue))
  {
    if IsInNDC(start) && IsInNDC(end) {
      var startInPixel := SetViewPort(start);
      var endInPixel := SetViewPort(end);
      var sx, sy, ex, ey := startInPixel.x, startInPixel.y, endInPixel.x, endInPixel.y;
      var steep := false;
      if Abs(sx - ex) < Abs(sy - ey) {
        sx, sy := sy, sx;
        ex, ey := ey, ex;
        steep := true;
      }
      if sx > ex {
        sx, ex := ex, sx;
        sy, ey := ey, sy;
      }
      assert Span(sx, sy, ex, ey, steep) == Normalize(startInPixel, endInPixel);
      DrawSpan(red, green, blue, sx, sy, ex, ey, steep, data);
    }
  }
}
