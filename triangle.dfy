/** The triangle drawer of main.c (`drawTriangle`): a bounding-box scan
    filling the pixels whose barycentric weights are all non-negative, or a
    wireframe of three lines. */
module Triangle {
  import opened Common
  import opened Ndc
  import opened BarycentricEval
  import opened FrameBuffer
  import opened Line

  predicate AllInNDC(p1: PointF, p2: PointF, p3: PointF)
  {
    IsInNDC(p1) && IsInNDC(p2) && IsInNDC(p3)
  }

  /** The filled path is defined when the accepted triangle is not degenerate
      on screen (`Barycentric` divides by `denom` unguarded). */
  predicate Fillable(p1: PointF, p2: PointF, p3: PointF)
  {
    AllInNDC(p1, p2, p3) ==> Denom(SetViewPort(p1), SetViewPort(p2), SetViewPort(p3)) != 0
  }

  /** What the filled path needs so that no write leaves the raster. */
  predicate FillInRaster(p1: PointF, p2: PointF, p3: PointF)
  {
    Fillable(p1, p2, p3)
    && (AllInNDC(p1, p2, p3) ==> InRasterNDC(p1) && InRasterNDC(p2) && InRasterNDC(p3))
  }

  /** What the wireframe path needs: each of the three lines stays in the raster. */
  predicate WireInRaster(p1: PointF, p2: PointF, p3: PointF)
  {
    LineInRaster(p1, p2) && LineInRaster(p2, p3) && LineInRaster(p3, p1)
  }

  /** The covered pixels of column `x` with `lo <= y < hi`, in increasing y. */
  function ColumnHits(x: int, lo: int, hi: int, a: Point, b: Point, c: Point): seq<Point>
    requires Denom(a, b, c) != 0
    decreases hi - lo
  {
    if hi <= lo then []
    else ColumnHits(x, lo, hi - 1, a, b, c)
         + (if Covered(Point(x, hi - 1), a, b, c) then [Point(x, hi - 1)] else [])
  }

  /** The covered pixels of the box `[xlo, xhi) x [lo, hi)`, column by column. */
  function BoxHits(xlo: int, xhi: int, lo: int, hi: int, a: Point, b: Point, c: Point): seq<Point>
    requires Denom(a, b, c) != 0
    decreases xhi - xlo
  {
    if xhi <= xlo then []
    else BoxHits(xlo, xhi - 1, lo, hi, a, b, c) + ColumnHits(xhi - 1, lo, hi, a, b, c)
  }

  /** The bounding box of three pixels, as `drawTriangle` computes it. */
  function MinX(a: Point, b: Point, c: Point): int { Min(a.x, Min(b.x, c.x)) }
  function MaxX(a: Point, b: Point, c: Point): int { Max(a.x, Max(b.x, c.x)) }
  function MinY(a: Point, b: Point, c: Point): int { Min(a.y, Min(b.y, c.y)) }
  function MaxY(a: Point, b: Point, c: Point): int { Max(a.y, Max(b.y, c.y)) }

  /** The pixels the filled path of `drawTriangle` writes, in order. */
  function FilledPixels(p1: PointF, p2: PointF, p3: PointF): seq<Point>
    requires Fillable(p1, p2, p3)
  {
    if AllInNDC(p1, p2, p3) then
      var a, b, c := SetViewPort(p1), SetViewPort(p2), SetViewPort(p3);
      BoxHits(MinX(a, b, c), MaxX(a, b, c) + 1, MinY(a, b, c), MaxY(a, b, c) + 1, a, b, c)
    else []
  }

  /** The pixels the wireframe path writes: the three edges in order. */
  function WirePixels(p1: PointF, p2: PointF, p3: PointF): seq<Point>
  {
    LinePixels(p1, p2) + LinePixels(p2, p3) + LinePixels(p3, p1)
  }

  /** The pixels `drawTriangle(..., isFilled)` writes. */
  function DrawnPixels(p1: PointF, p2: PointF, p3: PointF, isFilled: int): seq<Point>
    requires isFilled != 0 ==> Fillable(p1, p2, p3)
  {
    if isFilled != 0 then FilledPixels(p1, p2, p3) else WirePixels(p1, p2, p3)
  }

  lemma {:induction false} ColumnHitsMembers(x: int, lo: int, hi: int, a: Point, b: Point, c: Point, q: Point)
    requires Denom(a, b, c) != 0
    ensures q in ColumnHits(x, lo, hi, a, b, c) <==> q.x == x && lo <= q.y < hi && Covered(q, a, b, c)
    decreases hi - lo
  {
    if hi > lo {
      ColumnHitsMembers(x, lo, hi - 1, a, b, c, q);
    }
  }

  /** One step of the column scan: pixel (x, y) is appended exactly when it
      is covered. */
  lemma ColumnStep(x: int, lo: int, y: int, a: Point, b: Point, c: Point)
    requires Denom(a, b, c) != 0
    requires lo <= y
    ensures Covered(Point(x, y), a, b, c) ==>
      ColumnHits(x, lo, y + 1, a, b, c) == ColumnHits(x, lo, y, a, b, c) + [Point(x, y)]
    ensures !Covered(Point(x, y), a, b, c) ==>
      ColumnHits(x, lo, y + 1, a, b, c) == ColumnHits(x, lo, y, a, b, c)
  {
  }

  /** One step of the box scan: column x is appended. */
  lemma BoxStep(xlo: int, x: int, lo: int, hi: int, a: Point, b: Point, c: Point)
    requires Denom(a, b, c) != 0
    requires xlo <= x
    ensures BoxHits(xlo, x + 1, lo, hi, a, b, c) == BoxHits(xlo, x, lo, hi, a, b, c) + ColumnHits(x, lo, hi, a, b, c)
  {
  }

  /** The box scan writes exactly the covered pixels of the box. */
  lemma {:induction false} BoxHitsMembers(xlo: int, xhi: int, lo: int, hi: int, a: Point, b: Point, c: Point, q: Point)
    requires Denom(a, b, c) != 0
    ensures q in BoxHits(xlo, xhi, lo, hi, a, b, c) <==>
      xlo <= q.x < xhi && lo <= q.y < hi && Covered(q, a, b, c)
    decreases xhi - xlo
  {
    if xhi > xlo {
      BoxHitsMembers(xlo, xhi - 1, lo, hi, a, b, c, q);
      ColumnHitsMembers(xhi - 1, lo, hi, a, b, c, q);
    }
  }

  /** A pixel is filled exactly when all three points pass `isInNDC` and its
      barycentric weights against the viewport triangle are non-negative: the
      bounding box loses no covered pixel. */
  lemma FilledPixelsExact(p1: PointF, p2: PointF, p3: PointF, q: Point)
    requires Fillable(p1, p2, p3)
    ensures q in FilledPixels(p1, p2, p3) <==>
      AllInNDC(p1, p2, p3) && Covered(q, SetViewPort(p1), SetViewPort(p2), SetViewPort(p3))
  {
    if AllInNDC(p1, p2, p3) {
      var a, b, c := SetViewPort(p1), SetViewPort(p2), SetViewPort(p3);
      BoxHitsMembers(MinX(a, b, c), MaxX(a, b, c) + 1, MinY(a, b, c), MaxY(a, b, c) + 1, a, b, c, q);
      if Covered(q, a, b, c) {
        CoveredInBoundingBox(q, a, b, c);
      }
    }
  }

  /** The three viewport vertices of an accepted triangle are filled. */
  lemma FilledPixelsHaveVertices(p1: PointF, p2: PointF, p3: PointF)
    requires Fillable(p1, p2, p3)
    requires AllInNDC(p1, p2, p3)
    ensures SetViewPort(p1) in FilledPixels(p1, p2, p3)
    ensures SetViewPort(p2) in FilledPixels(p1, p2, p3)
    ensures SetViewPort(p3) in FilledPixels(p1, p2, p3)
  {
    var a, b, c := SetViewPort(p1), SetViewPort(p2), SetViewPort(p3);
    BarycentricAtVertices(a, b, c);
    FilledPixelsExact(p1, p2, p3, a);
    FilledPixelsExact(p1, p2, p3, b);
    FilledPixelsExact(p1, p2, p3, c);
  }

  /** Under `FillInRaster` every filled pixel is a raster pixel. */
  lemma FilledPixelsInRaster(p1: PointF, p2: PointF, p3: PointF)
    requires FillInRaster(p1, p2, p3)
    ensures forall q :: q in FilledPixels(p1, p2, p3) ==> InRaster(q)
    ensures AllInBuffer(FilledPixels(p1, p2, p3))
  {
    forall q | q in FilledPixels(p1, p2, p3) ensures InRaster(q) && InBuffer(q) {
      var a, b, c := SetViewPort(p1), SetViewPort(p2), SetViewPort(p3);
      BoxHitsMembers(MinX(a, b, c), MaxX(a, b, c) + 1, MinY(a, b, c), MaxY(a, b, c) + 1, a, b, c, q);
      InRasterNDCViewPort(p1);
      InRasterNDCViewPort(p2);
      InRasterNDCViewPort(p3);
      RasterPixelsInBuffer(q, q);
    }
  }

  /** Under `WireInRaster` every wireframe pixel is a raster pixel, and the
      three viewport vertices are drawn when all points pass `isInNDC`. */
  lemma WirePixelsProperties(p1: PointF, p2: PointF, p3: PointF)
    requires WireInRaster(p1, p2, p3)
    ensures forall q :: q in WirePixels(p1, p2, p3) ==> InRaster(q)
    ensures AllInBuffer(WirePixels(p1, p2, p3))
    ensures AllInNDC(p1, p2, p3) ==>
      SetViewPort(p1) in WirePixels(p1, p2, p3) && SetViewPort(p2) in WirePixels(p1, p2, p3)
      && SetViewPort(p3) in WirePixels(p1, p2, p3)
  {
    LinePixelsInRaster(p1, p2);
    LinePixelsInRaster(p2, p3);
    LinePixelsInRaster(p3, p1);
    if AllInNDC(p1, p2, p3) {
      LineEndpointsAndCount(p1, p2);
      LineEndpointsAndCount(p2, p3);
    }
  }

  /** The bounding box of an accepted triangle lies in the raster. */
  lemma BoxInRaster(p1: PointF, p2: PointF, p3: PointF)
    requires FillInRaster(p1, p2, p3) && AllInNDC(p1, p2, p3)
    ensures var a, b, c := SetViewPort(p1), SetViewPort(p2), SetViewPort(p3);
      && 0 <= MinX(a, b, c) && MaxX(a, b, c) < WIDTH
      && 0 <= MinY(a, b, c) && MaxY(a, b, c) < HEIGHT
  {
    InRasterNDCViewPort(p1);
    InRasterNDCViewPort(p2);
    InRasterNDCViewPort(p3);
  }

  /** A filled triangle with a point outside NDC draws nothing. */
  lemma FilledOutsideNDCIsNoOp(p1: PointF, p2: PointF, p3: PointF)
    requires !AllInNDC(p1, p2, p3)
    ensures Fillable(p1, p2, p3)
    ensures FilledPixels(p1, p2, p3) == []
  {
  }

  /** After the filled path, each viewport vertex of an accepted
      non-degenerate triangle holds the triangle's colour. */
  lemma FilledVerticesColoured(s: seq<byte>, p1: PointF, p2: PointF, p3: PointF, c: Rgb)
    requires |s| == BUFFER_SIZE
    requires Fillable(p1, p2, p3) && AllInNDC(p1, p2, p3)
    requires AllInBuffer(FilledPixels(p1, p2, p3))
    ensures InBuffer(SetViewPort(p1)) && InBuffer(SetViewPort(p2)) && InBuffer(SetViewPort(p3))
    ensures PixelAt(PaintAll(s, FilledPixels(p1, p2, p3), c), SetViewPort(p1)) == c
    ensures PixelAt(PaintAll(s, FilledPixels(p1, p2, p3), c), SetViewPort(p2)) == c
    ensures PixelAt(PaintAll(s, FilledPixels(p1, p2, p3), c), SetViewPort(p3)) == c
  {
    FilledPixelsHaveVertices(p1, p2, p3);
    PaintAllColours(s, FilledPixels(p1, p2, p3), c, SetViewPort(p1));
    PaintAllColours(s, FilledPixels(p1, p2, p3), c, SetViewPort(p2));
    PaintAllColours(s, FilledPixels(p1, p2, p3), c, SetViewPort(p3));
  }

  /** Under `FillInRaster`, a raster pixel the filled path does not cover
      keeps its colour: the scan changes nothing outside the triangle. */
  lemma FilledKeepsUncovered(s: seq<byte>, p1: PointF, p2: PointF, p3: PointF, c: Rgb, q: Point)
    requires |s| == BUFFER_SIZE
    requires FillInRaster(p1, p2, p3)
    requires InRaster(q)
    requires !(AllInNDC(p1, p2, p3) && Covered(q, SetViewPort(p1), SetViewPort(p2), SetViewPort(p3)))
    ensures AllInBuffer(FilledPixels(p1, p2, p3)) && InBuffer(q)
    ensures PixelAt(PaintAll(s, FilledPixels(p1, p2, p3), c), q) == PixelAt(s, q)
  {
    var pts := FilledPixels(p1, p2, p3);
    FilledPixelsInRaster(p1, p2, p3);
    RasterPixelsInBuffer(q, q);
    PaintAllEffect(s, pts, c);
    var i := PixelNumber(q) * NUMBER_OF_CHANNELS;
    forall j | i <= j < i + 3 ensures !Touches(pts, j) {
      if Touches(pts, j) {
        var r :| r in pts && PixelNumber(r) == j / NUMBER_OF_CHANNELS;
        RasterPixelsInBuffer(r, q);
        FilledPixelsExact(p1, p2, p3, r);
      }
    }
  }

  /** The pixels of a column scan are pixels of the box scan that contains
      the column, and the pixels of a shorter box scan are too. */
  lemma BoxHitsParts(xlo: int, x: int, xhi: int, lo: int, hi: int, a: Point, b: Point, c: Point)
    requires Denom(a, b, c) != 0
    requires xlo <= x <= xhi
    requires AllInBuffer(BoxHits(xlo, xhi, lo, hi, a, b, c))
    ensures AllInBuffer(BoxHits(xlo, x, lo, hi, a, b, c))
    ensures x < xhi ==> AllInBuffer(ColumnHits(x, lo, hi, a, b, c))
  {
    forall q | q in BoxHits(xlo, x, lo, hi, a, b, c) ensures InBuffer(q) {
      BoxHitsMembers(xlo, x, lo, hi, a, b, c, q);
      BoxHitsMembers(xlo, xhi, lo, hi, a, b, c, q);
    }
    if x < xhi {
      forall q | q in ColumnHits(x, lo, hi, a, b, c) ensures InBuffer(q) {
        ColumnHitsMembers(x, lo, hi, a, b, c, q);
        BoxHitsMembers(xlo, xhi, lo, hi, a, b, c, q);
      }
    }
  }

  /** A covered pixel of a column scan is one of its pixels, and the pixels
      of a shorter column scan are too. */
  lemma ColumnHitsParts(x: int, lo: int, y: int, hi: int, a: Point, b: Point, c: Point)
    requires Denom(a, b, c) != 0
    requires lo <= y <= hi
    requires AllInBuffer(ColumnHits(x, lo, hi, a, b, c))
    ensures AllInBuffer(ColumnHits(x, lo, y, a, b, c))
    ensures y < hi && Covered(Point(x, y), a, b, c) ==> InBuffer(Point(x, y))
  {
    forall q | q in ColumnHits(x, lo, y, a, b, c) ensures InBuffer(q) {
      ColumnHitsMembers(x, lo, y, a, b, c, q);
      ColumnHitsMembers(x, lo, hi, a, b, c, q);
    }
    ColumnHitsMembers(x, lo, hi, a, b, c, Point(x, y));
  }

  /** The three edges of a wireframe in the buffer are each in the buffer. */
  lemma WireParts(p1: PointF, p2: PointF, p3: PointF)
    requires AllInBuffer(WirePixels(p1, p2, p3))
    ensures AllInBuffer(LinePixels(p1, p2)) && AllInBuffer(LinePixels(p2, p3))
    ensures AllInBuffer(LinePixels(p3, p1))
  {
    var l1, l2, l3 := LinePixels(p1, p2), LinePixels(p2, p3), LinePixels(p3, p1);
    forall q | q in l1 || q in l2 || q in l3 ensures InBuffer(q) {
      assert q in WirePixels(p1, p2, p3);
    }
  }

  /** `drawTriangle`: writes `DrawnPixels(point1, point2, point3, isFilled)`
      in order and nothing else. `drawTriangle` does not check its writes; the
      caller must keep them inside the buffer (`FilledPixelsInRaster` and
      `WirePixelsProperties` give sufficient conditions). */
  method DrawTriangle(red: int, green: int, blue: int, point1: PointF, point2: PointF, point3: PointF,
                      data: array<byte>, isFilled: int)
    requires data.Length == BUFFER_SIZE
    requires isFilled != 0 ==> Fillable(point1, point2, point3)
    requires AllInBuffer(DrawnPixels(point1, point2, point3, isFilled))
    modifies data
    ensures data[..] == PaintAll(old(data[..]), DrawnPixels(point1, point2, point3, isFilled),
                                 Colour(red, green, blue))
  {
    if isFilled != 0 {
      FillTriangle(red, green, blue, point1, point2, point3, data);
    } else {
      ghost var s0 := data[..];
      ghost var c := Colour(red, green, blue);
      WireParts(point1, point2, point3);
      DrawLine(red, green, blue, point1, point2, data);
      DrawLine(red, green, blue, point2, point3, data);
      DrawLine(red, green, blue, point3, point1, data);
      PaintAllAppend(s0, LinePixels(point1, point2), LinePixels(point2, point3), c);
      PaintAllAppend(s0, LinePixels(point1, point2) + LinePixels(point2, point3), LinePixels(point3, point1), c);
    }
  }

  /** The filled branch of `drawTriangle`: the bounding-box scan, x outer and
      y inner, skipping a pixel when any weight is negative. */
  method FillTriangle(red: int, green: int, blue: int, point1: PointF, point2: PointF, point3: PointF,
                      data: array<byte>)
    requires data.Length == BUFFER_SIZE
    requires Fillable(point1, point2, point3)
    requires AllInBuffer(FilledPixels(point1, point2, point3))
    modifies data
    ensures data[..] == PaintAll(old(data[..]), FilledPixels(point1, point2, point3), Colour(red, green, blue))
  {
    if IsInNDC(point1) && IsInNDC(point2) && IsInNDC(point3) {
      var p1 := SetViewPort(point1);
      var p2 := SetViewPort(point2);
      var p3 := SetViewPort(point3);
      var maxX := Max(p1.x, Max(p2.x, p3.x));
      var minX := Min(p1.x, Min(p2.x, p3.x));
      var maxY := Max(p1.y, Max(p2.y, p3.y));
      var minY := Min(p1.y, Min(p2.y, p3.y));
      assert FilledPixels(point1, point2, point3) == BoxHits(minX, maxX + 1, minY, maxY + 1, p1, p2, p3);
      FillBox(red, green, blue, minX, maxX, minY, maxY, p1, p2, p3, data);
    } else {
      assert FilledPixels(point1, point2, point3) == [];
    }
  }

  /** The outer loop of the filled branch: columns `minX` to `maxX`. */
  method FillBox(red: int, green: int, blue: int, minX: int, maxX: int, minY: int, maxY: int,
                 p1: Point, p2: Point, p3: Point, data: array<byte>)
    requires data.Length == BUFFER_SIZE
    requires Denom(p1, p2, p3) != 0
    requires AllInBuffer(BoxHits(minX, maxX + 1, minY, maxY + 1, p1, p2, p3))
    modifies data
    ensures data[..] == PaintAll(old(data[..]), BoxHits(minX, maxX + 1, minY, maxY + 1, p1, p2, p3),
                                 Colour(red, green, blue))
  {
    ghost var c := Colour(red, green, blue);
    if maxX < minX {
      return;
    }
    BoxHitsParts(minX, minX, maxX + 1, minY, maxY + 1, p1, p2, p3);
    for x := minX to maxX + 1
      invariant AllInBuffer(BoxHits(minX, x, minY, maxY + 1, p1, p2, p3))
      invariant data[..] == PaintAll(old(data[..]), BoxHits(minX, x, minY, maxY + 1, p1, p2, p3), c)
    {
      BoxHitsParts(minX, x, maxX + 1, minY, maxY + 1, p1, p2, p3);
      BoxStep(minX, x, minY, maxY + 1, p1, p2, p3);
      FillColumn(red, green, blue, x, minY, maxY, p1, p2, p3, data);
      PaintAllAppend(old(data[..]), BoxHits(minX, x, minY, maxY + 1, p1, p2, p3),
                     ColumnHits(x, minY, maxY + 1, p1, p2, p3), c);
      BoxHitsParts(minX, x + 1, maxX + 1, minY, maxY + 1, p1, p2, p3);
    }
  }

  /** The inner loop of the filled branch: column `x` from `minY` to `maxY`,
      skipping a pixel when any of its weights is negative. */
  method FillColumn(red: int, green: int, blue: int, x: int, minY: int, maxY: int,
                    p1: Point, p2: Point, p3: Point, data: array<byte>)
    requires data.Length == BUFFER_SIZE
    requires Denom(p1, p2, p3) != 0
    requires AllInBuffer(ColumnHits(x, minY, maxY + 1, p1, p2, p3))
    modifies data
    ensures data[..] == PaintAll(old(data[..]), ColumnHits(x, minY, maxY + 1, p1, p2, p3), Colour(red, green, blue))
  {
    ghost var c := Colour(red, green, blue);
    ghost var s0 := data[..];
    if maxY < minY {
      return;
    }
    ColumnHitsParts(x, minY, minY, maxY + 1, p1, p2, p3);
    for y := minY to maxY + 1
      invariant AllInBuffer(ColumnHits(x, minY, y, p1, p2, p3))
      invariant data[..] == PaintAll(s0, ColumnHits(x, minY, y, p1, p2, p3), c)
    {
      ColumnPaintStep(s0, x, minY, y, maxY + 1, p1, p2, p3, c);
      var bc := Barycentric(Point(x, y), p1, p2, p3);
      if bc.u < 0.0 || bc.v < 0.0 || bc.w < 0.0 {
        assert !Covered(Point(x, y), p1, p2, p3);
        continue;
      }
      assert Covered(Point(x, y), p1, p2, p3);
      SetPixel(red, green, blue, x, y, data);
    }
  }

  /** Testing pixel `(x, y)` of a column extends the painted hits by that
      pixel when it is covered, and by nothing otherwise. */
  lemma ColumnPaintStep(s: seq<byte>, x: int, lo: int, y: int, hi: int, a: Point, b: Point, c: Point, col: Rgb)
    requires |s| == BUFFER_SIZE && Denom(a, b, c) != 0
    requires lo <= y < hi
    requires AllInBuffer(ColumnHits(x, lo, hi, a, b, c))
    ensures AllInBuffer(ColumnHits(x, lo, y, a, b, c)) && AllInBuffer(ColumnHits(x, lo, y + 1, a, b, c))
    ensures Covered(Point(x, y), a, b, c) ==>
      InBuffer(Point(x, y)) &&
      PaintAll(s, ColumnHits(x, lo, y + 1, a, b, c), col)
        == Painted(PaintAll(s, ColumnHits(x, lo, y, a, b, c), col), Point(x, y), col)
    ensures !Covered(Point(x, y), a, b, c) ==>
      PaintAll(s, ColumnHits(x, lo, y + 1, a, b, c), col) == PaintAll(s, ColumnHits(x, lo, y, a, b, c), col)
  {
    ColumnHitsParts(x, lo, y, hi, a, b, c);
    ColumnHitsParts(x, lo, y + 1, hi, a, b, c);
    ColumnStep(x, lo, y, a, b, c);
    if Covered(Point(x, y), a, b, c) {
      var next := ColumnHits(x, lo, y + 1, a, b, c);
      assert next[..|next| - 1] == ColumnHits(x, lo, y, a, b, c);
    }
  }

}
