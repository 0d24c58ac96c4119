/** The colour buffer of main.c: an RGB byte buffer of
    `NUMBER_OF_CHANNELS * WIDTH * HEIGHT` bytes (`createBuffer`), filled by
    `clearColor` and written one pixel at a time by `setPixel`. */
module FrameBuffer {
  import opened Common

  const BUFFER_SIZE: int := NUMBER_OF_CHANNELS * WIDTH * HEIGHT

  datatype Rgb = Rgb(r: byte, g: byte, b: byte)

  /** The colour the C routines store for `int` channel arguments. */
  function Colour(red: int, green: int, blue: int): Rgb
  {
    Rgb(ToByte(red), ToByte(green), ToByte(blue))
  }

  /** Byte `k` (0, 1 or 2) of a pixel holding colour `c`. */
  function Channel(c: Rgb, k: int): byte
  {
    if k == 0 then c.r else if k == 1 then c.g else c.b
  }

  /** The pixel slot `setPixel(x, y)` addresses: `x * WIDTH + y`, so the first
      argument selects the row and the second the column. */
  function PixelNumber(q: Point): int
  {
    q.x * WIDTH + q.y
  }

  /** The three bytes of `setPixel(x, y)` lie inside the buffer. */
  predicate InBuffer(q: Point)
  {
    0 <= PixelNumber(q) < WIDTH * HEIGHT
  }

  /** A pixel of the WIDTH x HEIGHT raster. */
  predicate InRaster(q: Point)
  {
    0 <= q.x < WIDTH && 0 <= q.y < HEIGHT
  }

  predicate AllInBuffer(pts: seq<Point>)
  {
    forall q :: q in pts ==> InBuffer(q)
  }

  /** The colour stored at slot `q`. */
  function PixelAt(s: seq<byte>, q: Point): Rgb
    requires |s| == BUFFER_SIZE && InBuffer(q)
  {
    var i := PixelNumber(q) * NUMBER_OF_CHANNELS;
    Rgb(s[i], s[i + 1], s[i + 2])
  }

  /** The buffer after one `setPixel`. */
  function Painted(s: seq<byte>, q: Point, c: Rgb): (t: seq<byte>)
    requires |s| == BUFFER_SIZE && InBuffer(q)
    ensures |t| == BUFFER_SIZE
  {
    var i := PixelNumber(q) * NUMBER_OF_CHANNELS;
    s[i := c.r][i + 1 := c.g][i + 2 := c.b]
  }

  /** The buffer after `setPixel` on each point of `pts` in order. */
  function PaintAll(s: seq<byte>, pts: seq<Point>, c: Rgb): (t: seq<byte>)
    requires |s| == BUFFER_SIZE && AllInBuffer(pts)
    ensures |t| == BUFFER_SIZE
    decreases |pts|
  {
    if pts == [] then s
    else Painted(PaintAll(s, pts[..|pts| - 1], c), pts[|pts| - 1], c)
  }

  /** Byte `j` belongs to the slot of some point of `pts`. */
  predicate Touches(pts: seq<Point>, j: int)
  {
    exists q :: q in pts && PixelNumber(q) == j / NUMBER_OF_CHANNELS
  }

  /** The buffer `clearColor` leaves: every pixel holds `c`. */
  function Cleared(c: Rgb): seq<byte>
  {
    seq(BUFFER_SIZE, j requires 0 <= j => Channel(c, j % NUMBER_OF_CHANNELS))
  }

  /** `setPixel` changes exactly the three bytes of slot `q` and no other. */
  lemma PaintedEffect(s: seq<byte>, q: Point, c: Rgb)
    requires |s| == BUFFER_SIZE && InBuffer(q)
    ensures forall j :: 0 <= j < |s| ==>
      Painted(s, q, c)[j] == if j / 3 == PixelNumber(q) then Channel(c, j % 3) else s[j]
    ensures PixelAt(Painted(s, q, c), q) == c
  {
    var t := Painted(s, q, c);
    var i := PixelNumber(q) * NUMBER_OF_CHANNELS;
    forall j | 0 <= j < |s|
      ensures t[j] == if j / 3 == PixelNumber(q) then Channel(c, j % 3) else s[j]
    {
      if i <= j < i + 3 {
        assert j / 3 == PixelNumber(q);
      } else {
        assert j / 3 != PixelNumber(q);
      }
    }
  }

  /** Painting a sequence of points colours exactly the bytes of their slots
      and leaves every other byte as it was. */
  lemma {:induction false} PaintAllEffect(s: seq<byte>, pts: seq<Point>, c: Rgb)
    requires |s| == BUFFER_SIZE && AllInBuffer(pts)
    ensures forall j :: 0 <= j < |s| ==>
      PaintAll(s, pts, c)[j] == if Touches(pts, j) then Channel(c, j % 3) else s[j]
    decreases |pts|
  {
    if pts != [] {
      var init, last := pts[..|pts| - 1], pts[|pts| - 1];
      assert AllInBuffer(init) by {
        forall q | q in init ensures InBuffer(q) { assert q in pts; }
      }
      PaintAllEffect(s, init, c);
      PaintedEffect(PaintAll(s, init, c), last, c);
      forall j | 0 <= j < |s|
        ensures PaintAll(s, pts, c)[j] == if Touches(pts, j) then Channel(c, j % 3) else s[j]
      {
        if j / 3 == PixelNumber(last) {
          assert last in pts;
        } else if Touches(init, j) {
          var q :| q in init && PixelNumber(q) == j / 3;
          assert q in pts;
        } else {
          assert pts == init + [last];
        }
      }
    }
  }

  /** Every point painted holds the colour afterwards. */
  lemma PaintAllColours(s: seq<byte>, pts: seq<Point>, c: Rgb, q: Point)
    requires |s| == BUFFER_SIZE && AllInBuffer(pts)
    requires q in pts
    ensures PixelAt(PaintAll(s, pts, c), q) == c
  {
    PaintAllEffect(s, pts, c);
    var n := PixelNumber(q);
    SlotByte(n, 0);
    SlotByte(n, 1);
    SlotByte(n, 2);
    assert Touches(pts, n * 3) && Touches(pts, n * 3 + 1) && Touches(pts, n * 3 + 2);
  }

  /** Byte `k` of slot `n` lies in slot `n`, at channel `k`. */
  lemma SlotByte(n: int, k: int)
    requires 0 <= k < NUMBER_OF_CHANNELS
    ensures (n * 3 + k) / 3 == n && (n * 3 + k) % 3 == k
  {
  }

  /** Painting `p1 ++ p2` is painting `p1` and then `p2`. */
  lemma {:induction false} PaintAllAppend(s: seq<byte>, p1: seq<Point>, p2: seq<Point>, c: Rgb)
    requires |s| == BUFFER_SIZE && AllInBuffer(p1) && AllInBuffer(p2)
    ensures AllInBuffer(p1 + p2)
    ensures PaintAll(s, p1 + p2, c) == PaintAll(PaintAll(s, p1, c), p2, c)
    decreases |p2|
  {
    assert AllInBuffer(p1 + p2) by {
      forall q | q in p1 + p2 ensures InBuffer(q) { assert q in p1 || q in p2; }
    }
    if p2 != [] {
      var init := p2[..|p2| - 1];
      assert AllInBuffer(init) by {
        forall q | q in init ensures InBuffer(q) { assert q in p2; }
      }
      PaintAllAppend(s, p1, init, c);
      assert (p1 + p2)[..|p1 + p2| - 1] == p1 + init;
      assert (p1 + p2)[|p1 + p2| - 1] == p2[|p2| - 1];
    } else {
      assert p1 + p2 == p1;
    }
  }

  /** Painting the first `k + 1` points is painting the first `k` and then
      point `k`: the step a drawing loop takes. */
  lemma PaintAllPrefix(s: seq<byte>, pts: seq<Point>, k: int, c: Rgb)
    requires |s| == BUFFER_SIZE && AllInBuffer(pts)
    requires 0 <= k < |pts|
    ensures AllInBuffer(pts[..k]) && AllInBuffer(pts[..k + 1])
    ensures PaintAll(s, pts[..k + 1], c) == Painted(PaintAll(s, pts[..k], c), pts[k], c)
  {
    assert AllInBuffer(pts[..k + 1]) by {
      forall q | q in pts[..k + 1] ensures InBuffer(q) { assert q in pts; }
    }
    assert AllInBuffer(pts[..k]) by {
      forall q | q in pts[..k] ensures InBuffer(q) { assert q in pts; }
    }
    assert pts[..k + 1][..k] == pts[..k];
  }

  /** Every pixel of a cleared buffer holds the clear colour. */
  lemma ClearedPixels(c: Rgb, q: Point)
    requires InBuffer(q)
    ensures |Cleared(c)| == BUFFER_SIZE
    ensures PixelAt(Cleared(c), q) == c
  {
    var i := PixelNumber(q) * NUMBER_OF_CHANNELS;
    assert i % 3 == 0 && (i + 1) % 3 == 1 && (i + 2) % 3 == 2;
  }

  /** Every raster pixel has a slot inside the buffer (WIDTH == HEIGHT), and
      distinct raster pixels have distinct slots. */
  lemma RasterPixelsInBuffer(p: Point, q: Point)
    requires InRaster(p) && InRaster(q)
    ensures InBuffer(p)
    ensures PixelNumber(p) == PixelNumber(q) ==> p == q
  {
  }

  /** The unchecked addressing aliases: column WIDTH of one row is column 0
      of the next, and still inside the buffer. */
  lemma ColumnOverflowAliases(x: int)
    requires 0 <= x < WIDTH - 1
    ensures InBuffer(Point(x, WIDTH))
    ensures PixelNumber(Point(x, WIDTH)) == PixelNumber(Point(x + 1, 0))
  {
  }

  /** `createBuffer`: a zero-initialised buffer of `3 * width * height` bytes. */
  method CreateBuffer(width: int, height: int) returns (data: array<byte>)
    requires width >= 0 && height >= 0
    ensures fresh(data)
    ensures data.Length == NUMBER_OF_CHANNELS * width * height
    ensures forall j :: 0 <= j < data.Length ==> data[j] == 0
  {
    assert NUMBER_OF_CHANNELS * width * height >= 0 by {
      assert width * height >= 0;
    }
    data := new byte[NUMBER_OF_CHANNELS * width * height](_ => 0);
  }

  /** `clearColor`: fills every pixel of the buffer with one colour. */
  method ClearColor(red: int, green: int, blue: int, data: array<byte>)
    requires data.Length == BUFFER_SIZE
    modifies data
    ensures data[..] == Cleared(Colour(red, green, blue))
  {
    ghost var c := Colour(red, green, blue);
    var i := 0;
    while i < WIDTH * HEIGHT
      invariant 0 <= i <= WIDTH * HEIGHT
      invariant forall j :: 0 <= j < NUMBER_OF_CHANNELS * i ==> data[j] == Channel(c, j % 3)
    {
      data[i * NUMBER_OF_CHANNELS] := ToByte(red);
      data[i * NUMBER_OF_CHANNELS + 1] := ToByte(green);
      data[i * NUMBER_OF_CHANNELS + 2] := ToByte(blue);
      i := i + 1;
    }
    assert forall j :: 0 <= j < BUFFER_SIZE ==> data[..][j] == Cleared(c)[j];
  }

  /** `setPixel`: writes the three bytes of slot `(x * WIDTH + y) * 3`. The
      source does not check the index; the caller must keep it in the buffer. */
  method SetPixel(red: int, green: int, blue: int, x: int, y: int, data: array<byte>)
    requires data.Length == BUFFER_SIZE
    requires InBuffer(Point(x, y))
    modifies data
    ensures data[..] == Painted(old(data[..]), Point(x, y), Colour(red, green, blue))
  {
    var i := x * WIDTH * NUMBER_OF_CHANNELS + y * NUMBER_OF_CHANNELS;
    data[i] := ToByte(red);
    data[i + 1] := ToByte(green);
    data[i + 2] := ToByte(blue);
  }
}
