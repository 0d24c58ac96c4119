/** Shared types and constants of the renderer: the pixel and float point
    records, the fixed render resolution and the byte type of the colour
    buffer. */
module Common {

  /** Render resolution and channel count (fixed at compile time). */
  const WIDTH: int := 2048
  const HEIGHT: int := 2048
  const NUMBER_OF_CHANNELS: int := 3

  /** An `unsigned char` of the colour buffer. */
  type byte = x: int | 0 <= x < 256

  /** Integer pixel coordinates (also used for `ivec2`). */
  datatype Point = Point(x: int, y: int)

  /** A point in normalized device coordinates. */
  datatype PointF = PointF(x: real, y: real, z: real)

  /** The C conversion of an `int` to `unsigned char`: reduction modulo 256. */
  function ToByte(v: int): (b: byte)
    ensures 0 <= v < 256 ==> b == v
    ensures (v - b) % 256 == 0
  {
    v % 256
  }

  function Abs(v: int): (r: nat)
    ensures r == v || r == -v
  {
    if v < 0 then -v else v
  }

  function Max(a: int, b: int): (r: int)
    ensures r >= a && r >= b && (r == a || r == b)
  {
    if a > b then a else b
  }

  function Min(a: int, b: int): (r: int)
    ensures r <= a && r <= b && (r == a || r == b)
  {
    if a < b then a else b
  }

  /** Sign facts for real products, which the solver does not find alone. */
  lemma MulNonNeg(a: real, b: real)
    requires a >= 0.0 && b >= 0.0
    ensures a * b >= 0.0
  {
  }

  lemma MulPos(a: real, b: real)
    requires a > 0.0 && b > 0.0
    ensures a * b > 0.0
  {
  }
}
