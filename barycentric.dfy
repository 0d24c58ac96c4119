/** The barycentric evaluator of main.c (`Barycentric`): weights of a pixel
    against a screen-space triangle by the Gram-determinant (dot product)
    formula, with the facts that make its inside test meaningful. */
module BarycentricEval {
  import opened Common

  /** The three weights `(u, v, w)` written to `barycentricCoords`. */
  datatype Weights = Weights(u: real, v: real, w: real)

  function Sub(p: Point, q: Point): Point
  {
    Point(p.x - q.x, p.y - q.y)
  }

  function Dot(p: Point, q: Point): int
  {
    p.x * q.x + p.y * q.y
  }

  /** The 2D cross product: twice the signed area spanned by `p` and `q`. */
  function Cross(p: Point, q: Point): int
  {
    p.x * q.y - p.y * q.x
  }

  /** Twice the signed area of triangle (a, b, c). */
  function SignedArea(a: Point, b: Point, c: Point): int
  {
    Cross(Sub(b, a), Sub(c, a))
  }

  /** `denom = d00 * d11 - d01 * d01`, the Gram determinant of the two edges. */
  function Denom(a: Point, b: Point, c: Point): int
  {
    var v0, v1 := Sub(b, a), Sub(c, a);
    Dot(v0, v0) * Dot(v1, v1) - Dot(v0, v1) * Dot(v0, v1)
  }

  /** `Barycentric(p, a, b, c)`. The C code divides by `denom` unguarded, so a
      caller must not pass a degenerate triangle. */
  function Barycentric(p: Point, a: Point, b: Point, c: Point): (bc: Weights)
    requires Denom(a, b, c) != 0
    ensures bc.u + bc.v + bc.w == 1.0
  {
    var v0, v1, v2 := Sub(b, a), Sub(c, a), Sub(p, a);
    var d00 := Dot(v0, v0);
    var d01 := Dot(v0, v1);
    var d11 := Dot(v1, v1);
    var d20 := Dot(v2, v0);
    var d21 := Dot(v2, v1);
    var denom := d00 * d11 - d01 * d01;
    var v := (d11 * d20 - d01 * d21) as real / denom as real;
    var w := (d00 * d21 - d01 * d20) as real / denom as real;
    Weights(1.0 - v - w, v, w)
  }

  /** The inside test of `drawTriangle`: no weight is negative. */
  predicate Covered(p: Point, a: Point, b: Point, c: Point)
    requires Denom(a, b, c) != 0
  {
    var bc := Barycentric(p, a, b, c);
    !(bc.u < 0.0 || bc.v < 0.0 || bc.w < 0.0)
  }

  /** The Binet-Cauchy identity in the plane:
      (a.c)(b.d) - (a.d)(b.c) == (a x b)(c x d). */
  lemma BinetCauchy(a: Point, b: Point, c: Point, d: Point)
    ensures Dot(a, c) * Dot(b, d) - Dot(a, d) * Dot(b, c) == Cross(a, b) * Cross(c, d)
  {
    BinetCauchyExpanded(a.x, a.y, b.x, b.y, c.x, c.y, d.x, d.y);
  }

  lemma BinetCauchyExpanded(a1: int, a2: int, b1: int, b2: int, c1: int, c2: int, d1: int, d2: int)
    ensures (a1 * c1 + a2 * c2) * (b1 * d1 + b2 * d2) - (a1 * d1 + a2 * d2) * (b1 * c1 + b2 * c2)
         == (a1 * b2 - a2 * b1) * (c1 * d2 - c2 * d1)
  {
    ExpandSum(a1 * c1, a2 * c2, b1 * d1, b2 * d2);
    ExpandSum(a1 * d1, a2 * d2, b1 * c1, b2 * c2);
    ExpandDifference(a1 * b2, a2 * b1, c1 * d2, c2 * d1);
    SwapOuter(a1, c1, b1, d1);
    SwapOuter(a2, c2, b2, d2);
    SwapInner(a1, c1, b2, d2);
    SwapInner(a2, c2, b1, d1);
    SwapCross(a1, d1, b2, c2);
    SwapCross(a2, d2, b1, c1);
  }

  lemma ExpandSum(p1: int, p2: int, p3: int, p4: int)
    ensures (p1 + p2) * (p3 + p4) == p1 * p3 + p1 * p4 + p2 * p3 + p2 * p4
  {
  }

  lemma ExpandDifference(r1: int, r2: int, r3: int, r4: int)
    ensures (r1 - r2) * (r3 - r4) == r1 * r3 - r1 * r4 - r2 * r3 + r2 * r4
  {
  }

  /** Three rearrangements of a product of four factors. */
  lemma SwapOuter(w: int, x: int, y: int, z: int)
    ensures (w * x) * (y * z) == (w * z) * (y * x)
  {
  }

  lemma SwapInner(w: int, x: int, y: int, z: int)
    ensures (w * x) * (y * z) == (w * y) * (x * z)
  {
  }

  lemma SwapCross(w: int, x: int, y: int, z: int)
    ensures (w * x) * (y * z) == (w * y) * (z * x)
  {
  }

  /** Lagrange's identity in the plane: the Gram determinant is the square of
      the signed area. */
  lemma DenomIsSquaredArea(a: Point, b: Point, c: Point)
    ensures Denom(a, b, c) == SignedArea(a, b, c) * SignedArea(a, b, c)
  {
    var v0, v1 := Sub(b, a), Sub(c, a);
    BinetCauchy(v0, v1, v0, v1);
    assert Dot(v1, v0) == Dot(v0, v1);
  }

  /** `denom` is never negative, and it is zero exactly when a, b and c are
      collinear (zero signed area). */
  lemma DenomSign(a: Point, b: Point, c: Point)
    ensures Denom(a, b, c) >= 0
    ensures Denom(a, b, c) == 0 <==> SignedArea(a, b, c) == 0
  {
    DenomIsSquaredArea(a, b, c);
    var k := SignedArea(a, b, c);
    if k > 0 {
      assert k * k > 0;
    } else if k < 0 {
      assert (-k) * (-k) > 0;
    }
  }

  /** The Binet-Cauchy form of the two numerators of the C code's formulas. */
  lemma NumeratorsAreAreas(p: Point, a: Point, b: Point, c: Point)
    ensures var v0, v1, v2 := Sub(b, a), Sub(c, a), Sub(p, a);
      Dot(v1, v1) * Dot(v2, v0) - Dot(v0, v1) * Dot(v2, v1) == Cross(v2, v1) * Cross(v0, v1)
    ensures var v0, v1, v2 := Sub(b, a), Sub(c, a), Sub(p, a);
      Dot(v0, v0) * Dot(v2, v1) - Dot(v0, v1) * Dot(v2, v0) == Cross(v0, v2) * Cross(v0, v1)
  {
    var v0, v1, v2 := Sub(b, a), Sub(c, a), Sub(p, a);
    BinetCauchy(v2, v1, v0, v1);
    assert Dot(v2, v0) * Dot(v1, v1) == Dot(v1, v1) * Dot(v2, v0);
    assert Dot(v2, v1) * Dot(v1, v0) == Dot(v0, v1) * Dot(v2, v1);
    BinetCauchy(v0, v2, v0, v1);
    assert Dot(v0, v1) * Dot(v2, v0) == Dot(v0, v1) * Dot(v2, v0);
  }

  /** `a * k / (k * k) == a / k` for a non-zero k. */
  lemma CancelFactor(n: int, k: int)
    requires k != 0
    ensures (n * k) as real / (k * k) as real == n as real / k as real
  {
    var kr := k as real;
    assert (n * k) as real == n as real * kr;
    assert (k * k) as real == kr * kr;
    assert kr * kr != 0.0;
    assert (n as real * kr) / (kr * kr) == n as real / kr;
  }

  /** The weights are ratios of signed areas: u = [pbc]/[abc], v = [apc]/[abc],
      w = [abp]/[abc]. This is the edge-function formulation, independent of
      the Gram formula the C code uses. */
  lemma BarycentricIsAreaRatio(p: Point, a: Point, b: Point, c: Point)
    requires Denom(a, b, c) != 0
    ensures SignedArea(a, b, c) != 0
    ensures Barycentric(p, a, b, c).u == SignedArea(p, b, c) as real / SignedArea(a, b, c) as real
    ensures Barycentric(p, a, b, c).v == SignedArea(a, p, c) as real / SignedArea(a, b, c) as real
    ensures Barycentric(p, a, b, c).w == SignedArea(a, b, p) as real / SignedArea(a, b, c) as real
  {
    DenomSign(a, b, c);
    var k, cv, cw := SignedArea(a, b, c), SignedArea(a, p, c), SignedArea(a, b, p);
    var bc := Barycentric(p, a, b, c);
    WeightsAreAreaRatios(p, a, b, c);
    assert SignedArea(p, b, c) == k - cv - cw by {
      AreaSplit(p, a, b, c);
    }
    assert bc.u == 1.0 - cv as real / k as real - cw as real / k as real;
    SubtractQuotients(k, cv, cw);
  }

  /** `1 - n/k - m/k == (k - n - m)/k` for a non-zero k. */
  lemma SubtractQuotients(k: int, n: int, m: int)
    requires k != 0
    ensures 1.0 - n as real / k as real - m as real / k as real == (k - n - m) as real / k as real
  {
    var kr := k as real;
    var q1, q2 := n as real / kr, m as real / kr;
    assert q1 * kr == n as real && q2 * kr == m as real;
    var l := 1.0 - q1 - q2;
    assert l * kr == kr - q1 * kr - q2 * kr;
    assert l * kr == (k - n - m) as real;
    assert (l * kr) / kr == l;
  }

  /** [pbc] = [abc] - [apc] - [abp]. */
  lemma AreaSplit(p: Point, a: Point, b: Point, c: Point)
    ensures SignedArea(p, b, c) == SignedArea(a, b, c) - SignedArea(a, p, c) - SignedArea(a, b, p)
  {
    var v0, v1, v2 := Sub(b, a), Sub(c, a), Sub(p, a);
    assert Sub(b, p) == Point(v0.x - v2.x, v0.y - v2.y);
    assert Sub(c, p) == Point(v1.x - v2.x, v1.y - v2.y);
    var x0, y0, x1, y1, x2, y2 := v0.x, v0.y, v1.x, v1.y, v2.x, v2.y;
    assert (x0 - x2) * (y1 - y2) == x0 * y1 - x0 * y2 - x2 * y1 + x2 * y2;
    assert (y0 - y2) * (x1 - x2) == y0 * x1 - y0 * x2 - y2 * x1 + y2 * x2;
  }

  /** v and w of the C code's formula are [apc]/[abc] and [abp]/[abc]. */
  lemma WeightsAreAreaRatios(p: Point, a: Point, b: Point, c: Point)
    requires Denom(a, b, c) != 0
    ensures SignedArea(a, b, c) != 0
    ensures Barycentric(p, a, b, c).v == SignedArea(a, p, c) as real / SignedArea(a, b, c) as real
    ensures Barycentric(p, a, b, c).w == SignedArea(a, b, p) as real / SignedArea(a, b, c) as real
  {
    var v0, v1, v2 := Sub(b, a), Sub(c, a), Sub(p, a);
    var k := SignedArea(a, b, c);
    DenomSign(a, b, c);
    DenomIsSquaredArea(a, b, c);
    NumeratorsAreAreas(p, a, b, c);
    var nv := Dot(v1, v1) * Dot(v2, v0) - Dot(v0, v1) * Dot(v2, v1);
    var nw := Dot(v0, v0) * Dot(v2, v1) - Dot(v0, v1) * Dot(v2, v0);
    var bc := Barycentric(p, a, b, c);
    assert bc.v == nv as real / Denom(a, b, c) as real;
    assert bc.w == nw as real / Denom(a, b, c) as real;
    var cv, cw := Cross(v2, v1), Cross(v0, v2);
    assert nv == cv * k && nw == cw * k && Denom(a, b, c) == k * k;
    CancelFactor(cv, k);
    CancelFactor(cw, k);
  }

  /** p == a, b, c give the weights (1,0,0), (0,1,0), (0,0,1). */
  lemma BarycentricAtVertices(a: Point, b: Point, c: Point)
    requires Denom(a, b, c) != 0
    ensures Barycentric(a, a, b, c) == Weights(1.0, 0.0, 0.0)
    ensures Barycentric(b, a, b, c) == Weights(0.0, 1.0, 0.0)
    ensures Barycentric(c, a, b, c) == Weights(0.0, 0.0, 1.0)
  {
    var k := SignedArea(a, b, c);
    BarycentricIsAreaRatio(a, a, b, c);
    BarycentricIsAreaRatio(b, a, b, c);
    BarycentricIsAreaRatio(c, a, b, c);
    assert SignedArea(a, a, c) == 0 && SignedArea(a, b, a) == 0;
    assert SignedArea(b, b, c) == 0 && SignedArea(a, b, b) == 0;
    assert SignedArea(c, b, c) == 0 && SignedArea(a, c, c) == 0;
    assert k as real / k as real == 1.0;
  }

  /** The vector identity behind reconstruction:
      [apc] (b - a) + [abp] (c - a) == [abc] (p - a). */
  lemma AreaCombination(p: Point, a: Point, b: Point, c: Point)
    ensures var v0, v1, v2 := Sub(b, a), Sub(c, a), Sub(p, a);
      && SignedArea(a, p, c) * v0.x + SignedArea(a, b, p) * v1.x == SignedArea(a, b, c) * v2.x
      && SignedArea(a, p, c) * v0.y + SignedArea(a, b, p) * v1.y == SignedArea(a, b, c) * v2.y
  {
    var v0, v1, v2 := Sub(b, a), Sub(c, a), Sub(p, a);
    Combination(v0.x, v0.y, v1.x, v1.y, v2.x, v2.y);
  }

  lemma Combination(x0: int, y0: int, x1: int, y1: int, x2: int, y2: int)
    ensures (x2 * y1 - y2 * x1) * x0 + (x0 * y2 - y0 * x2) * x1 == (x0 * y1 - y0 * x1) * x2
    ensures (x2 * y1 - y2 * x1) * y0 + (x0 * y2 - y0 * x2) * y1 == (x0 * y1 - y0 * x1) * y2
  {
    CombinationComponent(x0, y0, x1, y1, x2, y2);
    CombinationComponent(y0, x0, y1, x1, y2, x2);
  }

  /** One coordinate of `Combination` (the other is it with x and y exchanged). */
  lemma CombinationComponent(x0: int, y0: int, x1: int, y1: int, x2: int, y2: int)
    ensures (x2 * y1 - y2 * x1) * x0 + (x0 * y2 - y0 * x2) * x1 == (x0 * y1 - y0 * x1) * x2
  {
    MulSubRight(x2 * y1, y2 * x1, x0);
    MulSubRight(x0 * y2, y0 * x2, x1);
    MulSubRight(x0 * y1, y0 * x1, x2);
  }

  /** From `(n / k) * t + (m / k) * s` with `n * t + m * s == k * r` follows
      the value r, for non-zero k. */
  lemma DivideCombination(n: int, m: int, k: int, t: int, s: int, r: int)
    requires k != 0
    requires n * t + m * s == k * r
    ensures (n as real / k as real) * t as real + (m as real / k as real) * s as real == r as real
  {
    var kr := k as real;
    var v, w := n as real / kr, m as real / kr;
    assert v * kr == n as real && w * kr == m as real;
    var lhs := v * t as real + w * s as real;
    assert lhs * kr == (v * kr) * t as real + (w * kr) * s as real;
    assert lhs * kr == (n * t + m * s) as real;
    assert lhs * kr == r as real * kr;
    assert (lhs - r as real) * kr == 0.0;
  }

  /** Multiplication distributes over a difference. */
  lemma MulSubRight(a: int, b: int, c: int)
    ensures (a - b) * c == a * c - b * c
  {
  }

  /** The weights reproduce the pixel: u a + v b + w c == p. */
  lemma BarycentricReconstructs(p: Point, a: Point, b: Point, c: Point)
    requires Denom(a, b, c) != 0
    ensures var bc := Barycentric(p, a, b, c);
      && bc.u * a.x as real + bc.v * b.x as real + bc.w * c.x as real == p.x as real
      && bc.u * a.y as real + bc.v * b.y as real + bc.w * c.y as real == p.y as real
  {
    var bc := Barycentric(p, a, b, c);
    var v0, v1, v2 := Sub(b, a), Sub(c, a), Sub(p, a);
    var k, cv, cw := SignedArea(a, b, c), SignedArea(a, p, c), SignedArea(a, b, p);
    WeightsAreAreaRatios(p, a, b, c);
    AreaCombination(p, a, b, c);
    DivideCombination(cv, cw, k, v0.x, v1.x, v2.x);
    DivideCombination(cv, cw, k, v0.y, v1.y, v2.y);
    ReconstructAxis(bc, a.x, b.x, c.x, p.x);
    ReconstructAxis(bc, a.y, b.y, c.y, p.y);
  }

  /** Weights summing to one that rebuild `p - a` from the edges `b - a`
      and `c - a` rebuild `p` from the corners, along one axis. */
  lemma ReconstructAxis(bc: Weights, ta: int, tb: int, tc: int, t: int)
    requires bc.u == 1.0 - bc.v - bc.w
    requires bc.v * (tb - ta) as real + bc.w * (tc - ta) as real == (t - ta) as real
    ensures bc.u * ta as real + bc.v * tb as real + bc.w * tc as real == t as real
  {
    assert bc.u * ta as real + bc.v * tb as real + bc.w * tc as real
        == ta as real + bc.v * (tb - ta) as real + bc.w * (tc - ta) as real;
  }

  /** Affine weights reproducing p are unique: any weights that sum to 1 and
      give p are the ones `Barycentric` computes. */
  lemma BarycentricUnique(p: Point, a: Point, b: Point, c: Point, wt: Weights)
    requires Denom(a, b, c) != 0
    requires wt.u + wt.v + wt.w == 1.0
    requires wt.u * a.x as real + wt.v * b.x as real + wt.w * c.x as real == p.x as real
    requires wt.u * a.y as real + wt.v * b.y as real + wt.w * c.y as real == p.y as real
    ensures wt == Barycentric(p, a, b, c)
  {
    var bc := Barycentric(p, a, b, c);
    BarycentricReconstructs(p, a, b, c);
    DenomSign(a, b, c);
    AffineWeightsUnique(p, a, b, c, wt, bc);
  }

  /** Two sets of affine weights that give the same point of a triangle with
      non-zero area are equal. */
  lemma AffineWeightsUnique(p: Point, a: Point, b: Point, c: Point, w1: Weights, w2: Weights)
    requires SignedArea(a, b, c) != 0
    requires w1.u + w1.v + w1.w == 1.0 && w2.u + w2.v + w2.w == 1.0
    requires w1.u * a.x as real + w1.v * b.x as real + w1.w * c.x as real == p.x as real
    requires w1.u * a.y as real + w1.v * b.y as real + w1.w * c.y as real == p.y as real
    requires w2.u * a.x as real + w2.v * b.x as real + w2.w * c.x as real == p.x as real
    requires w2.u * a.y as real + w2.v * b.y as real + w2.w * c.y as real == p.y as real
    ensures w1 == w2
  {
    var x0, y0 := (b.x - a.x) as real, (b.y - a.y) as real;
    var x1, y1 := (c.x - a.x) as real, (c.y - a.y) as real;
    WeightDifference(w1, w2, a.x, b.x, c.x, p.x);
    WeightDifference(w1, w2, a.y, b.y, c.y, p.y);
    AreaAsReal(a, b, c);
    SolveHomogeneous(w1.v - w2.v, w1.w - w2.w, x0, y0, x1, y1);
  }

  /** The signed area, computed over the reals. */
  lemma AreaAsReal(a: Point, b: Point, c: Point)
    ensures SignedArea(a, b, c) as real
         == (b.x - a.x) as real * (c.y - a.y) as real - (b.y - a.y) as real * (c.x - a.x) as real
  {
  }


  /** Two sets of affine weights giving the same coordinate differ by a
      combination of the edge vectors that vanishes. */
  lemma WeightDifference(w1: Weights, w2: Weights, ax: int, bx: int, cx: int, px: int)
    requires w1.u + w1.v + w1.w == 1.0 && w2.u + w2.v + w2.w == 1.0
    requires w1.u * ax as real + w1.v * bx as real + w1.w * cx as real == px as real
    requires w2.u * ax as real + w2.v * bx as real + w2.w * cx as real == px as real
    ensures (w1.v - w2.v) * (bx - ax) as real + (w1.w - w2.w) * (cx - ax) as real == 0.0
  {
    var a, b, c := ax as real, bx as real, cx as real;
    assert (bx - ax) as real == b - a && (cx - ax) as real == c - a;
    assert w1.u * a == a - w1.v * a - w1.w * a;
    assert w2.u * a == a - w2.v * a - w2.w * a;
  }

  /** A 2x2 homogeneous system with a non-zero determinant has only the zero
      solution. */
  lemma SolveHomogeneous(dv: real, dw: real, x0: real, y0: real, x1: real, y1: real)
    requires dv * x0 + dw * x1 == 0.0 && dv * y0 + dw * y1 == 0.0
    requires x0 * y1 - y0 * x1 != 0.0
    ensures dv == 0.0 && dw == 0.0
  {
    var kr := x0 * y1 - y0 * x1;
    assert dv * kr == y1 * (dv * x0 + dw * x1) - x1 * (dv * y0 + dw * y1);
    assert dw * kr == x0 * (dv * y0 + dw * y1) - y0 * (dv * x0 + dw * x1);
    ZeroFactor(dv, kr);
    ZeroFactor(dw, kr);
  }

  /** A product with a non-zero factor vanishes only with the other factor. */
  lemma ZeroFactor(a: real, b: real)
    requires b != 0.0 && a * b == 0.0
    ensures a == 0.0
  {
    assert a == (a * b) / b;
  }

  /** `n / k >= 0` exactly when `n * k >= 0`, for non-zero k. */
  lemma QuotientSign(n: int, k: int)
    requires k != 0
    ensures n as real / k as real >= 0.0 <==> n * k >= 0
  {
    var kr := k as real;
    var q := n as real / kr;
    assert q * kr == n as real;
    var kk := kr * kr;
    if k > 0 { MulPos(kr, kr); } else { MulPos(-kr, -kr); }
    assert kk > 0.0;
    assert (n * k) as real == q * kk;
    if q >= 0.0 {
      MulNonNeg(q, kk);
    } else {
      MulPos(-q, kk);
    }
  }

  /** The inside test in exact integers: the triangle covers p iff the three
      signed sub-areas [pbc], [apc], [abp] all have the orientation of [abc]
      (or vanish). */
  lemma CoveredIffSameOrientation(p: Point, a: Point, b: Point, c: Point)
    requires Denom(a, b, c) != 0
    ensures SignedArea(a, b, c) != 0
    ensures Covered(p, a, b, c) <==>
      var k := SignedArea(a, b, c);
      SignedArea(p, b, c) * k >= 0 && SignedArea(a, p, c) * k >= 0 && SignedArea(a, b, p) * k >= 0
  {
    var k := SignedArea(a, b, c);
    BarycentricIsAreaRatio(p, a, b, c);
    QuotientSign(SignedArea(p, b, c), k);
    QuotientSign(SignedArea(a, p, c), k);
    QuotientSign(SignedArea(a, b, p), k);
  }

  /** A covered pixel lies in the bounding box of the three vertices. */
  lemma CoveredInBoundingBox(p: Point, a: Point, b: Point, c: Point)
    requires Denom(a, b, c) != 0
    requires Covered(p, a, b, c)
    ensures Min(a.x, Min(b.x, c.x)) <= p.x <= Max(a.x, Max(b.x, c.x))
    ensures Min(a.y, Min(b.y, c.y)) <= p.y <= Max(a.y, Max(b.y, c.y))
  {
    var bc := Barycentric(p, a, b, c);
    BarycentricReconstructs(p, a, b, c);
    BoxFromWeights(bc, a, b, c, p);
  }

  /** Non-negative affine weights reproducing p place p in the bounding box. */
  lemma BoxFromWeights(wt: Weights, a: Point, b: Point, c: Point, p: Point)
    requires wt.u >= 0.0 && wt.v >= 0.0 && wt.w >= 0.0
    requires wt.u + wt.v + wt.w == 1.0
    requires wt.u * a.x as real + wt.v * b.x as real + wt.w * c.x as real == p.x as real
    requires wt.u * a.y as real + wt.v * b.y as real + wt.w * c.y as real == p.y as real
    ensures Min(a.x, Min(b.x, c.x)) <= p.x <= Max(a.x, Max(b.x, c.x))
    ensures Min(a.y, Min(b.y, c.y)) <= p.y <= Max(a.y, Max(b.y, c.y))
  {
    ConvexBetween(wt, a.x, b.x, c.x, p.x);
    ConvexBetween(wt, a.y, b.y, c.y, p.y);
  }

  /** A convex combination of three numbers lies between their minimum and
      maximum. */
  lemma ConvexBetween(wt: Weights, ta: int, tb: int, tc: int, t: int)
    requires wt.u >= 0.0 && wt.v >= 0.0 && wt.w >= 0.0
    requires wt.u + wt.v + wt.w == 1.0
    requires wt.u * ta as real + wt.v * tb as real + wt.w * tc as real == t as real
    ensures Min(ta, Min(tb, tc)) <= t <= Max(ta, Max(tb, tc))
  {
    var lo, hi := Min(ta, Min(tb, tc)), Max(ta, Max(tb, tc));
    ConvexAtLeast(wt, ta as real, tb as real, tc as real, t as real, lo as real);
    ConvexAtMost(wt, ta as real, tb as real, tc as real, t as real, hi as real);
  }

  /** A convex combination is no smaller than a bound below all it combines. */
  lemma ConvexAtLeast(wt: Weights, ta: real, tb: real, tc: real, t: real, lo: real)
    requires wt.u >= 0.0 && wt.v >= 0.0 && wt.w >= 0.0
    requires wt.u + wt.v + wt.w == 1.0
    requires wt.u * ta + wt.v * tb + wt.w * tc == t
    requires lo <= ta && lo <= tb && lo <= tc
    ensures lo <= t
  {
    MulNonNeg(wt.u, ta - lo);
    MulNonNeg(wt.v, tb - lo);
    MulNonNeg(wt.w, tc - lo);
    assert t - lo == wt.u * (ta - lo) + wt.v * (tb - lo) + wt.w * (tc - lo);
  }

  /** A convex combination is no larger than a bound above all it combines. */
  lemma ConvexAtMost(wt: Weights, ta: real, tb: real, tc: real, t: real, hi: real)
    requires wt.u >= 0.0 && wt.v >= 0.0 && wt.w >= 0.0
    requires wt.u + wt.v + wt.w == 1.0
    requires wt.u * ta + wt.v * tb + wt.w * tc == t
    requires ta <= hi && tb <= hi && tc <= hi
    ensures t <= hi
  {
    MulNonNeg(wt.u, hi - ta);
    MulNonNeg(wt.v, hi - tb);
    MulNonNeg(wt.w, hi - tc);
    assert hi - t == wt.u * (hi - ta) + wt.v * (hi - tb) + wt.w * (hi - tc);
  }
}
