/** The line rasteriser of the map previews (web/bsp.js, `line`), on its rounded integer endpoints. */
module Bresenham {
  import opened Extrema

  datatype Point = Point(x: int, y: int)

  function Abs(n: int): nat { if n < 0 then -n else n }

  function Sign(from: int, to: int): int { if from < to then 1 else -1 }

  /** k/n of m, rounded to the nearest integer, halves down. */
  function Nearest(k: nat, m: nat, n: nat): int
    requires n > 0
  {
    (2 * k * m + n - 1) / (2 * n)
  }

  /** The k-th pixel of the ideal line: k steps along the longer axis and, along the shorter one, the
      nearest pixel to the true line. */
  function IdealPixel(a: Point, b: Point, k: nat): Point {
    var dx, dy := Abs(b.x - a.x), Abs(b.y - a.y);
    var n := Max(dx, dy);
    if n == 0 then a
    else if dx >= dy then Point(a.x + Sign(a.x, b.x) * k, a.y + Sign(a.y, b.y) * Nearest(k, dy, n))
    else Point(a.x + Sign(a.x, b.x) * Nearest(k, dx, n), a.y + Sign(a.y, b.y) * k)
  }

  /** Every pixel, from one endpoint to the other. */
  function IdealLine(a: Point, b: Point): seq<Point> {
    seq(Max(Abs(b.x - a.x), Abs(b.y - a.y)) + 1, k requires k >= 0 => IdealPixel(a, b, k))
  }

  // ---- rounding --------------------------------------------------------------------------------

  /** Nearest is the integer j with 0 - n <= 2(n*j - k*m) < n. */
  lemma NearestIs(k: nat, m: nat, n: nat, j: int)
    requires n > 0 && 0 - n <= 2 * (n * j - k * m) < n
    ensures Nearest(k, m, n) == j
  {
    var v := 2 * k * m + n - 1;
    var r := v - 2 * n * j;
    assert k * m * 2 == 2 * k * m && n * j * 2 == 2 * n * j;
    assert 0 <= r < 2 * n;
    QuotientIs(v, 2 * n, j, r);
  }

  lemma QuotientIs(v: int, d: nat, q: int, r: int)
    requires d > 0 && 0 <= r < d && v == d * q + r
    ensures v / d == q
  {
    var k := q - v / d;
    assert v == d * (v / d) + v % d;
    assert d * k == d * q - d * (v / d);
    SmallMultiple(d, k);
  }

  lemma SmallMultiple(d: nat, k: int)
    requires d > 0 && 0 - d < d * k < d
    ensures k == 0
  {
  }

  lemma SignOfProduct(n: nat, d: int)
    requires n > 0
    ensures n * d > 0 <==> d > 0
  {
  }

  /** Comparing products with a positive factor. */
  lemma Cancel(n: nat, a: int, b: int)
    requires n > 0
    ensures n * a < n * b <==> a < b
  {
    assert n * b - n * a == n * (b - a);
    SignOfProduct(n, b - a);
  }

  /** The rounded value is within half a step of the true one, and between 0 and m. */
  lemma NearestBounds(k: nat, m: nat, n: nat)
    requires n > 0 && k <= n
    ensures var j := Nearest(k, m, n); 0 - n <= 2 * (n * j - k * m) < n && 0 <= j <= m
  {
    var v, j := 2 * k * m + n - 1, Nearest(k, m, n);
    assert v == 2 * n * j + v % (2 * n);
    assert 2 * n * j == 2 * (n * j) && 2 * k * m == 2 * (k * m);
    InRange(k, m, n, j);
  }

  /** The rounded line runs from one end to the other. */
  lemma NearestEnds(m: nat, n: nat)
    requires n > 0
    ensures Nearest(n, m, n) == m && Nearest(0, m, n) == 0
  {
    NearestIs(n, m, n, m);
    NearestIs(0, m, n, 0);
  }

  lemma NearestAtEnd(k: nat, m: nat, n: nat)
    requires n > 0 && k <= n
    ensures 0 <= Nearest(k, m, n) <= m && (k == n ==> Nearest(k, m, n) == m)
  {
    hide Nearest;
    NearestBounds(k, m, n);
    NearestEnds(m, n);
  }

  lemma InRange(k: nat, m: nat, n: nat, j: int)
    requires n > 0 && k <= n && 0 - n <= 2 * (n * j - k * m) < n
    ensures 0 <= j <= m
  {
    assert k * m <= n * m && 0 <= k * m;
    assert n * (m + 1) == n * m + n;
    Cancel(n, j, m + 1);
    assert n * -1 == 0 - n;
    Cancel(n, -1, j);
  }

  // ---- the loop --------------------------------------------------------------------------------

  /** d = dx*j - dy*i, the signed distance of the current pixel from the true line, stays within half
      of the longer side, on the side the tie rule chooses. */
  predicate Near(dx: nat, dy: nat, d: int) {
    if dx >= dy then 0 - dx <= 2 * d && (dx > 0 ==> 2 * d < dx) && (dx == dy ==> d == 0)
    else 0 - dy < 2 * d <= dy
  }

  /** One iteration's two tests: the longer axis always steps, and the distance stays near. */
  lemma StepStaysNear(dx: nat, dy: nat, d: int)
    requires Near(dx, dy, d) && Max(dx, dy) > 0
    ensures var e2 := 2 * (d + dx - dy); var stepX, stepY := e2 > 0 - dy, e2 < dx;
      && (dx >= dy ==> stepX) && (dx <= dy ==> stepY)
      && Near(dx, dy, d - (if stepX then dy else 0) + (if stepY then dx else 0))
  {
  }

  /** A near pixel k steps along the longer axis is the ideal one. */
  lemma NearIsIdeal(dx: nat, dy: nat, i: nat, j: nat)
    requires Near(dx, dy, dx * j - dy * i) && Max(dx, dy) > 0
    ensures dx >= dy ==> j == Nearest(i, dy, dx)
    ensures dx < dy ==> i == Nearest(j, dx, dy)
  {
    if dx >= dy { NearestIs(i, dy, dx, j); } else { NearestIs(j, dx, dy, i); }
  }

  lemma PlotIsIdeal(a: Point, b: Point, i: nat, j: nat)
    requires var dx, dy := Abs(b.x - a.x), Abs(b.y - a.y); Near(dx, dy, dx * j - dy * i) && (dx == dy == 0 ==> i == j == 0)
    ensures var dx, dy := Abs(b.x - a.x), Abs(b.y - a.y);
      Point(a.x + Sign(a.x, b.x) * i, a.y + Sign(a.y, b.y) * j) == IdealPixel(a, b, if dx >= dy then i else j)
  {
    var dx, dy := Abs(b.x - a.x), Abs(b.y - a.y);
    if Max(dx, dy) > 0 { NearIsIdeal(dx, dy, i, j); }
    hide Near, Nearest;
  }

  /** The points handed to `blend`, in order. */
  method Line(a: Point, b: Point) returns (plotted: seq<Point>)
    ensures plotted == IdealLine(a, b)
  {
    hide Near, Nearest, IdealPixel;
    var dx, dy := Abs(b.x - a.x), Abs(b.y - a.y);
    var sx := if a.x < b.x then 1 else -1;
    var sy := if a.y < b.y then 1 else -1;
    var x, y, e := a.x, a.y, dx - dy;
    ghost var i, j: nat, d: int := 0, 0, 0;
    ghost var n := Max(dx, dy);
    plotted := [];
    NearStart(dx, dy);
    while true
      invariant x == a.x + sx * i && y == a.y + sy * j && |plotted| == (if dx >= dy then i else j) <= n
      invariant n == 0 ==> i == j == 0
      invariant d == dx * j - dy * i && e == d + dx - dy && Near(dx, dy, d)
      invariant forall k :: 0 <= k < |plotted| ==> plotted[k] == IdealPixel(a, b, k)
      decreases n - |plotted|
    {
      PlotIsIdeal(a, b, i, j);
      plotted := plotted + [Point(x, y)];
      AtTarget(a, b, i, j);
      if x == b.x && y == b.y { break; }
      StepStaysNear(dx, dy, d);
      var e2 := 2 * e;
      if e2 > -dy {
        NextMultiple(dy, i);
        NextMultiple(sx, i);
        e, x := e - dy, x + sx;
        i, d := i + 1, d - dy;
      }
      if e2 < dx {
        NextMultiple(dx, j);
        NextMultiple(sy, j);
        e, y := e + dx, y + sy;
        j, d := j + 1, d + dx;
      }
    }
  }

  lemma NextMultiple(c: int, i: int)
    ensures c * (i + 1) == c * i + c
  {
  }

  lemma NearStart(dx: nat, dy: nat)
    ensures Near(dx, dy, 0)
  {
  }

  /** The loop is at its target exactly after the last step of the longer axis. */
  lemma AtTarget(a: Point, b: Point, i: nat, j: nat)
    requires var dx, dy := Abs(b.x - a.x), Abs(b.y - a.y);
      Near(dx, dy, dx * j - dy * i) && (if dx >= dy then i <= dx else j <= dy) && (dx == dy == 0 ==> j == 0)
    ensures var dx, dy := Abs(b.x - a.x), Abs(b.y - a.y);
      (a.x + Sign(a.x, b.x) * i == b.x && a.y + Sign(a.y, b.y) * j == b.y) <==> (if dx >= dy then i == dx else j == dy)
  {
    var dx, dy := Abs(b.x - a.x), Abs(b.y - a.y);
    if Max(dx, dy) > 0 {
      NearIsIdeal(dx, dy, i, j);
      if dx >= dy { NearestAtEnd(i, dy, dx); } else { NearestAtEnd(j, dx, dy); }
    }
    hide Near, Nearest;
    assert a.x + Sign(a.x, b.x) * i == b.x <==> i == dx;
    assert a.y + Sign(a.y, b.y) * j == b.y <==> j == dy;
  }

  // ---- what the ideal line is ------------------------------------------------------------------

  /** The line starts and ends exactly at its endpoints, with one pixel per step of the longer axis. */
  lemma LineJoinsEndpoints(a: Point, b: Point)
    ensures var l := IdealLine(a, b);
      |l| == Max(Abs(b.x - a.x), Abs(b.y - a.y)) + 1 && l[0] == a && l[|l| - 1] == b
  {
    var dx, dy := Abs(b.x - a.x), Abs(b.y - a.y);
    hide Nearest;
    if dx >= dy > 0 || dx > dy { NearestEnds(dy, dx); }
    if dx < dy { NearestEnds(dx, dy); }
  }

  /** No pixel leaves the endpoints' bounding box, and every pixel is within half a pixel of the true
      line: 2 |dx*j - dy*i| <= max(dx, dy). */
  lemma PixelsAreClose(a: Point, b: Point, k: nat)
    requires k <= Max(Abs(b.x - a.x), Abs(b.y - a.y))
    ensures var p, dx, dy := IdealPixel(a, b, k), Abs(b.x - a.x), Abs(b.y - a.y);
      && Min(a.x, b.x) <= p.x <= Max(a.x, b.x) && Min(a.y, b.y) <= p.y <= Max(a.y, b.y)
      && 2 * Abs(dx * Abs(p.y - a.y) - dy * Abs(p.x - a.x)) <= Max(dx, dy)
  {
    var dx, dy := Abs(b.x - a.x), Abs(b.y - a.y);
    if dx >= dy && dx > 0 {
      NearestBounds(k, dy, dx);
      assert dy * k == k * dy;
    } else if dx < dy {
      NearestBounds(k, dx, dy);
      assert dx * k == k * dx;
    }
    hide Nearest;
  }

  lemma NearestSteps(k: nat, m: nat, n: nat)
    requires n > 0 && m <= n && k < n
    ensures Nearest(k, m, n) <= Nearest(k + 1, m, n) <= Nearest(k, m, n) + 1
  {
    NearestBounds(k, m, n);
    NearestBounds(k + 1, m, n);
    hide Nearest;
    var j, i := Nearest(k, m, n), Nearest(k + 1, m, n);
    assert (k + 1) * m == k * m + m;
    Ordered(n, m, k * m, j, i);
  }

  lemma Ordered(n: nat, m: nat, km: int, j: int, i: int)
    requires n > 0 && m <= n
    requires 0 - n <= 2 * (n * j - km) < n && 0 - n <= 2 * (n * i - (km + m)) < n
    ensures j <= i <= j + 1
  {
    assert n * (j + 2) == n * j + 2 * n && n * (j - 1) == n * j - n;
    Cancel(n, i, j + 2);
    Cancel(n, j - 1, i);
  }

  /** The line has no gaps: each pixel touches the next, and the longer axis moves every time. */
  lemma LineIsConnected(a: Point, b: Point, k: nat)
    requires k < Max(Abs(b.x - a.x), Abs(b.y - a.y))
    ensures var p, q := IdealPixel(a, b, k), IdealPixel(a, b, k + 1);
      Max(Abs(q.x - p.x), Abs(q.y - p.y)) == 1
  {
    var dx, dy := Abs(b.x - a.x), Abs(b.y - a.y);
    if dx >= dy { NearestSteps(k, dy, dx); } else { NearestSteps(k, dx, dy); }
    hide Nearest;
  }
}
