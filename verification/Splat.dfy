/** The density grid of a map's heatmap before blurring (web/heatmap.js, `frameBounds`, `splat` and the two
    passes of `buildHeatmap`), in exact arithmetic. */
module Splat {
  import opened Extrema
  import opened Wrappers
  import opened Blur

  /** A frame's coordinates; None is a value that is not finite. */
  datatype Frame = Frame(x: Option<real>, y: Option<real>)

  /** A ghost is its list of frames (empty when it has none). */
  type Ghost = seq<Frame>

  datatype Box = Box(minX: real, minY: real, maxX: real, maxY: real)

  /** Where the world sits in the canvas: padded bounds, fit rectangle and scale. */
  datatype Fit = Fit(bounds: Box, ox: int, oy: int, fw: int, fh: int, sx: real, sy: real)

  predicate Finite(f: Frame) { f.x.Some? && f.y.Some? }

  // ---- pass 1: the extent ------------------------------------------------------------------------

  function Stretch(b: Option<Box>, f: Frame): Option<Box> {
    if !Finite(f) then b else
    var x, y := f.x.value, f.y.value;
    match b
    case None => Some(Box(x, y, x, y))
    case Some(b) => Some(Box(if x < b.minX then x else b.minX, if y < b.minY then y else b.minY,
                             if x > b.maxX then x else b.maxX, if y > b.maxY then y else b.maxY))
  }

  predicate Inside(b: Box, f: Frame) {
    Finite(f) ==> b.minX <= f.x.value <= b.maxX && b.minY <= f.y.value <= b.maxY
  }

  /** The box holds every frame of the first k ghosts; no box when none of them is finite. */
  ghost predicate Covers(b: Option<Box>, ghosts: seq<Ghost>, k: nat) {
    forall i, j :: 0 <= i < k && i < |ghosts| && 0 <= j < |ghosts[i]| ==> CoversFrame(b, ghosts[i][j])
  }

  ghost predicate CoversFrame(b: Option<Box>, f: Frame) { if b.None? then !Finite(f) else Inside(b.value, f) }

  predicate Proper(b: Box) { b.minX <= b.maxX && b.minY <= b.maxY }

  lemma StretchCovers(b: Option<Box>, f: Frame, g: Frame)
    ensures CoversFrame(Stretch(b, f), f)
    ensures CoversFrame(b, g) ==> CoversFrame(Stretch(b, f), g)
    ensures b.None? || Proper(b.value) ==> Stretch(b, f).None? || Proper(Stretch(b, f).value)
  {
  }

  ghost predicate Seen(ghosts: seq<Ghost>, f: Frame) { exists i :: 0 <= i < |ghosts| && f in ghosts[i] }

  /** Each side of the box goes through a finite frame. */
  ghost predicate Touched(b: Box, ghosts: seq<Ghost>) {
    && (exists f :: Seen(ghosts, f) && Finite(f) && f.x.value == b.minX)
    && (exists f :: Seen(ghosts, f) && Finite(f) && f.x.value == b.maxX)
    && (exists f :: Seen(ghosts, f) && Finite(f) && f.y.value == b.minY)
    && (exists f :: Seen(ghosts, f) && Finite(f) && f.y.value == b.maxY)
  }

  lemma StretchTouches(b: Option<Box>, f: Frame, ghosts: seq<Ghost>)
    requires Seen(ghosts, f) && (b.Some? ==> Touched(b.value, ghosts))
    ensures Stretch(b, f).Some? ==> Touched(Stretch(b, f).value, ghosts)
  {
    hide Seen;
  }

  // ---- the fit rectangle ---------------------------------------------------------------------------

  /** JavaScript's `Math.round`. */
  function Round(x: real): int { (x + 0.5).Floor }

  function MaxReal(a: real, b: real): real { if a > b then a else b }

  function Padding(b: Box): real {
    MaxReal(MaxReal(b.maxX - b.minX, 1.0), MaxReal(b.maxY - b.minY, 1.0)) * 0.04 + 32.0
  }

  /** The shorter side of the fit rectangle. */
  function Shorter(size: nat, short: real, long: real): int
    requires long > 0.0
  {
    Max(64, Round(size as real * (short / long)))
  }

  function FrameBounds(b: Box, size: nat): Fit
    requires Proper(b)
  {
    var pad := Padding(b);
    var p := Box(b.minX - pad, b.minY - pad, b.maxX + pad, b.maxY + pad);
    var worldW, worldH := p.maxX - p.minX, p.maxY - p.minY;
    var fw := if worldW >= worldH then size else Shorter(size, worldW, worldH);
    var fh := if worldW >= worldH then Shorter(size, worldH, worldW) else size;
    Fit(p, Round((size - fw) as real / 2.0), Round((size - fh) as real / 2.0), fw, fh,
        Scale(fw, worldW), Scale(fh, worldH))
  }

  /** Pixels per world unit: the first and the last pixel of the side are the padded bounds. */
  function Scale(side: int, world: real): real
    requires world > 0.0
  {
    (side - 1) as real / world
  }

  /** Where a frame lands in the canvas, in fractional pixels; north is up. */
  function PixelX(m: Fit, x: real): real { m.ox as real + Offset(x, m.bounds.minX, m.sx) }

  function PixelY(m: Fit, y: real): real { (m.oy + (m.fh - 1)) as real - Offset(y, m.bounds.minY, m.sy) }

  function Offset(x: real, min: real, scale: real): real { (x - min) * scale }

  lemma RatioAtMostOne(short: real, long: real)
    requires 0.0 < short <= long
    ensures short / long <= 1.0
  {
  }

  lemma ShorterFits(size: nat, short: real, long: real)
    requires size >= 64 && 0.0 < short <= long
    ensures 64 <= Shorter(size, short, long) <= size
  {
    RatioAtMostOne(short, long);
    var q := short / long;
    assert size as real * q <= size as real;
  }

  /** A side centred in the canvas stays within it. */
  lemma CentredFits(size: int, side: int)
    requires 0 <= side <= size
    ensures var o := Round((size - side) as real / 2.0); 0 <= o && o + side <= size
  {
  }

  /** A coordinate strictly between the padded bounds lands strictly between the first and last pixel. */
  lemma ScaledIsInside(x: real, min: real, max: real, side: int)
    requires min < x < max && side >= 2
    ensures 0.0 < Offset(x, min, Scale(side, max - min)) < (side - 1) as real
  {
    var world := max - min;
    var scale := Scale(side, world);
    assert scale * world == (side - 1) as real;
    assert scale > 0.0;
    assert (x - min) * scale > 0.0;
    assert (max - x) * scale > 0.0;
    assert (x - min) * scale + (max - x) * scale == world * scale;
  }

  /** A side of the fit rectangle within the canvas: a position strictly inside it has both its pixels. */
  lemma PixelsExist(o: int, side: int, size: nat, offset: real)
    requires 0 <= o && o + side <= size && 0.0 < offset < (side - 1) as real
    ensures 0 <= (o as real + offset).Floor && (o as real + offset).Floor + 1 < size
    ensures 0 <= ((o + (side - 1)) as real - offset).Floor && ((o + (side - 1)) as real - offset).Floor + 1 < size
  {
  }

  lemma FitIsInside(b: Box, size: nat)
    requires Proper(b) && size >= 64
    ensures var m := FrameBounds(b, size);
      && 64 <= m.fw <= size && 0 <= m.ox && m.ox + m.fw <= size
      && 64 <= m.fh <= size && 0 <= m.oy && m.oy + m.fh <= size
  {
    hide Shorter, Round;
    var m := FrameBounds(b, size);
    assert Padding(b) >= 32.0;
    var worldW, worldH := m.bounds.maxX - m.bounds.minX, m.bounds.maxY - m.bounds.minY;
    if worldW >= worldH { ShorterFits(size, worldH, worldW); } else { ShorterFits(size, worldW, worldH); }
    CentredFits(size, m.fw);
    CentredFits(size, m.fh);
  }

  /** For every size from 64 up: a frame within the extent lands so that all four pixels around it exist. */
  lemma FrameFits(b: Box, size: nat, f: Frame)
    requires Proper(b) && size >= 64 && Finite(f) && Inside(b, f)
    ensures var m := FrameBounds(b, size);
      && 0 <= PixelX(m, f.x.value).Floor && PixelX(m, f.x.value).Floor + 1 < size
      && 0 <= PixelY(m, f.y.value).Floor && PixelY(m, f.y.value).Floor + 1 < size
  {
    hide FrameBounds, Offset, Scale, Inside;
    FitIsInside(b, size);
    var m := FrameBounds(b, size);
    BoundsArePadded(b, size, f);
    ScaledIsInside(f.x.value, m.bounds.minX, m.bounds.maxX, m.fw);
    ScaledIsInside(f.y.value, m.bounds.minY, m.bounds.maxY, m.fh);
    PixelsExist(m.ox, m.fw, size, Offset(f.x.value, m.bounds.minX, m.sx));
    PixelsExist(m.oy, m.fh, size, Offset(f.y.value, m.bounds.minY, m.sy));
  }

  lemma BoundsArePadded(b: Box, size: nat, f: Frame)
    requires Proper(b) && Finite(f) && Inside(b, f)
    ensures var m := FrameBounds(b, size);
      && m.bounds.minX < f.x.value < m.bounds.maxX && m.bounds.minY < f.y.value < m.bounds.maxY
      && m.bounds.minX < m.bounds.maxX && m.bounds.minY < m.bounds.maxY
      && m.sx == Scale(m.fw, m.bounds.maxX - m.bounds.minX) && m.sy == Scale(m.fh, m.bounds.maxY - m.bounds.minY)
  {
    hide Shorter, Round, Scale;
    assert Padding(b) >= 32.0;
  }

  /** `Math.round` goes to the nearest integer, halves upwards. */
  lemma RoundIs(x: real)
    ensures Round(x) as real - 0.5 <= x < Round(x) as real + 0.5
  {
  }

  /** The frame of the extent: padded alike on all four sides; its longer side fills the canvas, the shorter keeps the
      aspect to half a pixel, but for a least length of 64; and it is centred to half a pixel. */
  lemma FitIsCentred(b: Box, size: nat)
    requires Proper(b) && size >= 64
    ensures var m := FrameBounds(b, size); var pad := b.minX - m.bounds.minX;
      && m.bounds.maxX - b.maxX == pad && b.minY - m.bounds.minY == pad && m.bounds.maxY - b.maxY == pad
      && pad - 32.0 >= 0.04 * (b.maxX - b.minX) && pad - 32.0 >= 0.04 * (b.maxY - b.minY) && pad - 32.0 >= 0.04
      && pad - 32.0 in [0.04 * (b.maxX - b.minX), 0.04 * (b.maxY - b.minY), 0.04]
    ensures var m := FrameBounds(b, size); var w, h := m.bounds.maxX - m.bounds.minX, m.bounds.maxY - m.bounds.minY;
      && (w >= h ==> m.fw == size && KeepsAspect(m.fh, h, size, w))
      && (w < h ==> m.fh == size && KeepsAspect(m.fw, w, size, h))
      && 2 * m.ox - 1 <= size - m.fw <= 2 * m.ox && 2 * m.oy - 1 <= size - m.fh <= 2 * m.oy
  {
    hide Shorter, Round;
    var m := FrameBounds(b, size);
    assert Padding(b) >= 32.0;
    var w, h := m.bounds.maxX - m.bounds.minX, m.bounds.maxY - m.bounds.minY;
    if w >= h { ShorterKeepsAspect(size, h, w); } else { ShorterKeepsAspect(size, w, h); }
    RoundIs((size - m.fw) as real / 2.0);
    RoundIs((size - m.fh) as real / 2.0);
  }

  /** A side has the share of the longer one that its world length has, to half a pixel. */
  predicate KeepsAspect(side: int, short: real, longer: nat, long: real)
  {
    || (side >= 64 && side as real * long - long / 2.0 <= longer as real * short <= side as real * long + long / 2.0)
    || (side == 64 && longer as real * short <= 64.0 * long)
  }

  lemma ProductIsNonNegative(a: real, b: real)
    requires a >= 0.0 && b >= 0.0
    ensures a * b >= 0.0
  {
  }

  lemma Spread(n: real, q: real, long: real, v: real)
    requires n - 0.5 <= q <= n + 0.5 && 0.0 < long && q * long == v
    ensures n * long - long / 2.0 <= v <= n * long + long / 2.0
    ensures n <= 63.0 ==> v <= 64.0 * long
  {
    var d := q - n;
    assert q * long == n * long + d * long;
    ProductIsNonNegative(0.5 - d, long);
    ProductIsNonNegative(0.5 + d, long);
    assert (0.5 - d) * long == 0.5 * long - d * long && (0.5 + d) * long == 0.5 * long + d * long;
    assert long / 2.0 == 0.5 * long;
    if n <= 63.0 {
      ProductIsNonNegative(64.0 - q, long);
      assert (64.0 - q) * long == 64.0 * long - q * long;
    }
  }

  lemma ShorterKeepsAspect(size: nat, short: real, long: real)
    requires 0.0 < short <= long
    ensures KeepsAspect(Shorter(size, short, long), short, size, long)
  {
    hide Round;
    var q := size as real * (short / long);
    RoundIs(q);
    var n := Round(q);
    assert q * long == size as real * short by { assert (short / long) * long == short; }
    Spread(n as real, q, long, size as real * short);
    assert Shorter(size, short, long) == if n < 64 then 64 else n;
    if n < 64 { assert KeepsAspect(64, short, size, long); } else { assert KeepsAspect(n, short, size, long); }
  }

  /** North is up and east is right: the padded box has its corners on the corner pixels of the fit rectangle, and
      pixels grow with x and shrink with y, in proportion. */
  lemma NorthIsUp(b: Box, size: nat, x: real, y: real, x': real, y': real)
    requires Proper(b) && size >= 64
    ensures var m := FrameBounds(b, size);
      && PixelX(m, m.bounds.minX) == m.ox as real && PixelX(m, m.bounds.maxX) == (m.ox + m.fw - 1) as real
      && PixelY(m, m.bounds.maxY) == m.oy as real && PixelY(m, m.bounds.minY) == (m.oy + m.fh - 1) as real
      && (x < x' ==> PixelX(m, x) < PixelX(m, x')) && (y < y' ==> PixelY(m, y) > PixelY(m, y'))
      && (PixelX(m, x') - PixelX(m, x)) * (m.bounds.maxX - m.bounds.minX) == (x' - x) * (m.fw - 1) as real
      && (PixelY(m, y) - PixelY(m, y')) * (m.bounds.maxY - m.bounds.minY) == (y' - y) * (m.fh - 1) as real
  {
    hide FrameBounds, Offset, Scale;
    FitIsInside(b, size);
    var m := FrameBounds(b, size);
    BoundsArePadded(b, size, Frame(Some(b.minX), Some(b.minY)));
    ScaleIsProportional(m.bounds.minX, m.bounds.maxX, m.fw, x, x');
    ScaleIsProportional(m.bounds.minY, m.bounds.maxY, m.fh, y, y');
  }

  lemma ScaleIsProportional(min: real, max: real, side: int, x: real, x': real)
    requires min < max && side >= 2
    ensures var sc := Scale(side, max - min);
      && Offset(min, min, sc) == 0.0 && Offset(max, min, sc) == (side - 1) as real
      && (x < x' ==> Offset(x, min, sc) < Offset(x', min, sc))
      && (Offset(x', min, sc) - Offset(x, min, sc)) * (max - min) == (x' - x) * (side - 1) as real
  {
    var sc := Scale(side, max - min);
    assert sc * (max - min) == (side - 1) as real;
    assert sc > 0.0;
    assert (x' - min) * sc - (x - min) * sc == (x' - x) * sc;
    assert (x' - x) * sc * (max - min) == (x' - x) * (sc * (max - min));
    if x < x' { assert (x' - x) * sc > 0.0; }
  }

  // ---- what the grid should hold -----------------------------------------------------------------

  /** The bilinear kernel in one direction: one at the frame, falling to zero one pixel away. */
  function Tent(t: real): real { if -1.0 < t <= 0.0 then 1.0 + t else if 0.0 < t < 1.0 then 1.0 - t else 0.0 }

  /** A weight at (fx, fy), as felt at pixel (x, y). */
  function Kernel(wgt: real, fx: real, fy: real, x: int, y: int): real {
    wgt * (Tent(fx - x as real) * Tent(fy - y as real))
  }

  /** The weight a frame of a ghost with n frames leaves at pixel (x, y). */
  function FrameHeat(m: Fit, n: nat, f: Frame, x: int, y: int): real
    requires n > 0
  {
    if !Finite(f) then 0.0
    else Kernel(1.0 / n as real, PixelX(m, f.x.value), PixelY(m, f.y.value), x, y)
  }

  function GhostHeat(m: Fit, g: Ghost, k: nat, x: int, y: int): real
    requires k <= |g|
  {
    if k == 0 then 0.0 else GhostHeat(m, g, k - 1, x, y) + FrameHeat(m, |g|, g[k - 1], x, y)
  }

  function Heat(m: Fit, ghosts: seq<Ghost>, k: nat, x: int, y: int): real
    requires k <= |ghosts|
  {
    if k == 0 then 0.0 else Heat(m, ghosts, k - 1, x, y) + GhostHeat(m, ghosts[k - 1], |ghosts[k - 1]|, x, y)
  }

  function FiniteFrames(g: Ghost, k: nat): (n: nat)
    requires k <= |g|
    ensures n <= k
  {
    if k == 0 then 0 else FiniteFrames(g, k - 1) + if Finite(g[k - 1]) then 1 else 0
  }

  /** A ghost's whole weight: the finite share of its frames. */
  function GhostMass(g: Ghost, k: nat): real
    requires k <= |g|
  {
    if g == [] then 0.0 else FiniteFrames(g, k) as real / |g| as real
  }

  function Mass(ghosts: seq<Ghost>, k: nat): real
    requires k <= |ghosts|
  {
    if k == 0 then 0.0 else Mass(ghosts, k - 1) + GhostMass(ghosts[k - 1], |ghosts[k - 1]|)
  }

  function Usable(ghosts: seq<Ghost>, k: nat): nat
    requires k <= |ghosts|
  {
    if k == 0 then 0 else Usable(ghosts, k - 1) + if ghosts[k - 1] == [] then 0 else 1
  }

  predicate AllFinite(g: Ghost, k: nat) { forall j :: 0 <= j < k && j < |g| ==> Finite(g[j]) }

  lemma {:induction false} FiniteFramesIff(g: Ghost, k: nat)
    requires k <= |g|
    ensures FiniteFrames(g, k) == k <==> AllFinite(g, k)
  {
    if k > 0 { FiniteFramesIff(g, k - 1); }
  }

  lemma GhostMassIff(g: Ghost)
    requires g != []
    ensures GhostMass(g, |g|) <= 1.0 && (GhostMass(g, |g|) == 1.0 <==> AllFinite(g, |g|))
  {
    FiniteFramesIff(g, |g|);
    ShareIsWhole(FiniteFrames(g, |g|), |g|);
  }

  lemma ShareIsWhole(a: nat, n: nat)
    requires n > 0 && a <= n
    ensures a as real / n as real <= 1.0 && (a as real / n as real == 1.0 <==> a == n)
  {
    var q := a as real / n as real;
    assert q * n as real == a as real;
    assert (1.0 - q) * n as real == (n - a) as real;
  }

  /** The grid's whole weight is the number of ghosts with frames, each counting once whatever its length,
      exactly when every frame is finite; otherwise it is less. */
  lemma {:induction false} MassIsGhostsIff(ghosts: seq<Ghost>, k: nat)
    requires k <= |ghosts|
    ensures Mass(ghosts, k) <= Usable(ghosts, k) as real
    ensures Mass(ghosts, k) == Usable(ghosts, k) as real
            <==> forall i :: 0 <= i < k ==> AllFinite(ghosts[i], |ghosts[i]|)
  {
    hide GhostMass, AllFinite;
    if k > 0 {
      MassIsGhostsIff(ghosts, k - 1);
      if ghosts[k - 1] == [] { EmptyGhost(); } else { GhostMassIff(ghosts[k - 1]); }
    }
  }

  lemma EmptyGhost()
    ensures GhostMass([], 0) == 0.0 && AllFinite([], 0)
  {
  }

  // ---- sums ------------------------------------------------------------------------------------------

  function Sum(s: seq<real>): real { if s == [] then 0.0 else Sum(s[..|s| - 1]) + s[|s| - 1] }

  lemma {:induction false} SumSet(s: seq<real>, i: nat, v: real)
    requires i < |s|
    ensures Sum(s[i := v]) == Sum(s) - s[i] + v
  {
    var n := |s| - 1;
    if i == n {
      assert s[i := v][..n] == s[..n];
    } else {
      SumSet(s[..n], i, v);
      assert s[i := v][..n] == s[..n][i := v];
    }
  }

  lemma {:induction false} SumZero(s: seq<real>)
    requires forall i :: 0 <= i < |s| ==> s[i] == 0.0
    ensures Sum(s) == 0.0
  {
    if s != [] { SumZero(s[..|s| - 1]); }
  }

  // ---- the splat -------------------------------------------------------------------------------------

  predicate InCanvas(w: nat, h: nat, x: int, y: int) { 0 <= x < w && 0 <= y < h }

  /** What one splat adds at a cell. */
  function Hit(x: int, y: int, v: real, cx: int, cy: int): real { if cx == x && cy == y then v else 0.0 }

  /** One splat: the cell at (x, y) gains v if it exists; no other cell changes. */
  ghost predicate Added(a: seq<real>, b: seq<real>, w: nat, h: nat, x: int, y: int, v: real)
    requires |a| == |b| == h * w
  {
    forall cy: nat, cx: nat :: cy < h && cx < w ==> b[Ix(w, h, cy, cx)] == a[Ix(w, h, cy, cx)] + Hit(x, y, v, cx, cy)
  }

  lemma AddedAt(a: seq<real>, b: seq<real>, w: nat, h: nat, x: int, y: int, v: real, cy: nat, cx: nat)
    requires |a| == |b| == h * w && cy < h && cx < w && Added(a, b, w, h, x, y, v)
    ensures b[Ix(w, h, cy, cx)] == a[Ix(w, h, cy, cx)] + Hit(x, y, v, cx, cy)
  {
  }

  method SplatCell(grid: array<real>, w: nat, h: nat, x: int, y: int, v: real)
    requires grid.Length == h * w
    modifies grid
    ensures Added(old(grid[..]), grid[..], w, h, x, y, v)
    ensures Sum(grid[..]) == old(Sum(grid[..])) + if InCanvas(w, h, x, y) then v else 0.0
  {
    hide Ix;
    if x < 0 || y < 0 || x >= w || y >= h || v == 0.0 { return; }
    forall cy: nat, cx: nat | cy < h && cx < w && (cy != y || cx != x) ensures Ix(w, h, cy, cx) != Ix(w, h, y, x) {
      IxInjective(w, h, cy, cx, y, x);
    }
    SumSet(grid[..], Ix(w, h, y, x), grid[Ix(w, h, y, x)] + v);
    ghost var next := grid[..][Ix(w, h, y, x) := grid[Ix(w, h, y, x)] + v];
    grid[Ix(w, h, y, x)] := grid[Ix(w, h, y, x)] + v;
    assert grid[..] == next;
  }

  function Corner(wgt: real, p: real, q: real): real { wgt * p * q }

  /** The four corner weights are the tent kernel. */
  lemma CornersAreTents(fx: real, fy: real, wgt: real, cx: int, cy: int)
    ensures var x0, y0 := fx.Floor, fy.Floor;
      var dx, dy := fx - x0 as real, fy - y0 as real;
      Hit(x0, y0, Corner(wgt, 1.0 - dx, 1.0 - dy), cx, cy) + Hit(x0 + 1, y0, Corner(wgt, dx, 1.0 - dy), cx, cy)
      + Hit(x0, y0 + 1, Corner(wgt, 1.0 - dx, dy), cx, cy) + Hit(x0 + 1, y0 + 1, Corner(wgt, dx, dy), cx, cy)
      == Kernel(wgt, fx, fy, cx, cy)
  {
    hide Tent;
    TentAt(fx, cx);
    TentAt(fy, cy);
    var tx, ty := Tent(fx - cx as real), Tent(fy - cy as real);
    assert wgt * tx * ty == wgt * (tx * ty);
    if tx == 0.0 { assert wgt * (tx * ty) == 0.0; }
    if ty == 0.0 { assert wgt * (tx * ty) == 0.0; }
  }

  lemma TentAt(f: real, c: int)
    ensures var d := f - f.Floor as real;
      Tent(f - c as real) == if c == f.Floor then 1.0 - d else if c == f.Floor + 1 then d else 0.0
  {
  }

  lemma CornersSumToWeight(dx: real, dy: real, wgt: real)
    ensures Corner(wgt, 1.0 - dx, 1.0 - dy) + Corner(wgt, dx, 1.0 - dy) + Corner(wgt, 1.0 - dx, dy) + Corner(wgt, dx, dy)
            == wgt
  {
    var p := wgt * dx;
    assert wgt * (1.0 - dx) == wgt - p;
    assert (wgt - p) * (1.0 - dy) == (wgt - p) - (wgt - p) * dy;
    assert p * (1.0 - dy) == p - p * dy;
  }

  /** One frame: each cell gains its kernel weight, and the whole grid gains the frame's weight when the four
      pixels around it are in the canvas. */
  method SplatFrame(grid: array<real>, w: nat, h: nat, fx: real, fy: real, wgt: real)
    requires grid.Length == h * w
    modifies grid
    ensures forall cy: nat, cx: nat :: cy < h && cx < w ==>
              grid[Ix(w, h, cy, cx)] == old(grid[Ix(w, h, cy, cx)]) + Kernel(wgt, fx, fy, cx, cy)
    ensures InCanvas(w, h, fx.Floor, fy.Floor) && InCanvas(w, h, fx.Floor + 1, fy.Floor + 1) ==>
              Sum(grid[..]) == old(Sum(grid[..])) + wgt
  {
    hide Ix, Kernel, Corner, Sum, Hit, Added;
    var x0, y0 := fx.Floor, fy.Floor;
    var dx, dy := fx - x0 as real, fy - y0 as real;
    ghost var a := grid[..];
    SplatCell(grid, w, h, x0, y0, Corner(wgt, 1.0 - dx, 1.0 - dy));
    ghost var b := grid[..];
    SplatCell(grid, w, h, x0 + 1, y0, Corner(wgt, dx, 1.0 - dy));
    ghost var c := grid[..];
    SplatCell(grid, w, h, x0, y0 + 1, Corner(wgt, 1.0 - dx, dy));
    ghost var d := grid[..];
    SplatCell(grid, w, h, x0 + 1, y0 + 1, Corner(wgt, dx, dy));
    ghost var e := grid[..];
    forall cy: nat, cx: nat | cy < h && cx < w
      ensures e[Ix(w, h, cy, cx)] == a[Ix(w, h, cy, cx)] + Kernel(wgt, fx, fy, cx, cy)
    {
      FourSplats(a, b, c, d, e, w, h, fx, fy, wgt, cy, cx);
    }
    CornersSumToWeight(dx, dy, wgt);
  }

  lemma FourSplats(a: seq<real>, b: seq<real>, c: seq<real>, d: seq<real>, e: seq<real>, w: nat, h: nat,
                   fx: real, fy: real, wgt: real, cy: nat, cx: nat)
    requires |a| == |b| == |c| == |d| == |e| == h * w && cy < h && cx < w
    requires var x0, y0 := fx.Floor, fy.Floor;
      var dx, dy := fx - x0 as real, fy - y0 as real;
      && Added(a, b, w, h, x0, y0, Corner(wgt, 1.0 - dx, 1.0 - dy))
      && Added(b, c, w, h, x0 + 1, y0, Corner(wgt, dx, 1.0 - dy))
      && Added(c, d, w, h, x0, y0 + 1, Corner(wgt, 1.0 - dx, dy))
      && Added(d, e, w, h, x0 + 1, y0 + 1, Corner(wgt, dx, dy))
    ensures e[Ix(w, h, cy, cx)] == a[Ix(w, h, cy, cx)] + Kernel(wgt, fx, fy, cx, cy)
  {
    hide Ix, Kernel, Corner, Hit, Added;
    var x0, y0 := fx.Floor, fy.Floor;
    var dx, dy := fx - x0 as real, fy - y0 as real;
    AddedAt(a, b, w, h, x0, y0, Corner(wgt, 1.0 - dx, 1.0 - dy), cy, cx);
    AddedAt(b, c, w, h, x0 + 1, y0, Corner(wgt, dx, 1.0 - dy), cy, cx);
    AddedAt(c, d, w, h, x0, y0 + 1, Corner(wgt, 1.0 - dx, dy), cy, cx);
    AddedAt(d, e, w, h, x0 + 1, y0 + 1, Corner(wgt, dx, dy), cy, cx);
    CornersAreTents(fx, fy, wgt, cx, cy);
  }

  // ---- the two passes --------------------------------------------------------------------------------

  /** Pass 1: the extent of every finite frame, and no more; None when there is none. */
  method Extent(ghosts: seq<Ghost>) returns (b: Option<Box>)
    ensures Covers(b, ghosts, |ghosts|)
    ensures b.Some? ==> Proper(b.value) && Touched(b.value, ghosts)
  {
    hide Touched;
    b := None;
    for i := 0 to |ghosts|
      invariant Covers(b, ghosts, i) && (b.Some? ==> Proper(b.value) && Touched(b.value, ghosts))
    {
      b := ExtentOf(ghosts[i], b, ghosts, i);
    }
  }

  method ExtentOf(g: Ghost, start: Option<Box>, ghost ghosts: seq<Ghost>, ghost i: nat) returns (b: Option<Box>)
    requires i < |ghosts| && g == ghosts[i] && Covers(start, ghosts, i)
    requires start.Some? ==> Proper(start.value) && Touched(start.value, ghosts)
    ensures Covers(b, ghosts, i + 1) && (b.Some? ==> Proper(b.value) && Touched(b.value, ghosts))
  {
    hide CoversFrame, Stretch, Touched;
    b := start;
    for j := 0 to |g|
      invariant Covers(b, ghosts, i) && (b.Some? ==> Proper(b.value) && Touched(b.value, ghosts))
      invariant forall k :: 0 <= k < j ==> CoversFrame(b, g[k])
    {
      forall f ensures CoversFrame(Stretch(b, g[j]), g[j]) && (CoversFrame(b, f) ==> CoversFrame(Stretch(b, g[j]), f)) {
        StretchCovers(b, g[j], f);
      }
      StretchCovers(b, g[j], g[j]);
      assert Seen(ghosts, g[j]);
      StretchTouches(b, g[j], ghosts);
      b := Stretch(b, g[j]);
    }
  }

  /** Pass 2: every cell holds the heat of all frames, and with a canvas of at least 64 pixels nothing is lost. */
  method Accumulate(ghosts: seq<Ghost>, b: Box, size: nat) returns (grid: array<real>)
    requires Proper(b) && Covers(Some(b), ghosts, |ghosts|)
    ensures fresh(grid) && grid.Length == size * size
    ensures forall y: nat, x: nat :: y < size && x < size ==>
              grid[Ix(size, size, y, x)] == Heat(FrameBounds(b, size), ghosts, |ghosts|, x, y)
    ensures size >= 64 ==> Sum(grid[..]) == Mass(ghosts, |ghosts|)
  {
    hide Ix, Sum, FrameBounds, GhostHeat, GhostMass, Covers;
    var m := FrameBounds(b, size);
    grid := new real[size * size](_ => 0.0);
    SumZero(grid[..]);
    for i := 0 to |ghosts|
      invariant forall y: nat, x: nat :: y < size && x < size ==> grid[Ix(size, size, y, x)] == Heat(m, ghosts, i, x, y)
      invariant size >= 64 ==> Sum(grid[..]) == Mass(ghosts, i)
    {
      if ghosts[i] == [] {
        NoHeat(m);
      } else {
        CoveredGhost(b, ghosts, i);
        AddGhost(grid, ghosts[i], b, size);
      }
    }
  }

  lemma NoHeat(m: Fit)
    ensures forall x, y :: GhostHeat(m, [], 0, x, y) == 0.0
    ensures GhostMass([], 0) == 0.0
  {
  }

  lemma CoveredGhost(b: Box, ghosts: seq<Ghost>, i: nat)
    requires Covers(Some(b), ghosts, |ghosts|) && i < |ghosts|
    ensures forall j :: 0 <= j < |ghosts[i]| ==> Inside(b, ghosts[i][j])
  {
    forall j | 0 <= j < |ghosts[i]| ensures Inside(b, ghosts[i][j]) { assert CoversFrame(Some(b), ghosts[i][j]); }
  }

  method AddGhost(grid: array<real>, g: Ghost, b: Box, size: nat)
    requires g != [] && grid.Length == size * size && Proper(b)
    requires forall j :: 0 <= j < |g| ==> Inside(b, g[j])
    modifies grid
    ensures forall y: nat, x: nat :: y < size && x < size ==>
              grid[Ix(size, size, y, x)] == old(grid[Ix(size, size, y, x)]) + GhostHeat(FrameBounds(b, size), g, |g|, x, y)
    ensures size >= 64 ==> Sum(grid[..]) == old(Sum(grid[..])) + GhostMass(g, |g|)
  {
    hide Ix, Sum, FrameBounds, PixelX, PixelY, Kernel, Inside;
    var m := FrameBounds(b, size);
    var wgt := 1.0 / |g| as real;
    for j := 0 to |g|
      invariant forall y: nat, x: nat :: y < size && x < size ==>
                  grid[Ix(size, size, y, x)] == old(grid[Ix(size, size, y, x)]) + GhostHeat(m, g, j, x, y)
      invariant size >= 64 ==> Sum(grid[..]) == old(Sum(grid[..])) + GhostMass(g, j)
    {
      MassStep(g, j);
      if Finite(g[j]) {
        if size >= 64 { FrameFits(b, size, g[j]); }
        SplatFrame(grid, size, size, PixelX(m, g[j].x.value), PixelY(m, g[j].y.value), wgt);
      }
    }
  }

  lemma MassStep(g: Ghost, j: nat)
    requires j < |g|
    ensures GhostMass(g, 0) == 0.0
    ensures GhostMass(g, j + 1) == GhostMass(g, j) + if Finite(g[j]) then 1.0 / |g| as real else 0.0
  {
  }

  // ---- the whole grid ----------------------------------------------------------------------------------

  /** The rows of the grid before blurring. */
  ghost function HeatRows(m: Fit, ghosts: seq<Ghost>, size: nat): (g: seq<seq<real>>)
    requires size > 0
    ensures Rectangle(g, size) && |g| == size
  {
    seq(size, y => seq(size, x => Heat(m, ghosts, |ghosts|, x, y)))
  }

  lemma RowsAreHeat(a: seq<real>, m: Fit, ghosts: seq<Ghost>, size: nat)
    requires size > 0 && |a| == size * size
    requires forall y: nat, x: nat :: y < size && x < size ==> a[Ix(size, size, y, x)] == Heat(m, ghosts, |ghosts|, x, y)
    ensures Rows(a, size, size) == HeatRows(m, ghosts, size)
  {
    hide Rows, Ix, Heat;
    RowsAt(a, size, size);
    var g := Rows(a, size, size);
    forall y: nat | y < size ensures g[y] == HeatRows(m, ghosts, size)[y] {
      forall x: nat | x < size ensures g[y][x] == Heat(m, ghosts, |ghosts|, x, y) { }
    }
  }

  function BlurRadius(size: nat): (r: nat)
    ensures r >= 1
  {
    Max(1, Round(size as real / 220.0))
  }

  /** The radius is a pixel for every 220 of the canvas, rounded, and at least one. */
  lemma RadiusIs(size: nat)
    ensures var r := BlurRadius(size); (r == 1 && size < 330) || (r > 1 && 220 * r - 110 <= size < 220 * r + 110)
  {
    RoundIs(size as real / 220.0);
  }

  /** The grid of `buildHeatmap` after its blur: nothing when no frame is finite; else the three-fold naive
      blur of the summed kernels, framed by the tight extent of the frames. */
  method Density(ghosts: seq<Ghost>, size: nat) returns (result: Option<array<real>>, ghost b: Option<Box>)
    requires size > 0
    ensures Covers(b, ghosts, |ghosts|) && (b.Some? ==> Proper(b.value) && Touched(b.value, ghosts))
    ensures result.Some? <==> b.Some?
    ensures result.Some? ==>
      && result.value.Length == size * size
      && Rows(result.value[..], size, size)
         == Blurred(HeatRows(FrameBounds(b.value, size), ghosts, size), size, BlurRadius(size), 3)
  {
    hide Covers, Touched, Rows, Ix, Heat, Blurred, HeatRows, FrameBounds;
    var extent := Extent(ghosts);
    b := extent;
    if extent.None? { return None, b; }
    var grid := Accumulate(ghosts, extent.value, size);
    RowsAreHeat(grid[..], FrameBounds(extent.value, size), ghosts, size);
    BlurGrid(grid, size, size, BlurRadius(size), 3);
    result := Some(grid);
  }
}
