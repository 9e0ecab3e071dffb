/** The heatmap's separable box blur over a flat grid (web/heatmap.js, `blur`), in exact arithmetic. */
module Blur {
  import opened Extrema

  /** An index pushed back into a line of n cells. */
  function Clamp(i: int, n: nat): nat
    requires n > 0
    ensures Clamp(i, n) < n
  {
    if i < 0 then 0 else if i >= n then n - 1 else i
  }

  /** The cells entering and leaving the window around x need clamping on one side only. */
  lemma ClampEnds(x: nat, n: nat, r: nat)
    requires x < n
    ensures Clamp(x + r + 1, n) == Min(n - 1, x + r + 1) && Clamp(x - r, n) == Max(0, x - r)
  {
  }

  /** The sum over the window [lo..hi), off-end positions repeating the edge cell. */
  function WindowSum(s: seq<real>, lo: int, hi: int): real
    requires s != [] && lo <= hi
    decreases hi - lo
  {
    if lo == hi then 0.0 else WindowSum(s, lo, hi - 1) + s[Clamp(hi - 1, |s|)]
  }

  /** The naive box mean at position i. */
  function Mean(s: seq<real>, i: int, r: nat): real
    requires s != []
  {
    WindowSum(s, i - r, i + r + 1) / (2 * r + 1) as real
  }

  /** One line, smoothed cell by cell. */
  function Smooth(s: seq<real>, r: nat): (t: seq<real>)
    requires s != []
    ensures |t| == |s|
  {
    seq(|s|, i requires 0 <= i < |s| => Mean(s, i, r))
  }

  /** Moving the window by one adds the cell entering and drops the cell leaving. */
  lemma {:induction false} WindowSlides(s: seq<real>, lo: int, hi: int)
    requires s != [] && lo <= hi
    ensures WindowSum(s, lo + 1, hi + 1) == WindowSum(s, lo, hi) + s[Clamp(hi, |s|)] - s[Clamp(lo, |s|)]
    decreases hi - lo
  {
    if lo < hi { WindowSlides(s, lo, hi - 1); }
  }

  lemma WindowStarts(s: seq<real>, lo: int)
    requires s != []
    ensures WindowSum(s, lo, lo) == 0.0
  {
  }

  lemma WindowGrows(s: seq<real>, lo: int, hi: int)
    requires s != [] && lo <= hi
    ensures WindowSum(s, lo, hi + 1) == WindowSum(s, lo, hi) + s[Clamp(hi, |s|)]
  {
  }

  lemma MeanIs(s: seq<real>, i: int, r: nat)
    requires s != []
    ensures Mean(s, i, r) == WindowSum(s, i - r, i + r + 1) / (2 * r + 1) as real
  {
  }

  predicate Within(s: seq<real>, low: real, high: real) { forall i :: 0 <= i < |s| ==> low <= s[i] <= high }

  lemma {:induction false} WindowBounds(s: seq<real>, lo: int, hi: int, low: real, high: real)
    requires s != [] && lo <= hi && Within(s, low, high)
    ensures low * (hi - lo) as real <= WindowSum(s, lo, hi) <= high * (hi - lo) as real
    decreases hi - lo
  {
    if lo < hi {
      WindowBounds(s, lo, hi - 1, low, high);
      assert (hi - lo) as real == (hi - 1 - lo) as real + 1.0;
      assert low * (hi - lo) as real == low * (hi - 1 - lo) as real + low;
      assert high * (hi - lo) as real == high * (hi - 1 - lo) as real + high;
    }
  }

  lemma DivBounds(v: real, n: real, low: real, high: real)
    requires n > 0.0 && low * n <= v <= high * n
    ensures low <= v / n <= high
  {
    var q := v / n;
    assert q * n == v;
    assert (q - low) * n >= 0.0 && (high - q) * n >= 0.0;
  }

  lemma MeanBounds(s: seq<real>, i: int, r: nat, low: real, high: real)
    requires s != [] && Within(s, low, high)
    ensures low <= Mean(s, i, r) <= high
  {
    WindowBounds(s, i - r, i + r + 1, low, high);
    DivBounds(WindowSum(s, i - r, i + r + 1), (2 * r + 1) as real, low, high);
  }

  // ---- grids -----------------------------------------------------------------------------------

  /** Rows of equal, positive width. */
  predicate Rectangle(g: seq<seq<real>>, w: nat) { g != [] && w > 0 && forall y :: 0 <= y < |g| ==> |g[y]| == w }

  function Column(g: seq<seq<real>>, w: nat, x: nat): (c: seq<real>)
    requires Rectangle(g, w) && x < w
    ensures |c| == |g|
  {
    seq(|g|, y requires 0 <= y < |g| => g[y][x])
  }

  function Horizontal(g: seq<seq<real>>, w: nat, r: nat): (t: seq<seq<real>>)
    requires Rectangle(g, w)
    ensures Rectangle(t, w) && |t| == |g|
  {
    seq(|g|, y requires 0 <= y < |g| => Smooth(g[y], r))
  }

  function Vertical(g: seq<seq<real>>, w: nat, r: nat): (t: seq<seq<real>>)
    requires Rectangle(g, w)
    ensures Rectangle(t, w) && |t| == |g|
  {
    seq(|g|, y requires 0 <= y < |g| => seq(w, x requires 0 <= x < w => Mean(Column(g, w, x), y, r)))
  }

  /** The naive blur: every pass replaces each cell by the mean of its clamped row window, then of its
      clamped column window. */
  function Blurred(g: seq<seq<real>>, w: nat, r: nat, passes: nat): (t: seq<seq<real>>)
    requires Rectangle(g, w)
    ensures Rectangle(t, w) && |t| == |g|
  {
    if passes == 0 then g else Vertical(Horizontal(Blurred(g, w, r, passes - 1), w, r), w, r)
  }

  predicate GridWithin(g: seq<seq<real>>, low: real, high: real) {
    forall y :: 0 <= y < |g| ==> Within(g[y], low, high)
  }

  lemma HorizontalBounds(g: seq<seq<real>>, w: nat, r: nat, low: real, high: real)
    requires Rectangle(g, w) && GridWithin(g, low, high)
    ensures GridWithin(Horizontal(g, w, r), low, high)
  {
    hide Mean;
    forall y | 0 <= y < |g| ensures Within(Horizontal(g, w, r)[y], low, high) {
      forall i | 0 <= i < w ensures low <= Mean(g[y], i, r) <= high { MeanBounds(g[y], i, r, low, high); }
    }
  }

  lemma VerticalBounds(g: seq<seq<real>>, w: nat, r: nat, low: real, high: real)
    requires Rectangle(g, w) && GridWithin(g, low, high)
    ensures GridWithin(Vertical(g, w, r), low, high)
  {
    hide Mean;
    forall y | 0 <= y < |g| ensures Within(Vertical(g, w, r)[y], low, high) {
      forall x | 0 <= x < w ensures low <= Mean(Column(g, w, x), y, r) <= high {
        ColumnBounds(g, w, x, low, high);
        MeanBounds(Column(g, w, x), y, r, low, high);
      }
    }
  }

  lemma ColumnBounds(g: seq<seq<real>>, w: nat, x: nat, low: real, high: real)
    requires Rectangle(g, w) && GridWithin(g, low, high) && x < w
    ensures Within(Column(g, w, x), low, high)
  {
    forall y | 0 <= y < |g| ensures low <= g[y][x] <= high { assert Within(g[y], low, high); }
  }

  /** However many passes, no cell leaves the range of the input. */
  lemma {:induction false} BlurredBounds(g: seq<seq<real>>, w: nat, r: nat, passes: nat, low: real, high: real)
    requires Rectangle(g, w) && GridWithin(g, low, high)
    ensures GridWithin(Blurred(g, w, r, passes), low, high)
  {
    hide GridWithin, Horizontal, Vertical;
    if passes > 0 {
      BlurredBounds(g, w, r, passes - 1, low, high);
      var b := Blurred(g, w, r, passes - 1);
      HorizontalBounds(b, w, r, low, high);
      VerticalBounds(Horizontal(b, w, r), w, r, low, high);
    }
  }

  // ---- the blur in place -----------------------------------------------------------------------

  lemma RowFits(w: nat, h: nat, y: nat)
    requires y < h
    ensures 0 <= y * w <= y * w + w <= h * w
  {
    assert (h - y - 1) * w >= 0;
    assert h * w == y * w + w + (h - y - 1) * w;
  }

  /** The rows of a flat array. */
  ghost function Rows(a: seq<real>, w: nat, h: nat): (g: seq<seq<real>>)
    requires |a| == h * w && w > 0 && h > 0
    ensures Rectangle(g, w) && |g| == h && forall y :: 0 <= y < h ==> 0 <= y * w <= y * w + w <= h * w && g[y] == a[y * w..y * w + w]
  {
    assert forall y :: 0 <= y < h ==> 0 <= y * w <= y * w + w <= h * w by {
      forall y: nat | y < h ensures 0 <= y * w <= y * w + w <= h * w { RowFits(w, h, y); }
    }
    seq(h, y requires 0 <= y < h && 0 <= y * w <= y * w + w <= h * w => a[y * w..y * w + w])
  }

  /** The horizontal inner loops: one row, by a sliding sum. */
  method BlurRow(src: array<real>, tmp: array<real>, row: nat, w: nat, r: nat)
    requires w > 0 && row + w <= src.Length == tmp.Length && src != tmp
    modifies tmp
    ensures tmp[row..row + w] == Smooth(src[row..row + w], r)
    ensures tmp[..row] == old(tmp[..row]) && tmp[row + w..] == old(tmp[row + w..])
  {
    hide WindowSum, Mean, Clamp;
    ghost var line := src[row..row + w];
    assert forall i :: 0 <= i < w ==> line[i] == src[row + i];
    var win := 2 * r + 1;
    var acc := 0.0;
    WindowStarts(line, 0 - r);
    for k: int := 0 - r to r + 1
      invariant acc == WindowSum(line, 0 - r, k)
      invariant forall i :: 0 <= i < tmp.Length ==> tmp[i] == old(tmp[i])
    {
      WindowGrows(line, 0 - r, k);
      acc := acc + src[row + Clamp(k, w)];
    }
    for x := 0 to w
      invariant acc == WindowSum(line, x - r, x + r + 1)
      invariant forall i :: row <= i < row + x ==> tmp[i] == Mean(line, i - row, r)
      invariant forall i :: 0 <= i < tmp.Length && !(row <= i < row + w) ==> tmp[i] == old(tmp[i])
    {
      MeanIs(line, x, r);
      tmp[row + x] := acc / win as real;
      WindowSlides(line, x - r, x + r + 1);
      ClampEnds(x, w, r);
      acc := acc + src[row + Min(w - 1, x + r + 1)] - src[row + Max(0, x - r)];
    }
    assert tmp[row..row + w] == Smooth(line, r) by {
      assert forall i :: 0 <= i < w ==> tmp[row + i] == Mean(line, i, r);
    }
  }

  lemma RowsKept(a: seq<real>, b: seq<real>, w: nat, h: nat, y: nat)
    requires |a| == |b| == h * w && w > 0 && h > 0 && y < h
    requires 0 <= y * w <= h * w && a[..y * w] == b[..y * w]
    ensures forall k :: 0 <= k < y ==> Rows(a, w, h)[k] == Rows(b, w, h)[k]
  {
    forall k: nat | k < y ensures Rows(a, w, h)[k] == Rows(b, w, h)[k] {
      RowFits(w, y, k);
      assert a[..y * w][k * w..k * w + w] == a[k * w..k * w + w];
      assert b[..y * w][k * w..k * w + w] == b[k * w..k * w + w];
    }
  }

  /** One horizontal pass: `tmp` receives the rows of `src`, each smoothed. */
  method HorizontalPass(src: array<real>, tmp: array<real>, w: nat, h: nat, r: nat)
    requires w > 0 && h > 0 && src.Length == tmp.Length == h * w && src != tmp
    modifies tmp
    ensures Rows(tmp[..], w, h) == Horizontal(Rows(src[..], w, h), w, r)
  {
    hide Smooth;
    ghost var g := Rows(src[..], w, h);
    for y := 0 to h
      invariant forall k :: 0 <= k < y ==> Rows(tmp[..], w, h)[k] == Smooth(g[k], r)
    {
      RowFits(w, h, y);
      var row := y * w;
      ghost var before := tmp[..];
      BlurRow(src, tmp, row, w, r);
      assert tmp[..row] == tmp[..][..row] && before[..row] == tmp[..row];
      RowsKept(before, tmp[..], w, h, y);
      assert tmp[..][row..row + w] == tmp[row..row + w];
      assert g[y] == src[..][row..row + w] == src[row..row + w];
    }
  }

  /** The flat index of a cell. */
  function Ix(w: nat, h: nat, y: nat, x: nat): (i: nat)
    requires y < h && x < w
    ensures i < h * w
  {
    RowFits(w, h, y);
    y * w + x
  }

  lemma IxInjective(w: nat, h: nat, y: nat, x: nat, y': nat, x': nat)
    requires y < h && x < w && y' < h && x' < w && (y != y' || x != x')
    ensures Ix(w, h, y, x) != Ix(w, h, y', x')
  {
    if y < y' { RowFits(w, y', y); } else if y' < y { RowFits(w, y, y'); }
  }

  lemma RowsAt(a: seq<real>, w: nat, h: nat)
    requires |a| == h * w && w > 0 && h > 0
    ensures forall y: nat, x: nat :: y < h && x < w ==> Rows(a, w, h)[y][x] == a[Ix(w, h, y, x)]
  {
    hide Rows;
    forall y: nat, x: nat | y < h && x < w ensures Rows(a, w, h)[y][x] == a[Ix(w, h, y, x)] {
      RowFits(w, h, y);
    }
  }

  lemma ColumnAt(a: seq<real>, w: nat, h: nat, x: nat)
    requires |a| == h * w && h > 0 && x < w
    ensures forall y: nat :: y < h ==> Column(Rows(a, w, h), w, x)[y] == a[Ix(w, h, y, x)]
  {
    hide Rows, Ix;
    RowsAt(a, w, h);
  }

  /** Outside column x the two arrays agree. */
  ghost predicate OthersKept(a: seq<real>, b: seq<real>, w: nat, h: nat, x: nat)
    requires |a| == |b| == h * w && h > 0 && x < w
  {
    forall y: nat, u: nat :: y < h && u < w && u != x ==> a[Ix(w, h, y, u)] == b[Ix(w, h, y, u)]
  }

  /** Writing one cell of column x touches no other cell of any column. */
  lemma PlotKeeps(a: seq<real>, b: seq<real>, c: seq<real>, w: nat, h: nat, y: nat, x: nat)
    requires |a| == |b| == |c| == h * w && y < h && x < w && OthersKept(a, b, w, h, x)
    requires c == b[Ix(w, h, y, x) := c[Ix(w, h, y, x)]]
    ensures OthersKept(a, c, w, h, x)
    ensures forall k: nat :: k < y ==> c[Ix(w, h, k, x)] == b[Ix(w, h, k, x)]
  {
    hide Ix;
    forall k: nat, u: nat | k < h && u < w && (k != y || u != x) ensures c[Ix(w, h, k, u)] == b[Ix(w, h, k, u)] {
      IxInjective(w, h, k, u, y, x);
    }
  }

  /** The vertical inner loops: one column, read from `tmp` and written to `src` with stride w. */
  method BlurColumn(tmp: array<real>, src: array<real>, x: nat, w: nat, h: nat, r: nat)
    requires x < w && h > 0 && src.Length == tmp.Length == h * w && src != tmp
    modifies src
    ensures forall y: nat :: y < h ==> src[Ix(w, h, y, x)] == Mean(Column(Rows(tmp[..], w, h), w, x), y, r)
    ensures OthersKept(old(src[..]), src[..], w, h, x)
  {
    hide Rows, Ix, Mean, Column, WindowSum, Clamp;
    ghost var col := Column(Rows(tmp[..], w, h), w, x);
    ColumnAt(tmp[..], w, h, x);
    var acc := 0.0;
    WindowStarts(col, 0 - r);
    for k: int := 0 - r to r + 1
      invariant acc == WindowSum(col, 0 - r, k)
      invariant src[..] == old(src[..])
    {
      WindowGrows(col, 0 - r, k);
      acc := acc + tmp[Ix(w, h, Clamp(k, h), x)];
    }
    assert OthersKept(old(src[..]), src[..], w, h, x);
    for y := 0 to h
      invariant acc == WindowSum(col, y - r, y + r + 1)
      invariant forall k: nat :: k < y ==> src[Ix(w, h, k, x)] == Mean(col, k, r)
      invariant OthersKept(old(src[..]), src[..], w, h, x)
    {
      ghost var before := src[..];
      MeanIs(col, y, r);
      src[Ix(w, h, y, x)] := acc / (2 * r + 1) as real;
      PlotKeeps(old(src[..]), before, src[..], w, h, y, x);
      WindowSlides(col, y - r, y + r + 1);
      ClampEnds(y, h, r);
      acc := acc + tmp[Ix(w, h, Min(h - 1, y + r + 1), x)] - tmp[Ix(w, h, Max(0, y - r), x)];
    }
  }

  /** One vertical pass: `src` receives the columns of `tmp`, each smoothed. */
  method VerticalPass(tmp: array<real>, src: array<real>, w: nat, h: nat, r: nat)
    requires w > 0 && h > 0 && src.Length == tmp.Length == h * w && src != tmp
    modifies src
    ensures Rows(src[..], w, h) == Vertical(Rows(tmp[..], w, h), w, r)
  {
    hide Rows, Ix, Mean, Column;
    ghost var g := Rows(tmp[..], w, h);
    for x := 0 to w
      invariant forall y: nat, u: nat :: y < h && u < x ==> src[Ix(w, h, y, u)] == Mean(Column(g, w, u), y, r)
    {
      BlurColumn(tmp, src, x, w, h, r);
    }
    RowsAt(src[..], w, h);
    GridEqual(Rows(src[..], w, h), g, w, r);
  }

  lemma GridEqual(t: seq<seq<real>>, g: seq<seq<real>>, w: nat, r: nat)
    requires Rectangle(g, w) && Rectangle(t, w) && |t| == |g|
    requires forall y: nat, x: nat :: y < |g| && x < w ==> t[y][x] == Mean(Column(g, w, x), y, r)
    ensures t == Vertical(g, w, r)
  {
    hide Mean, Column;
    forall y: nat | y < |g| ensures t[y] == Vertical(g, w, r)[y] {
      forall x: nat | x < w ensures t[y][x] == Vertical(g, w, r)[y][x] { }
    }
  }

  /** The whole blur, in place on `grid`: no change below radius 1, else the naive blur of the same rows. */
  method BlurGrid(grid: array<real>, w: nat, h: nat, radius: int, passes: nat)
    requires w > 0 && h > 0 && grid.Length == h * w
    modifies grid
    ensures radius < 1 ==> grid[..] == old(grid[..])
    ensures radius >= 1 ==> Rows(grid[..], w, h) == Blurred(old(Rows(grid[..], w, h)), w, radius, passes)
  {
    hide Rows, Horizontal, Vertical;
    if radius < 1 { return; }
    var tmp := new real[h * w];
    ghost var g := Rows(grid[..], w, h);
    for p := 0 to passes
      invariant Rows(grid[..], w, h) == Blurred(g, w, radius, p)
    {
      HorizontalPass(grid, tmp, w, h, radius);
      VerticalPass(tmp, grid, w, h, radius);
    }
  }
}
