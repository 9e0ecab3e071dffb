/** What one line of the heatmap's blur (web/heatmap.js, `blur`) does to a point: it is spread evenly over the radius to
    both sides, and what would leave the line stays on its last cell. With linearity that is the whole of it. */
module BlurKernel {
  import opened Extrema
  import opened Blur

  function Mirrored(s: seq<real>): (r: seq<real>)
    ensures |r| == |s| && forall i :: 0 <= i < |s| ==> r[i] == s[|s| - 1 - i]
  {
    seq(|s|, i requires 0 <= i < |s| => s[|s| - 1 - i])
  }

  lemma {:induction false} WindowMirrors(s: seq<real>, lo: int, hi: int)
    requires s != [] && lo <= hi
    ensures WindowSum(Mirrored(s), lo, hi) == WindowSum(s, |s| - hi, |s| - lo)
    decreases hi - lo
  {
    if lo < hi {
      WindowMirrors(s, lo, hi - 1);
      WindowSlides(s, |s| - hi, |s| - lo - 1);
    }
  }

  /** Left and right are alike. */
  lemma SmoothMirrors(s: seq<real>, r: nat)
    requires s != []
    ensures Smooth(Mirrored(s), r) == Mirrored(Smooth(s, r))
  {
    hide WindowSum;
    forall i | 0 <= i < |s| ensures Smooth(Mirrored(s), r)[i] == Mirrored(Smooth(s, r))[i] {
      WindowMirrors(s, i - r, i + r + 1);
    }
  }

  /** s is zero but for one cell. */
  predicate Only(s: seq<real>, j: nat) { j < |s| && forall k :: 0 <= k < |s| && k != j ==> s[k] == 0.0 }

  lemma {:induction false} WindowMeets(s: seq<real>, j: nat, lo: int, hi: int)
    requires Only(s, j) && 0 < j < |s| - 1 && lo <= hi
    ensures WindowSum(s, lo, hi) == if lo <= j < hi then s[j] else 0.0
    decreases hi - lo
  {
    if lo < hi { WindowMeets(s, j, lo, hi - 1); }
  }

  lemma {:induction false} WindowMeetsEdge(s: seq<real>, lo: int, hi: int)
    requires Only(s, 0) && |s| > 1 && lo <= hi
    ensures WindowSum(s, lo, hi) == Max(0, Min(hi, 1) - lo) as real * s[0]
    decreases hi - lo
  {
    if lo < hi { WindowMeetsEdge(s, lo, hi - 1); }
  }

  /** A point inside the line gives every cell within the radius an equal share, and others nothing. */
  lemma PointSpreads(s: seq<real>, j: nat, r: nat, i: nat)
    requires Only(s, j) && 0 < j < |s| - 1 && i < |s|
    ensures Smooth(s, r)[i] == if i - r <= j <= i + r then s[j] / (2 * r + 1) as real else 0.0
  {
    WindowMeets(s, j, i - r, i + r + 1);
  }

  /** The first cell counts once more for each position of the window before it. */
  lemma EdgeSpreads(s: seq<real>, r: nat, i: nat)
    requires Only(s, 0) && |s| > 1 && i < |s|
    ensures Smooth(s, r)[i] == Max(0, r - i + 1) as real * s[0] / (2 * r + 1) as real
  {
    hide WindowSum, Only;
    WindowMeetsEdge(s, i - r, i + r + 1);
    assert WindowSum(s, i - r, i + r + 1) == Max(0, r - i + 1) as real * s[0] by {
      assert Max(0, Min(i + r + 1, 1) - (i - r)) == Max(0, r - i + 1);
    }
    MeanIs(s, i, r);
  }

  function Sum(s: seq<real>, t: seq<real>): (u: seq<real>)
    requires |s| == |t|
    ensures |u| == |s| && forall i :: 0 <= i < |s| ==> u[i] == s[i] + t[i]
  {
    seq(|s|, i requires 0 <= i < |s| => s[i] + t[i])
  }

  lemma {:induction false} WindowAdds(s: seq<real>, t: seq<real>, lo: int, hi: int)
    requires |s| == |t| > 0 && lo <= hi
    ensures WindowSum(Sum(s, t), lo, hi) == WindowSum(s, lo, hi) + WindowSum(t, lo, hi)
    decreases hi - lo
  {
    if lo < hi { WindowAdds(s, t, lo, hi - 1); }
  }

  /** The pass is linear. */
  lemma SmoothAdds(s: seq<real>, t: seq<real>, r: nat)
    requires |s| == |t| > 0
    ensures Smooth(Sum(s, t), r) == Sum(Smooth(s, r), Smooth(t, r))
  {
    hide WindowSum;
    forall i | 0 <= i < |s| ensures Smooth(Sum(s, t), r)[i] == Sum(Smooth(s, r), Smooth(t, r))[i] {
      WindowAdds(s, t, i - r, i + r + 1);
    }
  }
}
