/** The consecutive-day achievement's query (web/achievements.js, `play_streak`): gaps and islands. */
module Streak {

  /** A row of the finish log: the canonical player and the Unix second. */
  datatype Finish = Finish(cid: nat, createdAt: int)

  /** The UTC day number. */
  function Day(f: Finish): int { f.createdAt / 86400 }

  /** The days of one player's finishes, in log order and with repetitions. */
  function DaysOf(log: seq<Finish>, cid: nat): seq<int> {
    if log == [] then [] else DaysOf(log[..|log| - 1], cid) + if log[|log| - 1].cid == cid then [Day(log[|log| - 1])] else []
  }

  predicate Increasing(d: seq<int>) { forall i, j :: 0 <= i < j < |d| ==> d[i] < d[j] }

  /** A day filed into a list of distinct days in order. */
  function File(d: seq<int>, x: int): (r: seq<int>)
    requires Increasing(d)
    ensures Increasing(r) && forall y :: y in r <==> y in d || y == x
  {
    if d == [] then [x]
    else if d[|d| - 1] < x then d + [x]
    else if d[|d| - 1] == x then d
    else
      var init, last := d[..|d| - 1], d[|d| - 1];
      assert forall y :: y in d <==> y in init || y == last;
      assert forall y :: y in init ==> y < last;
      var r := File(init, x);
      assert forall i :: 0 <= i < |r| ==> r[i] in r && (r[i] in init || r[i] == x);
      r + [last]
  }

  /** `SELECT DISTINCT .. ORDER BY day`. */
  function DistinctDays(days: seq<int>): (d: seq<int>)
    ensures Increasing(d) && forall y :: y in d <==> y in days
  {
    if days == [] then [] else
    assert forall y :: y in days <==> y in days[..|days| - 1] || y == days[|days| - 1];
    File(DistinctDays(days[..|days| - 1]), days[|days| - 1])
  }

  /** `day - ROW_NUMBER()` of the i-th row; row numbers start at one. */
  function Group(d: seq<int>, i: nat): int
    requires i < |d|
  {
    d[i] - (i + 1)
  }

  /** `COUNT(*)` of one group. */
  function IslandLength(d: seq<int>, g: int): nat {
    if d == [] then 0 else IslandLength(d[..|d| - 1], g) + if Group(d, |d| - 1) == g then 1 else 0
  }

  /** `MAX(len)` over the groups of the first n rows; zero stands for no row. */
  function LongestIsland(d: seq<int>, n: nat): nat
    requires n <= |d|
  {
    if n == 0 then 0 else
    var rest := LongestIsland(d, n - 1);
    var here := IslandLength(d, Group(d, n - 1));
    if rest < here then here else rest
  }

  /** The player's value in the query's result. */
  function Value(log: seq<Finish>, cid: nat): nat {
    var d := DistinctDays(DaysOf(log, cid));
    LongestIsland(d, |d|)
  }

  // ---- what a streak is -------------------------------------------------------------------------

  /** n consecutive days from a on, each among the given days. */
  ghost predicate RunFrom(days: seq<int>, a: int, n: nat) { forall day :: a <= day < a + n ==> day in days }

  /** n is the length of a run of consecutive days, and no run is longer. */
  ghost predicate IsLongestRun(days: seq<int>, n: nat) {
    && (exists a :: RunFrom(days, a, n))
    && (forall a, m: nat :: RunFrom(days, a, m) ==> m <= n)
  }

  /** The player finished at least one run on each of n consecutive UTC days, starting with day a. */
  ghost predicate PlayedFrom(log: seq<Finish>, cid: nat, a: int, n: nat) {
    forall day :: a <= day < a + n ==> PlayedOn(log, cid, day)
  }

  ghost predicate PlayedOn(log: seq<Finish>, cid: nat, day: int) { exists f :: f in log && f.cid == cid && Day(f) == day }

  // ---- islands and runs ---------------------------------------------------------------------------

  /** Row numbers grow by one and days by at least one, so groups never decrease down the rows. */
  lemma GroupsGrow(d: seq<int>, i: nat, j: nat)
    requires Increasing(d) && i <= j < |d|
    ensures Group(d, i) <= Group(d, j)
    decreases j - i
  {
    if i < j { GroupsGrow(d, i, j - 1); }
  }

  lemma {:induction false} IslandHasRow(d: seq<int>, g: int)
    requires IslandLength(d, g) > 0
    ensures exists i: nat :: i < |d| && Group(d, i) == g
  {
    var m := |d| - 1;
    if Group(d, m) != g {
      IslandHasRow(d[..m], g);
      var i: nat :| i < m && Group(d[..m], i) == g;
      assert Group(d, i) == g;
    }
  }

  /** The island of the last row is the run of days that ends there. */
  lemma {:induction false} LastIsland(d: seq<int>)
    requires Increasing(d) && d != []
    ensures var n := IslandLength(d, Group(d, |d| - 1)); n >= 1 && RunFrom(d, d[|d| - 1] - n + 1, n)
  {
    var m := |d| - 1;
    var g := Group(d, m);
    var rest := IslandLength(d[..m], g);
    if rest > 0 {
      IslandHasRow(d[..m], g);
      var i: nat :| i < m && Group(d[..m], i) == g;
      assert Group(d, i) == g;
      GroupsGrow(d, i, m - 1);
      GroupsGrow(d, m - 1, m);
      LastIsland(d[..m]);
      var a := d[m] - rest;
      assert d[m - 1] == d[m] - 1;
      forall day | a <= day < a + rest + 1 ensures day in d {
        if day < d[m] { assert day in d[..m]; }
      }
    }
  }

  /** Every island is a run of consecutive days. */
  lemma {:induction false} IslandIsRun(d: seq<int>, g: int) returns (a: int)
    requires Increasing(d)
    ensures RunFrom(d, a, IslandLength(d, g))
  {
    a := 0;
    if d != [] {
      var m := |d| - 1;
      if Group(d, m) == g {
        LastIsland(d);
        a := d[m] - IslandLength(d, g) + 1;
      } else {
        a := IslandIsRun(d[..m], g);
        forall day | a <= day < a + IslandLength(d, g) ensures day in d { assert day in d[..m]; }
      }
    }
  }

  /** A run occupies consecutive rows. */
  lemma {:induction false} RunRows(d: seq<int>, a: int, n: nat, p: nat, k: nat)
    requires Increasing(d) && RunFrom(d, a, n) && p < |d| && d[p] == a && k < n
    ensures p + k < |d| && d[p + k] == a + k
  {
    if k > 0 {
      RunRows(d, a, n, p, k - 1);
      assert a + k in d;
      var q :| 0 <= q < |d| && d[q] == a + k;
      assert q > p + k - 1;
    }
  }

  lemma {:induction false} RowsAreCounted(d: seq<int>, g: int, p: nat, n: nat)
    requires p + n <= |d| && forall i :: p <= i < p + n ==> Group(d, i) == g
    ensures IslandLength(d, g) >= n
    decreases |d|
  {
    if n > 0 {
      var m := |d| - 1;
      assert forall i :: p <= i < p + n && i < m ==> Group(d[..m], i) == Group(d, i);
      if p + n == |d| {
        RowsAreCounted(d[..m], g, p, n - 1);
      } else {
        RowsAreCounted(d[..m], g, p, n);
      }
    }
  }

  /** Every run of consecutive days lies within one island. */
  lemma RunIsInIsland(d: seq<int>, a: int, n: nat) returns (p: nat)
    requires Increasing(d) && RunFrom(d, a, n) && n > 0
    ensures p < |d| && IslandLength(d, Group(d, p)) >= n
  {
    assert a in d;
    p :| 0 <= p < |d| && d[p] == a;
    RunRows(d, a, n, p, n - 1);
    forall i | p <= i < p + n ensures Group(d, i) == Group(d, p) { RunRows(d, a, n, p, i - p); }
    RowsAreCounted(d, Group(d, p), p, n);
  }

  lemma {:induction false} LongestIsMost(d: seq<int>, n: nat, i: nat)
    requires i < n <= |d|
    ensures IslandLength(d, Group(d, i)) <= LongestIsland(d, n)
  {
    if i < n - 1 { LongestIsMost(d, n - 1, i); }
  }

  lemma {:induction false} LongestIsSome(d: seq<int>, n: nat) returns (i: nat)
    requires 0 < n <= |d|
    ensures i < n && LongestIsland(d, n) == IslandLength(d, Group(d, i))
  {
    i := n - 1;
    assert LongestIsland(d, 0) == 0;
    if LongestIsland(d, n) != IslandLength(d, Group(d, i)) { i := LongestIsSome(d, n - 1); }
  }

  /** For every list of days, in any order and with any repetition: the largest group is the longest run of
      consecutive days. */
  lemma LongestIslandIsLongestRun(days: seq<int>)
    ensures IsLongestRun(days, LongestIsland(DistinctDays(days), |DistinctDays(days)|))
  {
    hide IslandLength, LongestIsland, RunFrom;
    var d := DistinctDays(days);
    forall a, n: nat ensures RunFrom(days, a, n) <==> RunFrom(d, a, n) { DistinctKeepsRuns(days, a, n); }
    var longest := LongestIsland(d, |d|);
    var start := 0;
    if d != [] {
      var i := LongestIsSome(d, |d|);
      start := IslandIsRun(d, Group(d, i));
    } else {
      NothingIsLongest(start);
    }
    assert RunFrom(days, start, longest);
    forall a, n: nat | RunFrom(days, a, n) ensures n <= longest {
      if n > 0 {
        var p := RunIsInIsland(d, a, n);
        LongestIsMost(d, |d|, p);
      }
    }
  }

  lemma NothingIsLongest(a: int)
    ensures LongestIsland([], 0) == 0 && RunFrom([], a, 0)
  {
  }

  lemma DistinctKeepsRuns(days: seq<int>, a: int, n: nat)
    ensures RunFrom(days, a, n) <==> RunFrom(DistinctDays(days), a, n)
  {
  }

  lemma {:induction false} DaysOfHas(log: seq<Finish>, cid: nat, day: int)
    ensures day in DaysOf(log, cid) <==> PlayedOn(log, cid, day)
  {
    if log != [] {
      var m := |log| - 1;
      DaysOfHas(log[..m], cid, day);
      assert forall f :: f in log <==> f in log[..m] || f == log[m];
    }
  }

  /** The query's value for a player is the length of the longest streak, and a threshold is reached exactly
      when the player finished a run on that many consecutive UTC days. */
  lemma ThresholdReachedIff(log: seq<Finish>, cid: nat, days: nat)
    ensures Value(log, cid) >= days <==> exists a :: PlayedFrom(log, cid, a, days)
  {
    hide DaysOf, DistinctDays, LongestIsland, PlayedOn;
    var all := DaysOf(log, cid);
    var v := Value(log, cid);
    LongestIslandIsLongestRun(all);
    forall day ensures day in all <==> PlayedOn(log, cid, day) { DaysOfHas(log, cid, day); }
    var a :| RunFrom(all, a, v);
    if v >= days { assert PlayedFrom(log, cid, a, days); }
    if a :| PlayedFrom(log, cid, a, days) { assert RunFrom(all, a, days); }
  }
}
