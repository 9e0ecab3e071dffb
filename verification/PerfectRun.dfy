/** The stitched "perfect run" of a map (web/db.js, `_computePerfectRun`): the best time of every segment
    between checkpoints, over all races scanned. */
module PerfectRun {
  import opened Wrappers

  /** The two result sets: the races by time, and their checkpoint rows (`time > 0`, by race and number). */
  datatype RaceRow = RaceRow(id: nat, time: int)
  datatype Checkpoint = Checkpoint(raceId: nat, number: nat, time: int)

  /** A race as the scan sees it: its splits by checkpoint number, and its time when its row was read. */
  datatype Race = Race(id: nat, splits: map<nat, int>, finish: Option<int>)

  datatype Best = Best(delta: int, raceId: nat)
  datatype Segment = Segment(delta: Option<int>, cumulative: Option<int>)
  datatype Result = Result(time: Option<int>, segments: seq<Segment>, savingVsWr: Option<int>)

  // ---- segments -------------------------------------------------------------------------------

  function Split(r: Race, n: nat): Option<int> {
    if n in r.splits && r.splits[n] > 0 then Some(r.splits[n]) else None
  }

  /** Where segment n starts: at the previous checkpoint, the first one at zero. */
  function Start(r: Race, n: nat): Option<int> { if n == 0 then Some(0) else Split(r, n - 1) }

  /** Where segment n ends; the segment after the last checkpoint m ends at the finish. */
  function End(r: Race, m: nat, n: nat): Option<int> { if n <= m then Split(r, n) else r.finish }

  /** The race's own time for segment n, if it passed both ends in order. */
  function Delta(r: Race, m: nat, n: nat): Option<int> {
    var from, to := Start(r, n), End(r, m, n);
    if from.Some? && to.Some? && to.value > from.value then Some(to.value - from.value) else None
  }

  function Improve(b: Option<Best>, d: Option<int>, id: nat): Option<Best> {
    if d.Some? && (b.None? || d.value < b.value.delta) then Some(Best(d.value, id)) else b
  }

  /** The best of a segment after scanning the races in order. */
  function BestOf(races: seq<Race>, m: nat, n: nat): Option<Best> {
    if races == [] then None else
    var r := races[|races| - 1];
    Improve(BestOf(races[..|races| - 1], m, n), Delta(r, m, n), r.id)
  }

  function BestDelta(races: seq<Race>, m: nat, n: nat): Option<int> {
    match BestOf(races, m, n) case None => None case Some(b) => Some(b.delta)
  }

  /** The sum of the segments before k that have a best. */
  function Total(races: seq<Race>, m: nat, k: nat): int {
    if k == 0 then 0 else
    Total(races, m, k - 1) + match BestDelta(races, m, k - 1) { case None => 0 case Some(d) => d }
  }

  /** Every segment before k has a best. */
  predicate Complete(races: seq<Race>, m: nat, k: nat) { forall n: nat :: n < k ==> BestDelta(races, m, n).Some? }

  function PerfectTime(races: seq<Race>, m: nat): Option<int> {
    if Complete(races, m, m + 2) then Some(Total(races, m, m + 2)) else None
  }

  // ---- the least of each segment ----------------------------------------------------------------

  /** d is the least of the races' own times for segment n, and above zero; None when no race has one. */
  ghost predicate IsLeast(races: seq<Race>, m: nat, n: nat, d: Option<int>) {
    && (d.Some? ==> d.value > 0 && exists r :: r in races && Delta(r, m, n) == d)
    && (forall r :: r in races && Delta(r, m, n).Some? ==> d.Some? && d.value <= Delta(r, m, n).value)
  }

  lemma {:induction false} BestIsLeast(races: seq<Race>, m: nat, n: nat)
    ensures IsLeast(races, m, n, BestDelta(races, m, n))
  {
    hide Delta;
    if races != [] {
      var rest, r := races[..|races| - 1], races[|races| - 1];
      BestIsLeast(rest, m, n);
      DeltaIsPositive(r, m, n);
      assert forall q :: q in races <==> q in rest || q == r;
      var d := BestDelta(races, m, n);
      if d.Some? {
        if d == Delta(r, m, n) {
          assert r in races && Delta(r, m, n) == d;
        } else {
          var q :| q in rest && Delta(q, m, n) == BestDelta(rest, m, n);
          assert q in races && Delta(q, m, n) == d;
        }
      }
    }
  }

  /** A segment is credited to a race that was that fast, and to no later one than the first. */
  lemma {:induction false} BestIsFirst(races: seq<Race>, m: nat, n: nat)
    requires BestOf(races, m, n).Some?
    ensures var b := BestOf(races, m, n).value;
      exists i :: 0 <= i < |races| && races[i].id == b.raceId && Delta(races[i], m, n) == Some(b.delta)
        && forall j :: 0 <= j < i ==> Delta(races[j], m, n) != Some(b.delta)
  {
    hide Delta;
    var k := |races| - 1;
    var b := BestOf(races, m, n).value;
    if BestOf(races[..k], m, n) == Some(b) {
      BestIsFirst(races[..k], m, n);
      var i :| 0 <= i < k && races[..k][i].id == b.raceId && Delta(races[..k][i], m, n) == Some(b.delta)
        && forall j :: 0 <= j < i ==> Delta(races[..k][j], m, n) != Some(b.delta);
      assert races[i].id == b.raceId && Delta(races[i], m, n) == Some(b.delta);
      forall j | 0 <= j < i ensures Delta(races[j], m, n) != Some(b.delta) { assert races[j] == races[..k][j]; }
    } else {
      BestIsLeast(races[..k], m, n);
      forall j | 0 <= j < k ensures Delta(races[j], m, n) != Some(b.delta) { assert races[j] in races[..k]; }
      assert races[k].id == b.raceId && Delta(races[k], m, n) == Some(b.delta);
    }
  }

  /** The segment times, and so the perfect time, depend on the races alone, not on their order. */
  lemma BestIsOrderFree(a: seq<Race>, b: seq<Race>, m: nat, n: nat)
    requires forall r :: r in a <==> r in b
    ensures BestDelta(a, m, n) == BestDelta(b, m, n)
  {
    hide Delta, BestDelta;
    BestIsLeast(a, m, n);
    BestIsLeast(b, m, n);
  }

  lemma {:induction false} TotalIsOrderFree(a: seq<Race>, b: seq<Race>, m: nat, k: nat)
    requires forall r :: r in a <==> r in b
    ensures Total(a, m, k) == Total(b, m, k)
  {
    hide BestDelta;
    if k > 0 {
      TotalIsOrderFree(a, b, m, k - 1);
      BestIsOrderFree(a, b, m, k - 1);
    }
  }

  lemma PerfectIsOrderFree(a: seq<Race>, b: seq<Race>, m: nat)
    requires forall r :: r in a <==> r in b
    ensures PerfectTime(a, m) == PerfectTime(b, m)
  {
    hide BestDelta, Total;
    forall n: nat ensures BestDelta(a, m, n) == BestDelta(b, m, n) { BestIsOrderFree(a, b, m, n); }
    TotalIsOrderFree(a, b, m, m + 2);
  }

  // ---- no race is faster --------------------------------------------------------------------------

  /** Strictly increasing positive splits at every checkpoint up to m, and a finish after the last. */
  ghost predicate FullSplits(r: Race, m: nat) {
    && (forall n: nat :: n <= m ==> n in r.splits && r.splits[n] > 0)
    && (forall n: nat :: n < m ==> r.splits[n] < r.splits[n + 1])
    && r.finish.Some? && r.splits[m] < r.finish.value
  }

  lemma FullSplitsDeltas(r: Race, m: nat, n: nat)
    requires FullSplits(r, m) && n < m + 2
    ensures Delta(r, m, n).Some?
  {
  }

  /** A race that has a time for every segment has full splits. */
  lemma DeltasFullSplits(r: Race, m: nat)
    requires forall n: nat :: n < m + 2 ==> Delta(r, m, n).Some?
    ensures FullSplits(r, m)
  {
    forall n: nat | n <= m ensures n in r.splits && r.splits[n] > 0 { assert Delta(r, m, n).Some?; }
    forall n: nat | n < m ensures r.splits[n] < r.splits[n + 1] { assert Delta(r, m, n + 1).Some?; }
    assert Delta(r, m, m + 1).Some?;
  }

  /** Up to the start of any segment, the stitched run is no slower than a full race. */
  lemma {:induction false} TotalIsAtMost(races: seq<Race>, m: nat, r: Race, k: nat)
    requires r in races && FullSplits(r, m) && k <= m + 1
    ensures Complete(races, m, k) && Total(races, m, k) <= Start(r, k).value
  {
    hide BestDelta;
    if k > 0 {
      TotalIsAtMost(races, m, r, k - 1);
      BestIsLeast(races, m, k - 1);
      FullSplitsDeltas(r, m, k - 1);
    }
  }

  /** The perfect run is no slower than any race with full splits. */
  lemma PerfectIsAtMost(races: seq<Race>, m: nat, r: Race)
    requires r in races && FullSplits(r, m)
    ensures PerfectTime(races, m).Some? && PerfectTime(races, m).value <= r.finish.value
  {
    hide BestDelta;
    TotalIsAtMost(races, m, r, m + 1);
    BestIsLeast(races, m, m + 1);
    FullSplitsDeltas(r, m, m + 1);
    assert Complete(races, m, m + 2);
  }

  /** A race with every segment as slow as `step`. */
  function Slow(m: nat, step: int): Race {
    Race(0, map n: nat | n <= m :: SlowSplit(step, n), Some(SlowSplit(step, m + 1)))
  }

  function SlowSplit(step: int, n: nat): int { (n + 1) * step }

  lemma SlowDeltas(m: nat, step: int, n: nat)
    requires step > 0 && n < m + 2
    ensures Delta(Slow(m, step), m, n) == Some(step)
  {
    assert (n + 1) * step == n * step + step && (m + 2) * step == (m + 1) * step + step;
    assert (n + 1) * step > 0;
    if n > 0 { assert n * step > 0; }
  }

  lemma {:induction false} TotalIsAtLeast(races: seq<Race>, m: nat, k: nat, n: nat)
    requires Complete(races, m, k) && n < k
    requires forall i: nat :: i < k ==> BestDelta(races, m, i).value > 0
    ensures Total(races, m, k) >= BestDelta(races, m, n).value
  {
    hide BestDelta;
    if n < k - 1 { TotalIsAtLeast(races, m, k - 1, n); } else { TotalIsNonNegative(races, m, k - 1); }
  }

  lemma {:induction false} TotalIsNonNegative(races: seq<Race>, m: nat, k: nat)
    requires forall i: nat :: i < k ==> BestDelta(races, m, i).Some? && BestDelta(races, m, i).value > 0
    ensures Total(races, m, k) >= 0
  {
    hide BestDelta;
    if k > 0 { TotalIsNonNegative(races, m, k - 1); }
  }

  /** A race without a time for some segment can be beaten by nobody there: next to a slow full race the
      stitched run is slower than it. */
  lemma MissingSegmentLoses(r: Race, m: nat, n: nat)
    requires r.finish.Some? && n < m + 2 && Delta(r, m, n).None?
    ensures var step := if r.finish.value > 0 then r.finish.value + 1 else 1;
      PerfectTime([r, Slow(m, step)], m).Some? && PerfectTime([r, Slow(m, step)], m).value > r.finish.value
  {
    hide BestDelta, Delta;
    var step := if r.finish.value > 0 then r.finish.value + 1 else 1;
    var races := [r, Slow(m, step)];
    forall i: nat | i < m + 2 ensures BestDelta(races, m, i).Some? && BestDelta(races, m, i).value > 0 {
      SlowDeltas(m, step, i);
      BestIsLeast(races, m, i);
      DeltaIsPositive(r, m, i);
    }
    SlowDeltas(m, step, n);
    BestIsLeast(races, m, n);
    assert BestDelta(races, m, n) == Some(step);
    TotalIsAtLeast(races, m, m + 2, n);
  }

  lemma DeltaIsPositive(r: Race, m: nat, n: nat)
    ensures Delta(r, m, n).Some? ==> Delta(r, m, n).value > 0
  {
  }

  /** `savingVsWr` can never be negative, whatever other races are scanned, exactly when the record race has
      full splits. */
  lemma SavingIsNeverNegativeIff(wr: Race, m: nat)
    requires wr.finish.Some?
    ensures (forall races: seq<Race> :: wr in races && PerfectTime(races, m).Some?
               ==> wr.finish.value - PerfectTime(races, m).value >= 0)
            <==> FullSplits(wr, m)
  {
    hide PerfectTime, Delta;
    if FullSplits(wr, m) {
      forall races: seq<Race> | wr in races && PerfectTime(races, m).Some?
        ensures wr.finish.value - PerfectTime(races, m).value >= 0
      {
        PerfectIsAtMost(races, m, wr);
      }
    } else {
      if forall n: nat :: n < m + 2 ==> Delta(wr, m, n).Some? { DeltasFullSplits(wr, m); }
      var n: nat :| n < m + 2 && Delta(wr, m, n).None?;
      MissingSegmentLoses(wr, m, n);
      var step := if wr.finish.value > 0 then wr.finish.value + 1 else 1;
      assert wr in [wr, Slow(m, step)];
    }
  }

  // ---- reading the result sets ----------------------------------------------------------------------

  /** The splits of one race; a later row of the same number would replace an earlier one. */
  function SplitsOf(cps: seq<Checkpoint>, id: nat): map<nat, int> {
    if cps == [] then map[] else
    var c := cps[|cps| - 1];
    var rest := SplitsOf(cps[..|cps| - 1], id);
    if c.raceId == id then rest[c.number := c.time] else rest
  }

  /** The races that have a checkpoint row, in the order of their first row. */
  function RaceIds(cps: seq<Checkpoint>): seq<nat> {
    if cps == [] then [] else
    var rest := RaceIds(cps[..|cps| - 1]);
    if cps[|cps| - 1].raceId in rest then rest else rest + [cps[|cps| - 1].raceId]
  }

  function MaxNumber(cps: seq<Checkpoint>): int {
    if cps == [] then -1 else
    var rest := MaxNumber(cps[..|cps| - 1]);
    if cps[|cps| - 1].number > rest then cps[|cps| - 1].number else rest
  }

  function FinishTimes(rows: seq<RaceRow>): map<nat, int> {
    if rows == [] then map[] else FinishTimes(rows[..|rows| - 1])[rows[|rows| - 1].id := rows[|rows| - 1].time]
  }

  function RaceOf(rows: seq<RaceRow>, cps: seq<Checkpoint>, id: nat): Race {
    Race(id, SplitsOf(cps, id), if id in FinishTimes(rows) then Some(FinishTimes(rows)[id]) else None)
  }

  /** What the loop over `perRace` visits. */
  function Scanned(rows: seq<RaceRow>, cps: seq<Checkpoint>, ids: seq<nat>): seq<Race> {
    seq(|ids|, i requires 0 <= i < |ids| => RaceOf(rows, cps, ids[i]))
  }

  /** The number is the highest checkpoint there is, -1 without one. */
  lemma {:induction false} MaxNumberIs(cps: seq<Checkpoint>)
    ensures cps == [] ==> MaxNumber(cps) == -1
    ensures cps != [] ==> exists c :: c in cps && c.number == MaxNumber(cps)
    ensures forall c :: c in cps ==> c.number <= MaxNumber(cps)
  {
    if cps != [] {
      var n := |cps| - 1;
      MaxNumberIs(cps[..n]);
      assert forall c :: c in cps <==> c in cps[..n] || c == cps[n];
      assert cps[n] in cps;
      if n > 0 {
        var c :| c in cps[..n] && c.number == MaxNumber(cps[..n]);
        assert c in cps;
      }
    }
  }

  /** Row k is the last one of its race and number. */
  ghost predicate LastRow(cps: seq<Checkpoint>, k: nat, id: nat, n: nat) {
    && k < |cps| && cps[k].raceId == id && cps[k].number == n
    && forall j :: k < j < |cps| ==> cps[j].raceId != id || cps[j].number != n
  }

  /** A race has exactly the splits its rows give it, the last row of a number counting. */
  lemma {:induction false} SplitsAre(cps: seq<Checkpoint>, id: nat, n: nat)
    ensures n in SplitsOf(cps, id) <==> exists k: nat :: LastRow(cps, k, id, n)
    ensures forall k: nat :: LastRow(cps, k, id, n) ==> SplitsOf(cps, id)[n] == cps[k].time
  {
    if cps != [] {
      var m := |cps| - 1;
      SplitsAre(cps[..m], id, n);
      if cps[m].raceId == id && cps[m].number == n {
        assert LastRow(cps, m, id, n);
      } else {
        forall k: nat ensures LastRow(cps, k, id, n) <==> LastRow(cps[..m], k, id, n) {
          if LastRow(cps[..m], k, id, n) {
            forall j | k < j < |cps| ensures cps[j].raceId != id || cps[j].number != n { if j < m { assert cps[..m][j] == cps[j]; } }
          }
          if LastRow(cps, k, id, n) { assert k != m && forall j :: k < j < m ==> cps[..m][j] == cps[j]; }
        }
      }
    }
  }

  /** Scanned are the races with a checkpoint row, each once. */
  lemma {:induction false} RaceIdsAre(cps: seq<Checkpoint>)
    ensures forall id :: id in RaceIds(cps) <==> exists c :: c in cps && c.raceId == id
    ensures forall i, j :: 0 <= i < j < |RaceIds(cps)| ==> RaceIds(cps)[i] != RaceIds(cps)[j]
  {
    if cps != [] {
      var n := |cps| - 1;
      RaceIdsAre(cps[..n]);
      assert forall c :: c in cps <==> c in cps[..n] || c == cps[n];
      assert cps[n] in cps;
      var rest := RaceIds(cps[..n]);
      if cps[n].raceId !in rest { assert forall i :: 0 <= i < |rest| ==> rest[i] in rest; }
    }
  }

  /** A race's finish is its row's time; only a race whose row was read has one. */
  lemma {:induction false} FinishesAre(rows: seq<RaceRow>, id: nat)
    requires forall i, j :: 0 <= i < j < |rows| ==> rows[i].id != rows[j].id
    ensures id in FinishTimes(rows) <==> exists r :: r in rows && r.id == id
    ensures forall r :: r in rows && r.id == id ==> FinishTimes(rows)[id] == r.time
  {
    if rows != [] {
      var n := |rows| - 1;
      FinishesAre(rows[..n], id);
      assert forall r :: r in rows <==> r in rows[..n] || r == rows[n];
      assert rows[n] in rows;
    }
  }

  // ---- the loops ------------------------------------------------------------------------------------

  method Group(cps: seq<Checkpoint>) returns (ids: seq<nat>, perRace: map<nat, map<nat, int>>, maxNum: int)
    ensures ids == RaceIds(cps) && maxNum == MaxNumber(cps)
    ensures forall id :: id in ids ==> id in perRace && perRace[id] == SplitsOf(cps, id)
  {
    ids, perRace, maxNum := [], map[], -1;
    for k := 0 to |cps|
      invariant ids == RaceIds(cps[..k]) && maxNum == MaxNumber(cps[..k])
      invariant forall id :: id in ids <==> id in perRace
      invariant forall id :: if id in perRace then perRace[id] == SplitsOf(cps[..k], id) else SplitsOf(cps[..k], id) == map[]
    {
      var c := cps[k];
      assert cps[..k + 1][..k] == cps[..k];
      if c.raceId !in perRace {
        ids, perRace := ids + [c.raceId], perRace[c.raceId := map[]];
      }
      var splits: map<nat, int> := perRace[c.raceId];
      perRace := perRace[c.raceId := splits + map[c.number := c.time]];
      if c.number > maxNum { maxNum := c.number; }
    }
    assert cps[..|cps|] == cps;
  }

  /** One race's pass over the checkpoints: `prev` is the last split, or null after a missing one. */
  method ScanRace(best: array<Option<Best>>, r: Race, maxNum: nat)
    requires best.Length == maxNum + 2
    modifies best
    ensures forall n: nat :: n < maxNum + 2 ==> best[n] == Improve(old(best[n]), Delta(r, maxNum, n), r.id)
  {
    hide Improve;
    var prev: Option<int> := Some(0);
    for n := 0 to maxNum + 1
      invariant prev == Start(r, n)
      invariant forall k: nat :: k < n ==> best[k] == Improve(old(best[k]), Delta(r, maxNum, k), r.id)
      invariant forall k: nat :: n <= k < maxNum + 2 ==> best[k] == old(best[k])
    {
      ImproveByNone(best[n], r.id);
      var t := Split(r, n);
      if t.Some? && prev.Some? {
        best[n] := Improve(best[n], if t.value - prev.value > 0 then Some(t.value - prev.value) else None, r.id);
      }
      prev := t;
    }
    ImproveByNone(best[maxNum + 1], r.id);
    if prev.Some? && r.finish.Some? && r.finish.value > prev.value {
      best[maxNum + 1] := Improve(best[maxNum + 1], Some(r.finish.value - prev.value), r.id);
    }
  }

  lemma ImproveByNone(b: Option<Best>, id: nat)
    ensures Improve(b, None, id) == b
  {
  }

  /** The segment list as returned: each best, and the running sum of the bests so far. */
  predicate SegmentsAre(segments: seq<Segment>, races: seq<Race>, m: nat) {
    forall k: nat :: k < |segments| ==>
      segments[k] == if BestDelta(races, m, k).None? then Segment(None, None)
                     else Segment(BestDelta(races, m, k), Some(Total(races, m, k + 1)))
  }

  method Stitch(best: array<Option<Best>>, ghost races: seq<Race>, m: nat) returns (time: Option<int>, segments: seq<Segment>)
    requires best.Length == m + 2 && forall n: nat :: n < m + 2 ==> best[n] == BestOf(races, m, n)
    ensures time == PerfectTime(races, m) && |segments| == m + 2 && SegmentsAre(segments, races, m)
  {
    var total, complete := 0, true;
    segments := [];
    for n := 0 to m + 2
      invariant total == Total(races, m, n) && (complete <==> Complete(races, m, n))
      invariant |segments| == n && SegmentsAre(segments, races, m)
    {
      match best[n]
      case None =>
        assert BestDelta(races, m, n).None?;
        complete := false;
        segments := segments + [Segment(None, None)];
      case Some(b) =>
        assert BestDelta(races, m, n) == Some(b.delta);
        total := total + b.delta;
        segments := segments + [Segment(Some(b.delta), Some(total))];
    }
    time := if complete then Some(total) else None;
  }

  /** The whole computation. No race or no checkpoint: no perfect run. */
  method Compute(rows: seq<RaceRow>, cps: seq<Checkpoint>, wr: Option<int>) returns (result: Option<Result>)
    ensures result.None? <==> rows == [] || MaxNumber(cps) < 0
    ensures result.Some? ==>
      var races, m := Scanned(rows, cps, RaceIds(cps)), MaxNumber(cps);
      && result.value.time == PerfectTime(races, m)
      && |result.value.segments| == m + 2 && SegmentsAre(result.value.segments, races, m)
      && result.value.savingVsWr
         == if PerfectTime(races, m).Some? && wr.Some? then Some(wr.value - PerfectTime(races, m).value) else None
  {
    hide Improve, Delta, PerfectTime, SegmentsAre;
    if rows == [] { return None; }
    var ids, perRace, maxNum := Group(cps);
    if maxNum < 0 { return None; }
    var finishById := FinishTimes(rows);
    var best := new Option<Best>[maxNum + 2](_ => None);
    ghost var races := Scanned(rows, cps, ids);
    for k := 0 to |ids|
      invariant forall n: nat :: n < maxNum + 2 ==> best[n] == BestOf(races[..k], maxNum, n)
    {
      var id := ids[k];
      var race := Race(id, perRace[id], if id in finishById then Some(finishById[id]) else None);
      assert race == races[k] && races[..k + 1][..k] == races[..k];
      ScanRace(best, race, maxNum);
    }
    assert races[..|ids|] == races;
    var time, segments := Stitch(best, races, maxNum);
    result := Some(Result(time, segments, if time.Some? && wr.Some? then Some(wr.value - time.value) else None));
  }
}
