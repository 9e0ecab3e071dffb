/** The `race` table: best-time rows, monotonic ids and ranks (web/db.js, the record loop and the rank
    update of `_ingestTx`, `_nextRaceId`, `recordsAfter`). */
module Leaderboard {
  import opened Wrappers

  /** The unique key of a race row. */
  datatype RaceKey = RaceKey(player: nat, course: string, version: string)

  datatype Race = Race(key: RaceKey, time: int, splits: seq<int>, globalRank: nat, versionRank: nat)

  /** The `race` table by primary key, its unique index, and the `next_race_id` counter. */
  datatype Board = Board(next: nat, rows: map<nat, Race>, byKey: map<RaceKey, nat>)

  const NO_RACES := Board(1, map[], map[])

  /** The column default of both rank columns until the next rank update. */
  const UNRANKED := 99999

  ghost predicate Indexed(b: Board) {
    && 0 < b.next
    && (forall id :: id in b.rows ==> 0 < id < b.next && b.rows[id].key in b.byKey && b.byKey[b.rows[id].key] == id)
    && (forall k :: k in b.byKey ==> b.byKey[k] in b.rows && b.rows[b.byKey[k]].key == k)
  }

  function TimeOf(b: Board, k: RaceKey): Option<int> {
    if k in b.byKey && b.byKey[k] in b.rows then Some(b.rows[b.byKey[k]].time) else None
  }

  /** The rows of a map that beat a time. */
  function Faster(rows: map<nat, Race>, course: string, time: int): set<nat> {
    set id | id in rows && rows[id].key.course == course && rows[id].time < time
  }

  function FasterIn(rows: map<nat, Race>, course: string, version: string, time: int): set<nat> {
    set id | id in rows && rows[id].key.course == course && rows[id].key.version == version && rows[id].time < time
  }

  predicate RankedRow(rows: map<nat, Race>, id: nat)
    requires id in rows
  {
    var r := rows[id];
    && r.globalRank == 1 + |Faster(rows, r.key.course, r.time)|
    && r.versionRank == 1 + |FasterIn(rows, r.key.course, r.key.version, r.time)|
  }

  ghost predicate Ranked(b: Board) { forall id :: id in b.rows ==> RankedRow(b.rows, id) }

  /** Ranks are right on every map but one. */
  ghost predicate RankedElsewhere(b: Board, course: string) {
    forall id :: id in b.rows && b.rows[id].key.course != course ==> RankedRow(b.rows, id)
  }

  // ---- one record ---------------------------------------------------------------------------

  datatype Outcome = Unchanged | Improved | Inserted

  /** One record: kept out unless strictly faster; an improved row is replaced under a new id. */
  function Upsert(b: Board, k: RaceKey, time: int, splits: seq<int>): (Board, Outcome) {
    if k in b.byKey && b.byKey[k] in b.rows && b.rows[b.byKey[k]].time <= time then (b, Unchanged)
    else
      var kept := if k in b.byKey then b.rows - {b.byKey[k]} else b.rows;
      (Board(b.next + 1, kept[b.next := Race(k, time, splits, UNRANKED, UNRANKED)], b.byKey[k := b.next]),
       if k in b.byKey then Improved else Inserted)
  }

  /** b became c by ingesting: ids are never reused, surviving rows keep their key and time, and no time
      is beaten by fewer rows of any map than before. */
  ghost predicate Evolves(b: Board, c: Board) {
    && b.next <= c.next
    && (forall id :: id in c.rows && id < b.next ==>
        id in b.rows && b.rows[id].key == c.rows[id].key && b.rows[id].time == c.rows[id].time)
    && (forall m, t :: |Faster(b.rows, m, t)| <= |Faster(c.rows, m, t)|)
  }

  lemma SubsetSize(a: set<nat>, b: set<nat>)
    requires a <= b
    ensures |a| <= |b|
  {
    assert b == a + (b - a);
  }

  lemma UpsertKeepsIndex(b: Board, k: RaceKey, time: int, splits: seq<int>)
    requires Indexed(b)
    ensures Indexed(Upsert(b, k, time, splits).0)
  {
    var c := Upsert(b, k, time, splits).0;
    if c != b {
      assert b.next !in b.rows;
      forall id | id in c.rows ensures 0 < id < c.next && c.rows[id].key in c.byKey && c.byKey[c.rows[id].key] == id {
        if id != b.next { assert id in b.rows && c.rows[id] == b.rows[id] && b.rows[id].key != k; }
      }
      forall j | j in c.byKey ensures c.byKey[j] in c.rows && c.rows[c.byKey[j]].key == j {
        if j != k { assert j in b.byKey && b.byKey[j] in b.rows; }
      }
    }
  }

  /** The best time of the record's key becomes the smaller of the two; no other best time moves. */
  lemma UpsertKeepsBest(b: Board, k: RaceKey, time: int, splits: seq<int>, j: RaceKey)
    requires Indexed(b)
    ensures TimeOf(Upsert(b, k, time, splits).0, j) ==
      if j != k then TimeOf(b, j)
      else if TimeOf(b, k).Some? && TimeOf(b, k).value <= time then TimeOf(b, k) else Some(time)
  {
    var c := Upsert(b, k, time, splits).0;
    if c != b && j != k && j in b.byKey {
      assert b.byKey[j] in b.rows && b.byKey[j] != b.next;
    }
  }

  lemma SwapKeepsSize(f: set<nat>, gone: nat, new_: nat, g: set<nat>)
    requires gone in f && new_ !in f && f - {gone} + {new_} <= g
    ensures |f| <= |g|
  {
    SubsetSize(f - {gone} + {new_}, g);
  }

  /** The rows that beat a time after an upsert: those before, but for a replaced one whose successor beats it too. */
  lemma UpsertKeepsFaster(b: Board, k: RaceKey, time: int, splits: seq<int>, m: string, t: int)
    requires Indexed(b)
    ensures var f, g := Faster(b.rows, m, t), Faster(Upsert(b, k, time, splits).0.rows, m, t);
      || f <= g
      || (b.next !in f && k in b.byKey && b.byKey[k] in f && f - {b.byKey[k]} + {b.next} <= g)
  {
    assert b.next !in b.rows;
  }

  lemma UpsertFaster(b: Board, k: RaceKey, time: int, splits: seq<int>, m: string, t: int)
    requires Indexed(b)
    ensures |Faster(b.rows, m, t)| <= |Faster(Upsert(b, k, time, splits).0.rows, m, t)|
  {
    UpsertKeepsFaster(b, k, time, splits, m, t);
    hide Upsert, Faster, Indexed;
    var f, g := Faster(b.rows, m, t), Faster(Upsert(b, k, time, splits).0.rows, m, t);
    if f <= g { SubsetSize(f, g); } else { SwapKeepsSize(f, b.byKey[k], b.next, g); }
  }

  /** Replacing a row only by a strictly faster one never promotes anybody else. */
  lemma UpsertEvolves(b: Board, k: RaceKey, time: int, splits: seq<int>)
    requires Indexed(b)
    ensures Evolves(b, Upsert(b, k, time, splits).0)
  {
    forall m, t ensures |Faster(b.rows, m, t)| <= |Faster(Upsert(b, k, time, splits).0.rows, m, t)| {
      UpsertFaster(b, k, time, splits, m, t);
    }
  }

  lemma UpsertShape(b: Board, k: RaceKey, time: int, splits: seq<int>)
    ensures var (c, outcome) := Upsert(b, k, time, splits);
      && (outcome == Unchanged ==> c == b)
      && c.byKey == if outcome == Unchanged then b.byKey else b.byKey[k := b.next]
  {
  }

  lemma UpsertKeepsOtherRanks(b: Board, k: RaceKey, time: int, splits: seq<int>)
    requires Indexed(b) && RankedElsewhere(b, k.course)
    ensures RankedElsewhere(Upsert(b, k, time, splits).0, k.course)
  {
    var c := Upsert(b, k, time, splits).0;
    forall id | id in c.rows && c.rows[id].key.course != k.course ensures RankedRow(c.rows, id) {
      var r := c.rows[id];
      assert id in b.rows && b.rows[id] == r && RankedRow(b.rows, id);
      assert Faster(c.rows, r.key.course, r.time) == Faster(b.rows, r.key.course, r.time);
      assert FasterIn(c.rows, r.key.course, r.key.version, r.time) == FasterIn(b.rows, r.key.course, r.key.version, r.time);
    }
  }

  lemma EvolvesTransitive(a: Board, b: Board, c: Board)
    requires Evolves(a, b) && Evolves(b, c)
    ensures Evolves(a, c)
  {
    forall m, t ensures |Faster(a.rows, m, t)| <= |Faster(c.rows, m, t)| {
      assert |Faster(a.rows, m, t)| <= |Faster(b.rows, m, t)|;
    }
  }

  // ---- the rank update ----------------------------------------------------------------------

  /** `UPDATE race SET .. RANK() OVER (ORDER BY time) ..` for the rows of one map. */
  function Rerank(b: Board, course: string): Board {
    b.(rows := map id | id in b.rows ::
      if b.rows[id].key.course != course then b.rows[id] else
      b.rows[id].(globalRank := 1 + |Faster(b.rows, course, b.rows[id].time)|,
                  versionRank := 1 + |FasterIn(b.rows, course, b.rows[id].key.version, b.rows[id].time)|))
  }

  lemma RerankFaster(b: Board, course: string, m: string, v: string, t: int)
    ensures Faster(Rerank(b, course).rows, m, t) == Faster(b.rows, m, t)
    ensures FasterIn(Rerank(b, course).rows, m, v, t) == FasterIn(b.rows, m, v, t)
  {
  }

  lemma RerankKeepsIndex(b: Board, course: string)
    requires Indexed(b)
    ensures Indexed(Rerank(b, course))
    ensures forall k :: TimeOf(Rerank(b, course), k) == TimeOf(b, k)
  {
    var c := Rerank(b, course);
    assert c.rows.Keys == b.rows.Keys;
    assert forall id :: id in b.rows ==> c.rows[id].key == b.rows[id].key && c.rows[id].time == b.rows[id].time;
  }

  lemma RerankEvolves(b: Board, course: string)
    ensures Evolves(b, Rerank(b, course))
  {
    forall m, t ensures |Faster(b.rows, m, t)| <= |Faster(Rerank(b, course).rows, m, t)| {
      RerankFaster(b, course, m, "", t);
    }
  }

  /** The update repairs the one map it touches and disturbs no other. */
  lemma RerankRanks(b: Board, course: string)
    requires RankedElsewhere(b, course)
    ensures Ranked(Rerank(b, course))
  {
    var c := Rerank(b, course);
    forall id | id in c.rows ensures RankedRow(c.rows, id) {
      var r := b.rows[id];
      RerankFaster(b, course, r.key.course, r.key.version, r.time);
      if r.key.course != course { assert RankedRow(b.rows, id); }
    }
  }

  /** Between two ranked boards of one history, a surviving row's rank number never goes down. */
  lemma NoPromotion(b: Board, c: Board, id: nat)
    requires Indexed(b) && Ranked(b) && Ranked(c) && Evolves(b, c)
    requires id in b.rows && id in c.rows
    ensures b.rows[id].globalRank <= c.rows[id].globalRank
  {
    var r := b.rows[id];
    assert RankedRow(b.rows, id) && RankedRow(c.rows, id);
    assert |Faster(b.rows, r.key.course, r.time)| <= |Faster(c.rows, r.key.course, r.time)|;
  }

  // ---- recordsAfter -------------------------------------------------------------------------

  function Clamp50(n: int): (r: nat)
    ensures 1 <= r <= 50
  {
    if n < 1 then 1 else if n > 50 then 50 else n
  }

  predicate Qualifies(b: Board, id: nat, maxRank: nat) {
    id in b.rows && b.rows[id].globalRank <= maxRank
  }

  /** `WHERE r.id >= from AND r.global_rank <= maxRank ORDER BY r.id LIMIT limit`, as ids. */
  function PageFrom(b: Board, from: nat, maxRank: nat, limit: nat): (page: seq<nat>)
    decreases b.next - from
  {
    if limit == 0 || from >= b.next then []
    else if Qualifies(b, from, maxRank) then [from] + PageFrom(b, from + 1, maxRank, limit - 1)
    else PageFrom(b, from + 1, maxRank, limit)
  }

  /** The ids of GET /api/records: both limits are clamped to 1..50 by the server. */
  function RecordsAfter(b: Board, afterId: nat, maxRank: int, limit: int): seq<nat> {
    PageFrom(b, afterId + 1, Clamp50(maxRank), Clamp50(limit))
  }

  /** `SELECT COALESCE(MAX(id), 0) FROM race`, searching ids below n. */
  function MaxBelow(rows: map<nat, Race>, n: nat): (m: nat)
    ensures m == 0 || (m in rows && m < n)
    ensures forall id :: id in rows && id < n ==> id <= m
  {
    if n == 0 then 0 else if n - 1 in rows then n - 1 else MaxBelow(rows, n - 1)
  }

  function MaxId(b: Board): nat { MaxBelow(b.rows, b.next) }

  ghost predicate Increasing(s: seq<nat>) { forall i, j :: 0 <= i < j < |s| ==> s[i] < s[j] }

  /** A page is the first `limit` qualifying ids in increasing order: nothing below its last id is left
      out, and nothing at all is left out when it is short. */
  lemma {:induction false} PageIsFirst(b: Board, from: nat, maxRank: nat, limit: nat)
    ensures var p := PageFrom(b, from, maxRank, limit);
      && |p| <= limit && Increasing(p)
      && (forall i :: 0 <= i < |p| ==> from <= p[i] < b.next && Qualifies(b, p[i], maxRank))
      && (forall id :: from <= id < b.next && Qualifies(b, id, maxRank) ==>
          id in p || (|p| == limit && forall i :: 0 <= i < |p| ==> p[i] < id))
    decreases b.next - from
  {
    var p := PageFrom(b, from, maxRank, limit);
    if limit != 0 && from < b.next {
      if Qualifies(b, from, maxRank) {
        PageIsFirst(b, from + 1, maxRank, limit - 1);
        var q := PageFrom(b, from + 1, maxRank, limit - 1);
        assert p == [from] + q;
        forall id | from <= id < b.next && Qualifies(b, id, maxRank)
          ensures id in p || (|p| == limit && forall i :: 0 <= i < |p| ==> p[i] < id)
        {
          if id == from { assert p[0] == id; } else if id in q { assert id in p; }
        }
      } else {
        PageIsFirst(b, from + 1, maxRank, limit);
      }
    }
  }

  /** What GET /api/records answers: for limits and ranks from 1 to 50, the first `limit` rows after the id with at most
      that rank, in order of their ids; numbers out of that range count as its ends. */
  lemma RecordsAfterIs(b: Board, afterId: nat, maxRank: int, limit: int)
    ensures var p := RecordsAfter(b, afterId, maxRank, limit);
      var rank, most := (if maxRank < 1 then 1 else if maxRank > 50 then 50 else maxRank), if limit < 1 then 1 else if limit > 50 then 50 else limit;
      && |p| <= most && Increasing(p)
      && (forall i :: 0 <= i < |p| ==> afterId < p[i] < b.next && Qualifies(b, p[i], rank))
      && (forall id :: afterId < id < b.next && Qualifies(b, id, rank) ==>
          id in p || (|p| == most && forall i :: 0 <= i < |p| ==> p[i] < id))
  {
    PageIsFirst(b, afterId + 1, Clamp50(maxRank), Clamp50(limit));
    hide PageFrom;
  }
}
