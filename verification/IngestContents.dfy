/** What the tables hold after any run of serial ingests, read off the requests alone (web/db.js, `_ingestTx`): the
    stored runs with their splits, the finish log, the tallies and the daily buckets. */
module IngestContents {
  import opened Wrappers
  import C = Canonical
  import opened Leaderboard
  import opened Ingest
  import H = IngestHistory

  // ---- read off the requests ------------------------------------------------------------------

  /** A run as submitted: its time and its splits. */
  datatype Lap = Lap(time: int, splits: seq<int>)

  /** The player's laps among the first n records, in order. */
  function LapsIn(q: Request, n: nat, w: C.Who): seq<Lap>
    requires n <= |q.records|
  {
    if n == 0 then [] else
    LapsIn(q, n - 1, w) + if q.records[n - 1].who == w then [Lap(q.records[n - 1].time, q.records[n - 1].splits)] else []
  }

  /** Whether the request is about this map and version. */
  predicate About(q: Request, course: string, version: string) { q.course == course && q.version == version }

  /** Every lap submitted for a player, map and version; with `logged`, only the live ones. */
  function Laps(qs: seq<Request>, w: C.Who, course: string, version: string, logged: bool): seq<Lap> {
    if qs == [] then [] else
    var q := qs[|qs| - 1];
    Laps(qs[..|qs| - 1], w, course, version, logged)
      + if About(q, course, version) && (q.racelog || !logged) then LapsIn(q, |q.records|, w) else []
  }

  /** The starts a record stands for: as reported, or one. */
  function Starts(r: Rec): int { match r.attempts case Some(n) => n case None => 1 }

  function AboveZero(n: int): nat { if n <= 0 then 0 else n }

  function AttemptsIn(q: Request, attempts: nat, records: nat, w: C.Who): int
    requires attempts <= |q.attempts| && records <= |q.records|
    decreases attempts + records
  {
    if records > 0 then
      AttemptsIn(q, attempts, records - 1, w) + if q.records[records - 1].who == w then Starts(q.records[records - 1]) else 0
    else if attempts > 0 then
      AttemptsIn(q, attempts - 1, 0, w) + if q.attempts[attempts - 1].who == w then q.attempts[attempts - 1].count else 0
    else 0
  }

  /** The attempts live requests report for a player, map and version. */
  function Reported(qs: seq<Request>, w: C.Who, course: string, version: string): int {
    if qs == [] then 0 else
    var q := qs[|qs| - 1];
    Reported(qs[..|qs| - 1], w, course, version)
      + if About(q, course, version) && q.racelog then AttemptsIn(q, |q.attempts|, |q.records|, w) else 0
  }

  /** All attempts above zero that a live request reports. */
  function VolumeIn(q: Request, attempts: nat, records: nat): nat
    requires attempts <= |q.attempts| && records <= |q.records|
    decreases attempts + records
  {
    if records > 0 then VolumeIn(q, attempts, records - 1) + AboveZero(Starts(q.records[records - 1]))
    else if attempts > 0 then VolumeIn(q, attempts - 1, 0) + AboveZero(q.attempts[attempts - 1].count)
    else 0
  }

  /** The attempts of one day on one server. */
  function Volume(qs: seq<Request>, b: Bucket): nat {
    if qs == [] then 0 else
    var q := qs[|qs| - 1];
    Volume(qs[..|qs| - 1], b) + if q.racelog && Bucket(q.day, q.server) == b then VolumeIn(q, |q.attempts|, |q.records|) else 0
  }

  // ---- read off the tables --------------------------------------------------------------------

  /** The stored run of a player, map and version, and its tally. */
  datatype Content = Content(best: Option<Lap>, finishes: nat, attempts: int)

  function LapOf(b: Board, k: RaceKey): Option<Lap> {
    if k in b.byKey && b.byKey[k] in b.rows then Some(Lap(b.rows[b.byKey[k]].time, b.rows[b.byKey[k]].splits)) else None
  }

  function TallyOf(a: Activity, k: RaceKey): Tally { if k in a.tally then a.tally[k] else Tally(0, 0) }

  function ContentOf(db: Db, w: C.Who, course: string, version: string): Content {
    if w !in db.people.byWho then Content(None, 0, 0) else
    var k := RaceKey(db.people.byWho[w], course, version);
    Content(LapOf(db.board, k), TallyOf(db.activity, k).finishes, TallyOf(db.activity, k).attempts)
  }

  // ---- one step at a time ---------------------------------------------------------------------

  /** Every tally row belongs to a player row. */
  ghost predicate TallyOwned(db: Db) { forall k :: k in db.activity.tally ==> k.player in db.people.rows }

  function Better(best: Option<Lap>, l: Lap): Option<Lap> { if best.None? || l.time < best.value.time then Some(l) else best }

  lemma UpsertKeepsLap(b: Board, k: RaceKey, time: int, splits: seq<int>, j: RaceKey)
    requires Indexed(b)
    ensures LapOf(Upsert(b, k, time, splits).0, j) == if j == k then Better(LapOf(b, k), Lap(time, splits)) else LapOf(b, j)
  {
    var c := Upsert(b, k, time, splits).0;
    if c != b && j != k && j in b.byKey { assert b.byKey[j] in b.rows && b.byKey[j] != b.next; }
  }

  lemma RerankKeepsLap(b: Board, course: string, j: RaceKey)
    ensures LapOf(Rerank(b, course), j) == LapOf(b, j)
  {
  }

  /** Who is resolved to which row: the one it has, or a new one. */
  lemma ResolveIs(p: C.People, r: C.Who, w: C.Who)
    requires C.Valid(p)
    ensures var (people, id) := C.Resolve(p, r);
      && people.byWho == p.byWho[r := id] && id in people.rows && p.rows.Keys <= people.rows.Keys
      && (r in p.byWho ==> id == p.byWho[r]) && (r !in p.byWho ==> id !in p.rows)
      && (w in people.byWho && people.byWho[w] == id ==> w == r)
  {
    hide C.Resolve, C.Valid;
    C.ResolveIndex(p, r);
    C.ResolveKeepsGrouping(p, r);
    var (people, id) := C.Resolve(p, r);
    WhoOf(people, w);
    WhoOf(p, r);
    if id in p.rows { WhoIn(p, id); }
    if r in p.byWho { WhoIn(people, p.byWho[r]); }
  }

  lemma NoContent(db: Db, id: nat, course: string, version: string)
    requires H.Owned(db) && TallyOwned(db) && id !in db.people.rows
    ensures LapOf(db.board, RaceKey(id, course, version)) == None && TallyOf(db.activity, RaceKey(id, course, version)) == Tally(0, 0)
  {
  }

  /** A new player row brings nothing with it. */
  lemma ResolveKeepsContent(db: Db, r: C.Who, w: C.Who, course: string, version: string)
    requires H.Sound(db) && TallyOwned(db)
    ensures var (people, id) := C.Resolve(db.people, r);
      && ContentOf(Db(people, db.board, db.activity), w, course, version) == ContentOf(db, w, course, version)
      && r in people.byWho && people.byWho[r] == id && id in people.rows && db.people.rows.Keys <= people.rows.Keys
      && (w in people.byWho && people.byWho[w] == id ==> w == r)
  {
    hide C.Resolve, C.Valid, H.Owned, TallyOwned, LapOf, TallyOf;
    ResolveIs(db.people, r, w);
    if r !in db.people.byWho { NoContent(db, C.Resolve(db.people, r).1, course, version); }
  }

  lemma WhoOf(p: C.People, w: C.Who)
    requires C.Valid(p)
    ensures w in p.byWho ==> p.byWho[w] in p.rows && p.rows[p.byWho[w]].who == w
  {
  }

  lemma WhoIn(p: C.People, id: nat)
    requires C.Valid(p) && id in p.rows
    ensures p.rows[id].who in p.byWho && p.byWho[p.rows[id].who] == id
  {
  }

  lemma LogFinishTallies(a: Activity, k: RaceKey, time: int, splits: seq<int>, count: int, j: RaceKey)
    ensures var b := LogFinish(a, k, time, splits, count); var t := TallyOf(a, j);
      && TallyOf(b, j) == (if j == k then Tally(t.finishes + 1, t.attempts + count) else t)
      && b.tally.Keys == a.tally.Keys + {k}
  {
  }

  lemma AttemptStepContent(tx: Tx, q: Request, a: Attempt, w: C.Who, course: string, version: string)
    requires H.Sound(tx.db) && TallyOwned(tx.db)
    ensures var s := AttemptStep(tx, q, a); var x := ContentOf(tx.db, w, course, version);
      && TallyOwned(s.db)
      && ContentOf(s.db, w, course, version) == if a.who == w && About(q, course, version) then x.(attempts := x.attempts + a.count) else x
  {
    hide C.Resolve, H.Sound;
    ResolveKeepsContent(tx.db, a.who, w, course, version);
  }

  lemma RecordStepContent(tx: Tx, q: Request, r: Rec, w: C.Who, course: string, version: string)
    requires H.Sound(tx.db) && TallyOwned(tx.db)
    ensures var s := RecordStep(tx, q, r); var x := ContentOf(tx.db, w, course, version);
      && TallyOwned(s.db)
      && ContentOf(s.db, w, course, version) ==
        if r.who != w || !About(q, course, version) then x
        else if q.racelog then Content(Better(x.best, Lap(r.time, r.splits)), x.finishes + 1, x.attempts + AttemptCount(r))
        else x.(best := Better(x.best, Lap(r.time, r.splits)))
  {
    hide C.Resolve, Upsert, Better, LapOf, TallyOf, LogFinish, H.Sound, AttemptCount;
    ResolveKeepsContent(tx.db, r.who, w, course, version);
    BoardIndexed(tx.db);
    var (people, id) := C.Resolve(tx.db.people, r.who);
    var k, j := RaceKey(id, q.course, q.version), RaceKey(if w in people.byWho then people.byWho[w] else 0, course, version);
    UpsertKeepsLap(tx.db.board, k, r.time, r.splits, j);
    LogFinishTallies(tx.db.activity, k, r.time, r.splits, AttemptCount(r), j);
  }

  lemma BoardIndexed(db: Db)
    requires H.Sound(db)
    ensures Indexed(db.board)
  {
  }

  // ---- one request ------------------------------------------------------------------------------

  /** The best lap after some more laps: only a strictly faster one replaces it. */
  function FirstOf(best: Option<Lap>, laps: seq<Lap>): Option<Lap> {
    if laps == [] then best else Better(FirstOf(best, laps[..|laps| - 1]), laps[|laps| - 1])
  }

  lemma {:induction false} FirstOfConcat(best: Option<Lap>, a: seq<Lap>, b: seq<Lap>)
    ensures FirstOf(best, a + b) == FirstOf(FirstOf(best, a), b)
    decreases |b|
  {
    if b == [] {
      assert a + b == a;
    } else {
      var n := |b| - 1;
      FirstOfConcat(best, a, b[..n]);
      assert (a + b)[..|a| + n] == a + b[..n];
    }
  }

  lemma {:induction false} AttemptsSplit(q: Request, attempts: nat, records: nat, w: C.Who)
    requires attempts <= |q.attempts| && records <= |q.records|
    ensures AttemptsIn(q, attempts, records, w) == AttemptsIn(q, attempts, 0, w) + AttemptsIn(q, 0, records, w)
  {
    if records > 0 { AttemptsSplit(q, attempts, records - 1, w); }
  }

  lemma {:induction false} AfterAttemptsContent(tx: Tx, q: Request, n: nat, w: C.Who, course: string, version: string)
    requires H.Working(tx.db, q.course) && TallyOwned(tx.db) && n <= |q.attempts|
    ensures var s := AfterAttempts(tx, q, n); var x := ContentOf(tx.db, w, course, version);
      && TallyOwned(s.db)
      && ContentOf(s.db, w, course, version)
         == x.(attempts := x.attempts + if About(q, course, version) then AttemptsIn(q, n, 0, w) else 0)
  {
    hide AttemptStep, H.Sound, TallyOwned, ContentOf;
    if n != 0 {
      AfterAttemptsContent(tx, q, n - 1, w, course, version);
      H.AfterAttemptsKeeps(tx, q, n - 1);
      AttemptStepContent(AfterAttempts(tx, q, n - 1), q, q.attempts[n - 1], w, course, version);
    }
  }

  /** What the first n records add to a player's content. */
  function Told(x: Content, q: Request, n: nat, w: C.Who, course: string, version: string): Content
    requires n <= |q.records|
  {
    if !About(q, course, version) then x
    else if q.racelog then
      Content(FirstOf(x.best, LapsIn(q, n, w)), x.finishes + |LapsIn(q, n, w)|, x.attempts + AttemptsIn(q, 0, n, w))
    else x.(best := FirstOf(x.best, LapsIn(q, n, w)))
  }

  /** One more record: its lap and its attempts, when it is the player's. */
  lemma OneMore(q: Request, n: nat, w: C.Who)
    requires 0 < n <= |q.records|
    ensures var r := q.records[n - 1];
      && LapsIn(q, n, w) == LapsIn(q, n - 1, w) + (if r.who == w then [Lap(r.time, r.splits)] else [])
      && AttemptsIn(q, 0, n, w) == AttemptsIn(q, 0, n - 1, w) + if r.who == w then AttemptCount(r) else 0
  {
  }

  lemma FirstOfOne(best: Option<Lap>, laps: seq<Lap>, lap: Lap)
    ensures FirstOf(best, laps + [lap]) == Better(FirstOf(best, laps), lap)
  {
    hide Better;
    assert (laps + [lap])[..|laps|] == laps;
  }

  lemma ToldMore(x: Content, q: Request, n: nat, w: C.Who, course: string, version: string)
    requires 0 < n <= |q.records|
    ensures var y, r := Told(x, q, n - 1, w, course, version), q.records[n - 1];
      Told(x, q, n, w, course, version) ==
        if r.who != w || !About(q, course, version) then y
        else if q.racelog then Content(Better(y.best, Lap(r.time, r.splits)), y.finishes + 1, y.attempts + AttemptCount(r))
        else y.(best := Better(y.best, Lap(r.time, r.splits)))
  {
    hide Better, FirstOf, LapsIn, AttemptsIn, AttemptCount;
    var r := q.records[n - 1];
    OneMore(q, n, w);
    FirstOfOne(x.best, LapsIn(q, n - 1, w), Lap(r.time, r.splits));
    assert LapsIn(q, n - 1, w) + [] == LapsIn(q, n - 1, w);
  }

  lemma {:induction false} AfterRecordsContent(tx: Tx, q: Request, n: nat, w: C.Who, course: string, version: string)
    requires H.Working(tx.db, q.course) && TallyOwned(tx.db) && n <= |q.records|
    requires tx.counts.inserted == 0 && tx.counts.improved == 0
    ensures var s := AfterRecords(tx, q, n);
      && TallyOwned(s.db)
      && ContentOf(s.db, w, course, version) == Told(ContentOf(tx.db, w, course, version), q, n, w, course, version)
  {
    hide RecordStep, H.Sound, TallyOwned, ContentOf, Evolves;
    var x := ContentOf(tx.db, w, course, version);
    if n != 0 {
      AfterRecordsContent(tx, q, n - 1, w, course, version);
      H.AfterRecordsKeeps(tx, q, n - 1);
      RecordStepContent(AfterRecords(tx, q, n - 1), q, q.records[n - 1], w, course, version);
      ToldMore(x, q, n, w, course, version);
      hide Told;
    }
  }

  lemma AttemptsContent(db: Db, q: Request, w: C.Who, course: string, version: string)
    requires H.Valid(db) && TallyOwned(db)
    ensures var tx := Attempts(db, q); var x := ContentOf(db, w, course, version);
      && H.Working(tx.db, q.course) && TallyOwned(tx.db) && tx.counts.inserted == 0 && tx.counts.improved == 0
      && ContentOf(tx.db, w, course, version)
         == x.(attempts := x.attempts + if q.racelog && About(q, course, version) then AttemptsIn(q, |q.attempts|, 0, w) else 0)
  {
    hide H.Sound, TallyOwned, ContentOf;
    H.AttemptsKeepTables(db, q);
    if q.racelog { AfterAttemptsContent(Begin(db), q, |q.attempts|, w, course, version); }
  }

  lemma FinalizeContent(tx: Tx, q: Request, w: C.Who, course: string, version: string)
    ensures ContentOf(Finalize(tx, q), w, course, version) == ContentOf(tx.db, w, course, version)
    ensures TallyOwned(tx.db) ==> TallyOwned(Finalize(tx, q))
  {
    hide LapOf, Rerank;
    if w in tx.db.people.byWho { RerankKeepsLap(tx.db.board, q.course, RaceKey(tx.db.people.byWho[w], course, version)); }
  }

  lemma IngestContent(db: Db, q: Request, w: C.Who, course: string, version: string)
    requires H.Valid(db) && TallyOwned(db)
    ensures var x, y := ContentOf(db, w, course, version), ContentOf(IngestTx(db, q), w, course, version);
      && TallyOwned(IngestTx(db, q))
      && y == if !About(q, course, version) then x else
         Content(FirstOf(x.best, LapsIn(q, |q.records|, w)),
                 x.finishes + (if q.racelog then |LapsIn(q, |q.records|, w)| else 0),
                 x.attempts + (if q.racelog then AttemptsIn(q, |q.attempts|, |q.records|, w) else 0))
  {
    hide H.Working, H.Valid, TallyOwned, ContentOf, Attempts, AfterRecords, Finalize;
    AttemptsContent(db, q, w, course, version);
    AfterRecordsContent(Attempts(db, q), q, |q.records|, w, course, version);
    FinalizeContent(Records(db, q), q, w, course, version);
    AttemptsSplit(q, |q.attempts|, |q.records|, w);
  }

  // ---- any run ------------------------------------------------------------------------------------

  lemma {:induction false} ContentOverRuns(qs: seq<Request>, w: C.Who, course: string, version: string)
    ensures var db := IngestAll(EMPTY_DB, qs);
      && H.Valid(db) && TallyOwned(db)
      && ContentOf(db, w, course, version)
         == Content(FirstOf(None, Laps(qs, w, course, version, false)), |Laps(qs, w, course, version, true)|,
                    Reported(qs, w, course, version))
    decreases |qs|
  {
    hide H.Valid, TallyOwned, IngestTx, FirstOf, LapsIn, AttemptsIn;
    EmptyContent(w, course, version);
    H.RunKeepsValid(EMPTY_DB, qs);
    if qs != [] {
      var front, q := qs[..|qs| - 1], qs[|qs| - 1];
      ContentOverRuns(front, w, course, version);
      hide ContentOf;
      IngestContent(IngestAll(EMPTY_DB, front), q, w, course, version);
      var laps := Laps(front, w, course, version, false);
      FirstOfConcat(None, laps, LapsIn(q, |q.records|, w));
      assert laps + [] == laps;
    }
  }

  lemma EmptyContent(w: C.Who, course: string, version: string)
    ensures H.Valid(EMPTY_DB) && TallyOwned(EMPTY_DB) && ContentOf(EMPTY_DB, w, course, version) == Content(FirstOf(None, []), 0, 0)
  {
  }

  /** The first of the fastest laps. */
  ghost predicate FirstFastest(laps: seq<Lap>, i: nat) {
    && i < |laps|
    && (forall j: nat :: j < |laps| ==> laps[i].time <= laps[j].time)
    && (forall j: nat :: j < i ==> laps[i].time < laps[j].time)
  }

  lemma {:induction false} FirstOfIs(laps: seq<Lap>) returns (i: nat)
    ensures FirstOf(None, laps).None? <==> laps == []
    ensures laps != [] ==> FirstFastest(laps, i) && FirstOf(None, laps) == Some(laps[i])
  {
    i := 0;
    if |laps| > 1 {
      var n := |laps| - 1;
      i := FirstOfIs(laps[..n]);
      assert FirstFastest(laps[..n], i);
      assert forall j: nat :: j < n ==> laps[..n][j] == laps[j];
      if laps[n].time < laps[i].time { i := n; }
    } else if |laps| == 1 {
      assert laps[..0] == [];
    }
  }

  /** Over every run from empty tables, by the requests alone: a player, map and version has a stored run exactly when
      one was submitted, and it is the first of the fastest with the splits it was submitted with; its tally has one
      finish for each live one, and the attempts the live requests reported. */
  lemma TablesHoldTheRequests(qs: seq<Request>, w: C.Who, course: string, version: string) returns (i: nat)
    ensures var x := ContentOf(IngestAll(EMPTY_DB, qs), w, course, version); var laps := Laps(qs, w, course, version, false);
      && (x.best.None? <==> laps == [])
      && (laps != [] ==> FirstFastest(laps, i) && x.best == Some(laps[i]))
      && x.finishes == |Laps(qs, w, course, version, true)|
      && x.attempts == Reported(qs, w, course, version)
  {
    hide H.Valid, ContentOf, FirstOf, FirstFastest;
    ContentOverRuns(qs, w, course, version);
    i := FirstOfIs(Laps(qs, w, course, version, false));
  }

  /** The same from the side of the table: each row is the first of the fastest runs of its player, map and version. */
  lemma RowsAreFirstFastest(qs: seq<Request>, id: nat) returns (w: C.Who, i: nat)
    requires id in IngestAll(EMPTY_DB, qs).board.rows
    ensures var db := IngestAll(EMPTY_DB, qs); var r := db.board.rows[id]; var laps := Laps(qs, w, r.key.course, r.key.version, false);
      && r.key.player in db.people.rows && db.people.rows[r.key.player].who == w
      && FirstFastest(laps, i) && laps[i] == Lap(r.time, r.splits)
  {
    hide FirstFastest, Laps, IngestAll, Reported;
    var db := IngestAll(EMPTY_DB, qs);
    H.RunKeepsValid(EMPTY_DB, qs);
    var k := db.board.rows[id].key;
    w := db.people.rows[k.player].who;
    WhoIn(db.people, k.player);
    i := TablesHoldTheRequests(qs, w, k.course, k.version);
    assert ContentOf(db, w, k.course, k.version).best == Some(Lap(db.board.rows[id].time, db.board.rows[id].splits));
  }

  // ---- the finish log ---------------------------------------------------------------------------

  /** A live run as submitted. */
  datatype LiveRun = LiveRun(who: C.Who, course: string, version: string, lap: Lap)

  function LiveIn(q: Request, n: nat): seq<LiveRun>
    requires n <= |q.records|
  {
    if n == 0 || !q.racelog then [] else
    LiveIn(q, n - 1) + [LiveRun(q.records[n - 1].who, q.course, q.version, Lap(q.records[n - 1].time, q.records[n - 1].splits))]
  }

  function Live(qs: seq<Request>): seq<LiveRun> {
    if qs == [] then [] else Live(qs[..|qs| - 1]) + LiveIn(qs[|qs| - 1], |qs[|qs| - 1].records|)
  }

  ghost predicate LogEntry(db: Db, f: Finish, run: LiveRun) {
    && run.who in db.people.byWho
    && f == Finish(RaceKey(db.people.byWho[run.who], run.course, run.version), run.lap.time, run.lap.splits)
  }

  ghost predicate LogIs(db: Db, runs: seq<LiveRun>) {
    |db.activity.log| == |runs| && forall i: nat :: i < |runs| ==> LogEntry(db, db.activity.log[i], runs[i])
  }

  lemma LogStays(db: Db, e: Db, r: C.Who, runs: seq<LiveRun>)
    requires C.Valid(db.people) && LogIs(db, runs)
    requires e.people == C.Resolve(db.people, r).0 && e.activity.log == db.activity.log
    ensures LogIs(e, runs)
  {
    hide C.Resolve, C.Valid;
    ResolveIs(db.people, r, r);
    forall i: nat | i < |runs| ensures LogEntry(e, e.activity.log[i], runs[i]) { assert LogEntry(db, db.activity.log[i], runs[i]); }
  }

  lemma {:induction false} AttemptsLog(tx: Tx, q: Request, n: nat, runs: seq<LiveRun>)
    requires H.Working(tx.db, q.course) && LogIs(tx.db, runs) && n <= |q.attempts|
    ensures LogIs(AfterAttempts(tx, q, n).db, runs)
  {
    hide C.Resolve, LogIs, C.Valid;
    if n != 0 {
      AttemptsLog(tx, q, n - 1, runs);
      H.AfterAttemptsKeeps(tx, q, n - 1);
      var m := AfterAttempts(tx, q, n - 1);
      LogStays(m.db, AfterAttempts(tx, q, n).db, q.attempts[n - 1].who, runs);
    }
  }

  lemma RecordLog(tx: Tx, q: Request, r: Rec, runs: seq<LiveRun>)
    requires C.Valid(tx.db.people) && LogIs(tx.db, runs)
    ensures LogIs(RecordStep(tx, q, r).db, runs + if q.racelog then [LiveRun(r.who, q.course, q.version, Lap(r.time, r.splits))] else [])
  {
    hide C.Resolve, C.Valid, Upsert;
    var (people, id) := C.Resolve(tx.db.people, r.who);
    LogStays(tx.db, tx.db.(people := people), r.who, runs);
    ResolveIs(tx.db.people, r.who, r.who);
    var s := RecordStep(tx, q, r).db;
    forall i: nat | i < |runs| ensures LogEntry(s, s.activity.log[i], runs[i]) {
      assert LogEntry(tx.db.(people := people), tx.db.activity.log[i], runs[i]);
    }
    if !q.racelog { assert runs + [] == runs; }
  }

  lemma {:induction false} RecordsLog(tx: Tx, q: Request, n: nat, runs: seq<LiveRun>)
    requires H.Working(tx.db, q.course) && LogIs(tx.db, runs) && n <= |q.records|
    requires tx.counts.inserted == 0 && tx.counts.improved == 0
    ensures LogIs(AfterRecords(tx, q, n).db, runs + LiveIn(q, n))
  {
    hide RecordStep, LogIs, C.Valid, Evolves;
    if n == 0 {
      assert runs + [] == runs;
    } else {
      RecordsLog(tx, q, n - 1, runs);
      H.AfterRecordsKeeps(tx, q, n - 1);
      var r := q.records[n - 1];
      RecordLog(AfterRecords(tx, q, n - 1), q, r, runs + LiveIn(q, n - 1));
      var more := if q.racelog then [LiveRun(r.who, q.course, q.version, Lap(r.time, r.splits))] else [];
      assert (runs + LiveIn(q, n - 1)) + more == runs + (LiveIn(q, n - 1) + more);
      assert LiveIn(q, n - 1) + [] == LiveIn(q, n - 1);
    }
  }

  /** Over every run from empty tables the finish log is the live runs in the order they were submitted, each with its
      player, map, version, time and splits. */
  lemma {:induction false} LogIsTheLiveRuns(qs: seq<Request>)
    ensures LogIs(IngestAll(EMPTY_DB, qs), Live(qs))
    decreases |qs|
  {
    if qs != [] {
      var front, q := qs[..|qs| - 1], qs[|qs| - 1];
      LogIsTheLiveRuns(front);
      var db := IngestAll(EMPTY_DB, front);
      EmptyContent(C.Who("", ""), "", "");
      H.RunKeepsValid(EMPTY_DB, front);
      hide LogIs, H.Valid, AfterAttempts, AfterRecords, H.Working;
      IngestLog(db, q, Live(front));
    }
  }

  lemma IngestLog(db: Db, q: Request, runs: seq<LiveRun>)
    requires H.Valid(db) && LogIs(db, runs)
    ensures LogIs(IngestTx(db, q), runs + LiveIn(q, |q.records|))
  {
    hide H.Working, H.Sound, Ranked, AfterAttempts, AfterRecords, Rerank;
    H.AttemptsKeepTables(db, q);
    if q.racelog {
      assert H.Working(db, q.course) by { WorkingFrom(db, q.course); }
      AttemptsLog(Begin(db), q, |q.attempts|, runs);
    }
    RecordsLog(Attempts(db, q), q, |q.records|, runs);
    FinalizeLog(Records(db, q), q, runs + LiveIn(q, |q.records|));
  }

  lemma WorkingFrom(db: Db, course: string)
    requires H.Valid(db)
    ensures H.Working(db, course)
  {
    hide H.Sound;
  }

  lemma FinalizeLog(tx: Tx, q: Request, runs: seq<LiveRun>)
    requires LogIs(tx.db, runs)
    ensures LogIs(Finalize(tx, q), runs)
  {
    hide Rerank;
    var e := Finalize(tx, q);
    forall i: nat | i < |runs| ensures LogEntry(e, e.activity.log[i], runs[i]) { assert LogEntry(tx.db, tx.db.activity.log[i], runs[i]); }
  }

  // ---- the daily buckets --------------------------------------------------------------------------

  lemma {:induction false} AttemptsVolume(tx: Tx, q: Request, n: nat)
    requires n <= |q.attempts|
    ensures var s := AfterAttempts(tx, q, n);
      s.counts.delta == tx.counts.delta + VolumeIn(q, n, 0) && s.db.activity.daily == tx.db.activity.daily
  {
    hide C.Resolve, AddTally;
    if n != 0 { AttemptsVolume(tx, q, n - 1); }
  }

  lemma {:induction false} RecordsVolume(tx: Tx, q: Request, n: nat)
    requires n <= |q.records|
    ensures var s := AfterRecords(tx, q, n);
      && s.counts.delta == tx.counts.delta + (if q.racelog then VolumeIn(q, 0, n) else 0)
      && s.db.activity.daily == tx.db.activity.daily
  {
    hide C.Resolve, AddTally, Upsert;
    if n != 0 { RecordsVolume(tx, q, n - 1); }
  }

  lemma {:induction false} VolumeSplits(q: Request, attempts: nat, records: nat)
    requires attempts <= |q.attempts| && records <= |q.records|
    ensures VolumeIn(q, attempts, records) == VolumeIn(q, attempts, 0) + VolumeIn(q, 0, records)
  {
    if records > 0 { VolumeSplits(q, attempts, records - 1); }
  }

  function DailyOf(db: Db, b: Bucket): int { if b in db.activity.daily then db.activity.daily[b] else 0 }

  /** Over every run from empty tables each day's bucket of a server holds the attempts reported there that day. */
  lemma {:induction false} BucketsHoldTheVolume(qs: seq<Request>, b: Bucket)
    ensures DailyOf(IngestAll(EMPTY_DB, qs), b) == Volume(qs, b)
    decreases |qs|
  {
    hide AfterAttempts, AfterRecords, VolumeIn, Rerank;
    if qs != [] {
      var front, q := qs[..|qs| - 1], qs[|qs| - 1];
      BucketsHoldTheVolume(front, b);
      var db := IngestAll(EMPTY_DB, front);
      if q.racelog { AttemptsVolume(Begin(db), q, |q.attempts|); }
      RecordsVolume(Attempts(db, q), q, |q.records|);
      VolumeSplits(q, |q.attempts|, |q.records|);
    }
  }

  // ---- what the request is told -------------------------------------------------------------------

  lemma {:induction false} RecordsAreCounted(tx: Tx, q: Request, n: nat)
    requires H.Working(tx.db, q.course) && n <= |q.records| && tx.counts.inserted == 0 && tx.counts.improved == 0
    ensures var s := AfterRecords(tx, q, n); var c, d := tx.counts, s.counts;
      && d.inserted + d.improved + d.kept == c.kept + n
      && s.db.board.next == tx.db.board.next + d.inserted + d.improved
      && |s.db.board.rows| == |tx.db.board.rows| + d.inserted
  {
    hide C.Resolve, C.Valid, LogFinish, Evolves, Upsert, H.Working;
    if n != 0 {
      RecordsAreCounted(tx, q, n - 1);
      H.AfterRecordsKeeps(tx, q, n - 1);
      var m, r := AfterRecords(tx, q, n - 1), q.records[n - 1];
      BoardOfWorking(m.db, q.course);
      UpsertCounts(m.db.board, RaceKey(C.Resolve(m.db.people, r.who).1, q.course, q.version), r.time, r.splits);
    }
  }

  lemma BoardOfWorking(db: Db, course: string)
    requires H.Working(db, course)
    ensures Indexed(db.board)
  {
  }

  lemma RowAdded(rows: map<nat, Race>, id: nat, r: Race)
    requires id !in rows
    ensures |rows[id := r]| == |rows| + 1
  {
    assert rows[id := r].Keys == rows.Keys + {id};
  }

  lemma RowDropped(rows: map<nat, Race>, id: nat)
    requires id in rows
    ensures |rows - {id}| == |rows| - 1
  {
    assert (rows - {id}).Keys == rows.Keys - {id};
  }

  lemma UpsertCounts(b: Board, k: RaceKey, time: int, splits: seq<int>)
    requires Indexed(b)
    ensures var (c, outcome) := Upsert(b, k, time, splits);
      && c.next == b.next + (if outcome == Unchanged then 0 else 1)
      && |c.rows| == |b.rows| + (if outcome == Inserted then 1 else 0)
  {
    var row := Race(k, time, splits, UNRANKED, UNRANKED);
    assert b.next !in b.rows;
    if k in b.byKey {
      RowDropped(b.rows, b.byKey[k]);
      RowAdded(b.rows - {b.byKey[k]}, b.next, row);
    } else {
      RowAdded(b.rows, b.next, row);
    }
  }

  /** The counts a request is answered with: one for each record; the inserted ones are the rows the table gains, and
      they and the improved ones are the ids it hands out. */
  lemma CountsAreRight(db: Db, q: Request)
    requires H.Valid(db)
    ensures var e, d := IngestTx(db, q), Records(db, q).counts;
      && d.inserted + d.improved + d.kept == |q.records|
      && e.board.next == db.board.next + d.inserted + d.improved
      && |e.board.rows| == |db.board.rows| + d.inserted
  {
    hide H.Working, H.Valid, AfterRecords, Attempts, Evolves;
    H.AttemptsKeepTables(db, q);
    AttemptsKept(db, q);
    RecordsAreCounted(Attempts(db, q), q, |q.records|);
    var tx := Records(db, q);
    assert Rerank(tx.db.board, q.course).rows.Keys == tx.db.board.rows.Keys;
  }

  lemma AttemptsKept(db: Db, q: Request)
    requires H.Valid(db)
    ensures Attempts(db, q).counts.kept == 0
  {
    hide H.Sound;
    if q.racelog {
      WorkingFrom(db, q.course);
      H.AfterAttemptsKeeps(Begin(db), q, |q.attempts|);
    }
  }
}
