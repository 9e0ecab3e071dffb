/** What any run of serial ingests leaves in the database (web/db.js, `_ingestTx`). */
module IngestHistory {
  import opened Wrappers
  import C = Canonical
  import opened Leaderboard
  import opened Ingest

  // ---- the invariant of the tables -----------------------------------------------------------

  /** Every race row belongs to a player row. */
  ghost predicate Owned(db: Db) { forall k :: k in db.board.byKey ==> k.player in db.people.rows }

  ghost predicate Sound(db: Db) { C.Valid(db.people) && Indexed(db.board) && Owned(db) }

  /** The invariant between requests: sound tables, and every stored rank is right. */
  ghost predicate Valid(db: Db) { Sound(db) && Ranked(db.board) }

  /** Inside a request for one map the ranks of that map may be stale. */
  ghost predicate Working(db: Db, course: string) { Sound(db) && RankedElsewhere(db.board, course) }

  lemma AttemptStepKeeps(tx: Tx, q: Request, a: Attempt)
    requires Working(tx.db, q.course)
    ensures Working(AttemptStep(tx, q, a).db, q.course) && AttemptStep(tx, q, a).db.board == tx.db.board
  {
    hide C.Resolve, C.Valid, Bump;
    C.ResolveKeepsGrouping(tx.db.people, a.who);
  }

  lemma RecordStepKeeps(tx: Tx, q: Request, r: Rec)
    requires Working(tx.db, q.course)
    ensures var s := RecordStep(tx, q, r);
      && Working(s.db, q.course) && Evolves(tx.db.board, s.db.board)
      && (s.counts.inserted == tx.counts.inserted && s.counts.improved == tx.counts.improved ==> s.db.board == tx.db.board)
      && tx.counts.inserted <= s.counts.inserted && tx.counts.improved <= s.counts.improved
  {
    hide C.Resolve, C.Valid, Upsert, LogFinish, Evolves, Indexed, RankedElsewhere;
    C.ResolveKeepsGrouping(tx.db.people, r.who);
    var k := RaceKey(C.Resolve(tx.db.people, r.who).1, q.course, q.version);
    UpsertShape(tx.db.board, k, r.time, r.splits);
    UpsertKeepsIndex(tx.db.board, k, r.time, r.splits);
    UpsertEvolves(tx.db.board, k, r.time, r.splits);
    UpsertKeepsOtherRanks(tx.db.board, k, r.time, r.splits);
    var s := RecordStep(tx, q, r);
    forall j | j in s.db.board.byKey ensures j.player in s.db.people.rows {
      if j != k { assert j in tx.db.board.byKey; }
    }
  }

  lemma {:induction false} AfterAttemptsKeeps(tx: Tx, q: Request, n: nat)
    requires Working(tx.db, q.course) && n <= |q.attempts|
    ensures Working(AfterAttempts(tx, q, n).db, q.course) && AfterAttempts(tx, q, n).db.board == tx.db.board
    ensures AfterAttempts(tx, q, n).counts.(delta := 0) == tx.counts.(delta := 0)
  {
    hide Working, C.Resolve, Bump;
    if n != 0 {
      AfterAttemptsKeeps(tx, q, n - 1);
      AttemptStepKeeps(AfterAttempts(tx, q, n - 1), q, q.attempts[n - 1]);
    }
  }

  lemma {:induction false} AfterRecordsKeeps(tx: Tx, q: Request, n: nat)
    requires Working(tx.db, q.course) && n <= |q.records|
    requires tx.counts.inserted == 0 && tx.counts.improved == 0
    ensures var s := AfterRecords(tx, q, n);
      && Working(s.db, q.course) && Evolves(tx.db.board, s.db.board)
      && (s.counts.inserted == 0 && s.counts.improved == 0 ==> s.db.board == tx.db.board)
  {
    hide Working, RecordStep;
    if n != 0 {
      hide Evolves;
      AfterRecordsKeeps(tx, q, n - 1);
      var m := AfterRecords(tx, q, n - 1);
      RecordStepKeeps(m, q, q.records[n - 1]);
      EvolvesTransitive(tx.db.board, m.db.board, AfterRecords(tx, q, n).db.board);
    }
  }

  lemma AttemptsKeepTables(db: Db, q: Request)
    requires Valid(db)
    ensures var tx := Attempts(db, q);
      Working(tx.db, q.course) && tx.db.board == db.board && tx.counts.inserted == 0 && tx.counts.improved == 0
  {
    hide Sound;
    if q.racelog { AfterAttemptsKeeps(Begin(db), q, |q.attempts|); }
  }

  /** One request keeps the invariant; ids are never reused, surviving rows keep their time, and by
      `NoPromotion` no surviving row's rank number goes down. */
  lemma IngestKeepsValid(db: Db, q: Request)
    requires Valid(db)
    ensures Valid(IngestTx(db, q)) && Evolves(db.board, IngestTx(db, q).board)
  {
    AttemptsKeepTables(db, q);
    hide Sound, Ranked, RankedElsewhere, Evolves, Rerank, Attempts;
    AfterRecordsKeeps(Attempts(db, q), q, |q.records|);
    var tx := Records(db, q);
    if tx.counts.inserted > 0 || tx.counts.improved > 0 {
      RerankKeepsIndex(tx.db.board, q.course);
      RerankRanks(tx.db.board, q.course);
      RerankEvolves(tx.db.board, q.course);
      EvolvesTransitive(db.board, tx.db.board, IngestTx(db, q).board);
    }
  }

  /** The same for every run: in particular every rank is 1 + the number of strictly faster rows. */
  lemma {:induction false} RunKeepsValid(db: Db, qs: seq<Request>)
    requires Valid(db)
    ensures Valid(IngestAll(db, qs)) && Evolves(db.board, IngestAll(db, qs).board)
    decreases |qs|
  {
    if qs != [] {
      var front := qs[..|qs| - 1];
      RunKeepsValid(db, front);
      IngestKeepsValid(IngestAll(db, front), qs[|qs| - 1]);
      EvolvesTransitive(db.board, IngestAll(db, front).board, IngestAll(db, qs).board);
    }
  }

  /** A surviving row's rank number never goes down, over any run of requests. */
  lemma RanksNeverImprove(db: Db, qs: seq<Request>, id: nat)
    requires Valid(db) && id in db.board.rows && id in IngestAll(db, qs).board.rows
    ensures db.board.rows[id].globalRank <= IngestAll(db, qs).board.rows[id].globalRank
  {
    RunKeepsValid(db, qs);
    NoPromotion(db.board, IngestAll(db, qs).board, id);
  }

  /** A row that was not there before has an id above every id handed out so far. */
  lemma NewIdsAreHigher(db: Db, qs: seq<Request>, id: nat, earlier: nat)
    requires Valid(db) && id in IngestAll(db, qs).board.rows && id !in db.board.rows && earlier in db.board.rows
    ensures earlier < db.board.next <= id < IngestAll(db, qs).board.next
  {
    RunKeepsValid(db, qs);
  }

  lemma {:induction false} RequestExtendsPeople(tx: Tx, q: Request, attempts: nat, records: nat)
    requires Working(tx.db, q.course) && attempts <= |q.attempts| && records <= |q.records|
    requires tx.counts.inserted == 0 && tx.counts.improved == 0
    ensures C.Extends(tx.db.people, AfterAttempts(tx, q, attempts).db.people)
    ensures C.Extends(tx.db.people, AfterRecords(tx, q, records).db.people)
    decreases attempts + records
  {
    hide C.Resolve, C.Valid, RankedElsewhere, Upsert, Evolves;
    if attempts > 0 {
      RequestExtendsPeople(tx, q, attempts - 1, 0);
      AfterAttemptsKeeps(tx, q, attempts - 1);
      var p := AfterAttempts(tx, q, attempts - 1).db.people;
      C.ResolveKeepsGrouping(p, q.attempts[attempts - 1].who);
      C.ExtendsTransitive(tx.db.people, p, AfterAttempts(tx, q, attempts).db.people);
    }
    if records > 0 {
      RequestExtendsPeople(tx, q, 0, records - 1);
      AfterRecordsKeeps(tx, q, records - 1);
      var p := AfterRecords(tx, q, records - 1).db.people;
      C.ResolveKeepsGrouping(p, q.records[records - 1].who);
      C.ExtendsTransitive(tx.db.people, p, AfterRecords(tx, q, records).db.people);
    }
  }

  /** Over any run no player row changes its group and no key changes its representative. */
  lemma {:induction false} RunKeepsRepresentatives(db: Db, qs: seq<Request>)
    requires Valid(db)
    ensures C.Valid(IngestAll(db, qs).people) && C.Extends(db.people, IngestAll(db, qs).people)
    decreases |qs|
  {
    RunKeepsValid(db, qs);
    if qs != [] {
      var front, q := qs[..|qs| - 1], qs[|qs| - 1];
      RunKeepsRepresentatives(db, front);
      RunKeepsValid(db, front);
      var before := IngestAll(db, front);
      AttemptsKeepTables(before, q);
      hide Sound, RankedElsewhere, Ranked, C.Extends, AfterRecords, AfterAttempts;
      if q.racelog { RequestExtendsPeople(Begin(before), q, |q.attempts|, 0); } else { RequestExtendsPeople(Begin(before), q, 0, 0); }
      RequestExtendsPeople(Attempts(before, q), q, 0, |q.records|);
      C.ExtendsTransitive(before.people, Attempts(before, q).db.people, Records(before, q).db.people);
      C.ExtendsTransitive(db.people, before.people, IngestAll(db, qs).people);
    }
  }

  // ---- best times ----------------------------------------------------------------------------

  datatype Submission = Submission(who: C.Who, course: string, version: string, time: int)

  function SubmissionsOf(q: Request, n: nat): (s: seq<Submission>)
    requires n <= |q.records|
  {
    if n == 0 then [] else
    SubmissionsOf(q, n - 1) + [Submission(q.records[n - 1].who, q.course, q.version, q.records[n - 1].time)]
  }

  function History(qs: seq<Request>): seq<Submission> {
    if qs == [] then [] else History(qs[..|qs| - 1]) + SubmissionsOf(qs[|qs| - 1], |qs[|qs| - 1].records|)
  }

  /** The stored best of a player on a map and version. */
  function BestTime(db: Db, w: C.Who, course: string, version: string): Option<int> {
    if w in db.people.byWho then TimeOf(db.board, RaceKey(db.people.byWho[w], course, version)) else None
  }

  function Smaller(a: Option<int>, b: int): Option<int> {
    if a.Some? && a.value <= b then a else Some(b)
  }

  /** The least time of a player, map and version among the submissions. */
  function LeastTime(s: seq<Submission>, w: C.Who, course: string, version: string): Option<int> {
    if s == [] then None else
    var before, x := LeastTime(s[..|s| - 1], w, course, version), s[|s| - 1];
    if x.who == w && x.course == course && x.version == version then Smaller(before, x.time) else before
  }

  lemma {:induction false} LeastTimeIsLeast(s: seq<Submission>, w: C.Who, course: string, version: string)
    ensures var t := LeastTime(s, w, course, version);
      && (t.Some? ==> Submission(w, course, version, t.value) in s)
      && (forall u :: Submission(w, course, version, u) in s ==> t.Some? && t.value <= u)
    decreases |s|
  {
    if s != [] {
      var n := |s| - 1;
      assert s == s[..n] + [s[n]];
      LeastTimeIsLeast(s[..n], w, course, version);
    }
  }

  /** A player row with no races of its own has no best time. */
  lemma ResolveKeepsBest(db: Db, r: C.Who, w: C.Who, course: string, version: string)
    requires Sound(db)
    ensures var (people, id) := C.Resolve(db.people, r);
      BestTime(Db(people, db.board, db.activity), w, course, version) == BestTime(db, w, course, version)
  {
    C.ResolveIndex(db.people, r);
    C.ResolveKeepsGrouping(db.people, r);
    var (people, id) := C.Resolve(db.people, r);
    if w == r && w !in db.people.byWho {
      assert id !in db.people.rows by {
        assert people.rows[id].who == r;
      }
    }
  }

  lemma RecordStepBest(tx: Tx, q: Request, r: Rec, w: C.Who, course: string, version: string)
    requires Working(tx.db, q.course)
    ensures BestTime(RecordStep(tx, q, r).db, w, course, version) ==
      if r.who == w && q.course == course && q.version == version then Smaller(BestTime(tx.db, w, course, version), r.time)
      else BestTime(tx.db, w, course, version)
  {
    var (people, id) := C.Resolve(tx.db.people, r.who);
    ResolveKeepsBest(tx.db, r.who, w, course, version);
    C.ResolveIndex(tx.db.people, r.who);
    C.ResolveKeepsGrouping(tx.db.people, r.who);
    if w in people.byWho {
      UpsertKeepsBest(tx.db.board, RaceKey(id, q.course, q.version), r.time, r.splits, RaceKey(people.byWho[w], course, version));
      assert people.rows[people.byWho[w]].who == w;
    }
  }

  lemma {:induction false} AfterAttemptsBest(tx: Tx, q: Request, n: nat, w: C.Who, course: string, version: string)
    requires Working(tx.db, q.course) && n <= |q.attempts|
    ensures BestTime(AfterAttempts(tx, q, n).db, w, course, version) == BestTime(tx.db, w, course, version)
  {
    hide C.Resolve, C.Valid, Bump, TimeOf;
    if n != 0 {
      AfterAttemptsBest(tx, q, n - 1, w, course, version);
      AfterAttemptsKeeps(tx, q, n - 1);
      ResolveKeepsBest(AfterAttempts(tx, q, n - 1).db, q.attempts[n - 1].who, w, course, version);
    }
  }

  lemma {:induction false} AfterRecordsBest(tx: Tx, q: Request, n: nat, h: seq<Submission>, w: C.Who, course: string, version: string)
    requires Working(tx.db, q.course) && n <= |q.records|
    requires tx.counts.inserted == 0 && tx.counts.improved == 0
    requires BestTime(tx.db, w, course, version) == LeastTime(h, w, course, version)
    ensures BestTime(AfterRecords(tx, q, n).db, w, course, version) == LeastTime(h + SubmissionsOf(q, n), w, course, version)
  {
    hide Working, RecordStep, BestTime, Evolves;
    if n == 0 {
      assert h + SubmissionsOf(q, 0) == h;
    } else {
      AfterRecordsBest(tx, q, n - 1, h, w, course, version);
      AfterRecordsKeeps(tx, q, n - 1);
      RecordStepBest(AfterRecords(tx, q, n - 1), q, q.records[n - 1], w, course, version);
      var s := h + SubmissionsOf(q, n);
      assert s[..|s| - 1] == h + SubmissionsOf(q, n - 1);
    }
  }

  lemma AttemptsBest(db: Db, q: Request, w: C.Who, course: string, version: string)
    requires Valid(db)
    ensures BestTime(Attempts(db, q).db, w, course, version) == BestTime(db, w, course, version)
  {
    hide Sound, BestTime;
    if q.racelog { AfterAttemptsBest(Begin(db), q, |q.attempts|, w, course, version); }
  }

  lemma IngestBest(db: Db, q: Request, h: seq<Submission>, w: C.Who, course: string, version: string)
    requires Valid(db)
    requires BestTime(db, w, course, version) == LeastTime(h, w, course, version)
    ensures BestTime(IngestTx(db, q), w, course, version) == LeastTime(h + SubmissionsOf(q, |q.records|), w, course, version)
  {
    hide Working, Valid, Evolves, Attempts, AfterRecords, Finalize, BestTime;
    AttemptsKeepTables(db, q);
    AttemptsBest(db, q, w, course, version);
    AfterRecordsKeeps(Attempts(db, q), q, |q.records|);
    AfterRecordsBest(Attempts(db, q), q, |q.records|, h, w, course, version);
    FinalizeBest(Records(db, q), q, w, course, version);
  }

  lemma FinalizeBest(tx: Tx, q: Request, w: C.Who, course: string, version: string)
    requires Working(tx.db, q.course)
    ensures BestTime(Finalize(tx, q), w, course, version) == BestTime(tx.db, w, course, version)
  {
    hide C.Valid, RankedElsewhere, TimeOf, Rerank;
    RerankKeepsIndex(tx.db.board, q.course);
  }

  /** After any run from an empty database the stored time of every player, map and version is the
      least time ever submitted for it, and there is a row exactly when there was a submission. */
  lemma {:induction false} BestTimesOverRuns(qs: seq<Request>, w: C.Who, course: string, version: string)
    ensures Valid(IngestAll(EMPTY_DB, qs))
    ensures BestTime(IngestAll(EMPTY_DB, qs), w, course, version) == LeastTime(History(qs), w, course, version)
    decreases |qs|
  {
    RunKeepsValid(EMPTY_DB, qs);
    if qs != [] {
      var front := qs[..|qs| - 1];
      BestTimesOverRuns(front, w, course, version);
      IngestBest(IngestAll(EMPTY_DB, front), qs[|qs| - 1], History(front), w, course, version);
    }
  }

  /** Batching, order and repetition of the submissions do not matter for the stored times. */
  lemma BestTimesIgnoreOrder(qs: seq<Request>, rs: seq<Request>, w: C.Who, course: string, version: string)
    requires forall x :: x in History(qs) <==> x in History(rs)
    ensures BestTime(IngestAll(EMPTY_DB, qs), w, course, version) == BestTime(IngestAll(EMPTY_DB, rs), w, course, version)
  {
    BestTimesOverRuns(qs, w, course, version);
    BestTimesOverRuns(rs, w, course, version);
    LeastTimeIsLeast(History(qs), w, course, version);
    LeastTimeIsLeast(History(rs), w, course, version);
  }

  // ---- tallies -------------------------------------------------------------------------------

  function FinishesOf(t: map<RaceKey, Tally>, k: RaceKey): nat { if k in t then t[k].finishes else 0 }

  /** Finishes of a key in the finish log. */
  function Logged(log: seq<Finish>, k: RaceKey): nat {
    if log == [] then 0 else Logged(log[..|log| - 1], k) + if log[|log| - 1].key == k then 1 else 0
  }

  lemma LogFinishTallied(a: Activity, k: RaceKey, time: int, splits: seq<int>, count: int, j: RaceKey)
    requires FinishesOf(a.tally, j) == Logged(a.log, j)
    ensures var b := LogFinish(a, k, time, splits, count); FinishesOf(b.tally, j) == Logged(b.log, j)
  {
    var b := LogFinish(a, k, time, splits, count);
    assert b.log[..|b.log| - 1] == a.log;
  }

  lemma {:induction false} AttemptsTallied(tx: Tx, q: Request, n: nat, j: RaceKey)
    requires n <= |q.attempts| && FinishesOf(tx.db.activity.tally, j) == Logged(tx.db.activity.log, j)
    ensures var a := AfterAttempts(tx, q, n).db.activity; FinishesOf(a.tally, j) == Logged(a.log, j)
  {
    hide C.Resolve, Logged;
    if n != 0 { AttemptsTallied(tx, q, n - 1, j); }
  }

  lemma {:induction false} RecordsTallied(tx: Tx, q: Request, n: nat, j: RaceKey)
    requires n <= |q.records| && FinishesOf(tx.db.activity.tally, j) == Logged(tx.db.activity.log, j)
    ensures var a := AfterRecords(tx, q, n).db.activity; FinishesOf(a.tally, j) == Logged(a.log, j)
  {
    hide C.Resolve, Upsert, LogFinish;
    if n != 0 {
      RecordsTallied(tx, q, n - 1, j);
      var m, r := AfterRecords(tx, q, n - 1), q.records[n - 1];
      LogFinishTallied(m.db.activity, RaceKey(C.Resolve(m.db.people, r.who).1, q.course, q.version), r.time, r.splits, AttemptCount(r), j);
    }
  }

  /** Over any run the finish tally of every key is the number of its finishes in the log. */
  lemma {:induction false} FinishesMatchLog(db: Db, qs: seq<Request>, j: RaceKey)
    requires FinishesOf(db.activity.tally, j) == Logged(db.activity.log, j)
    ensures var a := IngestAll(db, qs).activity; FinishesOf(a.tally, j) == Logged(a.log, j)
    decreases |qs|
  {
    hide FinishesOf, Logged, Rerank;
    if qs != [] {
      var front, q := qs[..|qs| - 1], qs[|qs| - 1];
      FinishesMatchLog(db, front, j);
      var before := IngestAll(db, front);
      AttemptsTallied(Begin(before), q, |q.attempts|, j);
      RecordsTallied(Attempts(before, q), q, |q.records|, j);
    }
  }

  /** The sum of the values of a finite map. */
  ghost function Total<K>(m: map<K, int>): int
    decreases |m|
  {
    if m == map[] then 0 else var k :| k in m; m[k] + Total(m - {k})
  }

  lemma {:induction false} TotalSplit<K>(m: map<K, int>, k: K)
    requires k in m
    ensures Total(m) == m[k] + Total(m - {k})
    decreases |m|
  {
    var j :| j in m && Total(m) == m[j] + Total(m - {j});
    if j != k {
      TotalSplit(m - {j}, k);
      TotalSplit(m - {k}, j);
      assert m - {j} - {k} == m - {k} - {j};
    }
  }

  lemma TotalUpdate<K>(m: map<K, int>, k: K, v: int)
    ensures Total(m[k := v]) == Total(m) - (if k in m then m[k] else 0) + v
  {
    var n := m[k := v];
    TotalSplit(n, k);
    assert n - {k} == m - {k};
    if k in m { TotalSplit(m, k); } else { assert m - {k} == m; }
  }

  ghost function AttemptColumn(t: map<RaceKey, Tally>): map<RaceKey, int> { map k | k in t :: t[k].attempts }

  ghost function AttemptTotal(t: map<RaceKey, Tally>): int { Total(AttemptColumn(t)) }

  lemma AddTallyTotal(t: map<RaceKey, Tally>, k: RaceKey, finishes: nat, attempts: int)
    ensures AttemptTotal(AddTally(t, k, finishes, attempts)) == AttemptTotal(t) + attempts
  {
    var n := (if k in t then t[k].attempts else 0) + attempts;
    assert AttemptColumn(AddTally(t, k, finishes, attempts)) == AttemptColumn(t)[k := n];
    TotalUpdate(AttemptColumn(t), k, n);
  }

  /** What the reported counts fall below zero by; the web route lets no such count through. */
  function Shortfall(q: Request, attempts: nat, records: nat): nat
    requires attempts <= |q.attempts| && records <= |q.records|
    decreases attempts + records
  {
    if !q.racelog then 0
    else if records > 0 then Shortfall(q, attempts, records - 1) + Negative(AttemptCount(q.records[records - 1]))
    else if attempts > 0 then Shortfall(q, attempts - 1, 0) + Negative(q.attempts[attempts - 1].count)
    else 0
  }

  function ShortfallOf(q: Request): nat { Shortfall(q, |q.attempts|, |q.records|) }

  function ShortfallAll(qs: seq<Request>): nat {
    if qs == [] then 0 else ShortfallAll(qs[..|qs| - 1]) + ShortfallOf(qs[|qs| - 1])
  }

  lemma {:induction false} AttemptsTotal(tx: Tx, q: Request, n: nat)
    requires q.racelog && n <= |q.attempts|
    ensures var s := AfterAttempts(tx, q, n);
      && AttemptTotal(s.db.activity.tally) - s.counts.delta
        == AttemptTotal(tx.db.activity.tally) - tx.counts.delta - Shortfall(q, n, 0)
      && s.db.activity.daily == tx.db.activity.daily
  {
    hide C.Resolve, AddTally, AttemptTotal;
    if n != 0 {
      AttemptsTotal(tx, q, n - 1);
      var m, a := AfterAttempts(tx, q, n - 1), q.attempts[n - 1];
      AddTallyTotal(m.db.activity.tally, RaceKey(C.Resolve(m.db.people, a.who).1, q.course, q.version), 0, a.count);
    }
  }

  lemma {:induction false} RecordsTotal(tx: Tx, q: Request, n: nat)
    requires n <= |q.records|
    ensures var s := AfterRecords(tx, q, n);
      && AttemptTotal(s.db.activity.tally) - s.counts.delta
        == AttemptTotal(tx.db.activity.tally) - tx.counts.delta - (Shortfall(q, 0, n) - Shortfall(q, 0, 0))
      && s.db.activity.daily == tx.db.activity.daily
      && (!q.racelog ==> s.counts.delta == tx.counts.delta)
  {
    hide C.Resolve, Upsert, AddTally, AttemptTotal;
    if n != 0 {
      RecordsTotal(tx, q, n - 1);
      var m, r := AfterRecords(tx, q, n - 1), q.records[n - 1];
      var k := RaceKey(C.Resolve(m.db.people, r.who).1, q.course, q.version);
      AddTallyTotal(m.db.activity.tally, k, 1, 0);
      AddTallyTotal(AddTally(m.db.activity.tally, k, 1, 0), k, 0, AttemptCount(r));
    }
  }

  lemma {:induction false} ShortfallSplits(q: Request, attempts: nat, records: nat)
    requires attempts <= |q.attempts| && records <= |q.records|
    ensures Shortfall(q, attempts, records) == Shortfall(q, attempts, 0) + Shortfall(q, 0, records)
  {
    if records > 0 { ShortfallSplits(q, attempts, records - 1); }
  }

  lemma IngestTotal(db: Db, q: Request)
    ensures var e := IngestTx(db, q).activity;
      AttemptTotal(e.tally) - Total(e.daily) == AttemptTotal(db.activity.tally) - Total(db.activity.daily) - ShortfallOf(q)
  {
    hide AttemptTotal, Rerank, AfterRecords, AfterAttempts;
    if q.racelog { AttemptsTotal(Begin(db), q, |q.attempts|); }
    RecordsTotal(Attempts(db, q), q, |q.records|);
    ShortfallSplits(q, |q.attempts|, |q.records|);
    var tx := Records(db, q);
    if q.racelog && tx.counts.delta > 0 {
      var d, b := tx.db.activity.daily, Bucket(q.day, q.server);
      TotalUpdate(d, b, (if b in d then d[b] else 0) + tx.counts.delta);
    }
  }

  /** Over any run the tallied attempts are the daily buckets' total less the shortfall of the counts. */
  lemma {:induction false} AttemptsMatchBuckets(qs: seq<Request>)
    ensures var a := IngestAll(EMPTY_DB, qs).activity; AttemptTotal(a.tally) == Total(a.daily) - ShortfallAll(qs)
    decreases |qs|
  {
    hide IngestTx, Total;
    if qs == [] {
      EmptyTotals();
    } else {
      AttemptsMatchBuckets(qs[..|qs| - 1]);
      IngestTotal(IngestAll(EMPTY_DB, qs[..|qs| - 1]), qs[|qs| - 1]);
    }
  }

  lemma EmptyTotals()
    ensures AttemptTotal(EMPTY_DB.activity.tally) == 0 && Total(EMPTY_DB.activity.daily) == 0
  {
    assert AttemptColumn(map[]) == map[];
  }

  /** No reported count is negative. */
  predicate CountsNonNegative(q: Request) {
    q.racelog ==>
      && (forall i :: 0 <= i < |q.attempts| ==> q.attempts[i].count >= 0)
      && (forall i :: 0 <= i < |q.records| ==> AttemptCount(q.records[i]) >= 0)
  }

  lemma {:induction false} ShortfallZero(q: Request, attempts: nat, records: nat)
    requires attempts <= |q.attempts| && records <= |q.records|
    ensures Shortfall(q, attempts, records) == 0 <==>
      (q.racelog ==>
        && (forall i :: 0 <= i < attempts ==> q.attempts[i].count >= 0)
        && (forall i :: 0 <= i < records ==> AttemptCount(q.records[i]) >= 0))
    decreases attempts + records
  {
    if q.racelog && records > 0 { ShortfallZero(q, attempts, records - 1); }
    else if q.racelog && attempts > 0 { ShortfallZero(q, attempts - 1, 0); }
  }

  lemma {:induction false} ShortfallAllZero(qs: seq<Request>)
    ensures ShortfallAll(qs) == 0 <==> forall i :: 0 <= i < |qs| ==> CountsNonNegative(qs[i])
    decreases |qs|
  {
    if qs != [] {
      var n := |qs| - 1;
      ShortfallAllZero(qs[..n]);
      ShortfallZero(qs[n], |qs[n].attempts|, |qs[n].records|);
      assert forall i :: 0 <= i < n ==> qs[..n][i] == qs[i];
    }
  }

  /** The tallied attempts equal the daily buckets exactly when no reported count was negative. */
  lemma AttemptsMatchBucketsIff(qs: seq<Request>)
    ensures var a := IngestAll(EMPTY_DB, qs).activity;
      AttemptTotal(a.tally) == Total(a.daily) <==> forall i :: 0 <= i < |qs| ==> CountsNonNegative(qs[i])
  {
    AttemptsMatchBuckets(qs);
    ShortfallAllZero(qs);
  }
}
