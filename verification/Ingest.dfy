/** One ingest request as one transaction (web/db.js, `_ingestTx`). Maps and versions are named by their
    unique name columns; the caller has already lower-cased the map and validated the records. */
module Ingest {
  import opened Wrappers
  import C = Canonical
  import opened Leaderboard

  datatype Tally = Tally(finishes: nat, attempts: int)

  datatype Finish = Finish(key: RaceKey, time: int, splits: seq<int>)

  datatype Bucket = Bucket(day: int, server: nat)

  /** `run_tally`, the `finish` log with its checkpoints, and `run_activity_daily`. */
  datatype Activity = Activity(tally: map<RaceKey, Tally>, log: seq<Finish>, daily: map<Bucket, int>)

  datatype Db = Db(people: C.People, board: Board, activity: Activity)

  const EMPTY_DB := Db(C.NO_PEOPLE, NO_RACES, Activity(map[], [], map[]))

  datatype Rec = Rec(who: C.Who, time: int, attempts: Option<int>, splits: seq<int>)

  datatype Attempt = Attempt(who: C.Who, count: int)

  datatype Request = Request(version: string, course: string, records: seq<Rec>, attempts: seq<Attempt>,
                             racelog: bool, server: nat, day: int)

  /** The transaction's working state: the tables, the day's attempts so far and the outcome counts. */
  datatype Tx = Tx(db: Db, counts: Counts)

  datatype Counts = Counts(delta: nat, inserted: nat, improved: nat, kept: nat)

  // ---- the transaction as a function --------------------------------------------------------

  function AddTally(t: map<RaceKey, Tally>, k: RaceKey, finishes: nat, attempts: int): map<RaceKey, Tally> {
    t[k := if k in t then Tally(t[k].finishes + finishes, t[k].attempts + attempts) else Tally(finishes, attempts)]
  }

  function Positive(n: int): nat { if n > 0 then n else 0 }

  function Negative(n: int): nat { if n < 0 then -n else 0 }

  function Bump(a: Activity, k: RaceKey, count: int): Activity {
    a.(tally := AddTally(a.tally, k, 0, count))
  }

  function LogFinish(a: Activity, k: RaceKey, time: int, splits: seq<int>, count: int): Activity {
    Bump(a.(tally := AddTally(a.tally, k, 1, 0)), k, count).(log := a.log + [Finish(k, time, splits)])
  }

  function AttemptCount(r: Rec): int { if r.attempts.Some? then r.attempts.value else 1 }

  function AttemptStep(tx: Tx, q: Request, a: Attempt): Tx {
    var (people, id) := C.Resolve(tx.db.people, a.who);
    var k := RaceKey(id, q.course, q.version);
    Tx(Db(people, tx.db.board, Bump(tx.db.activity, k, a.count)),
       tx.counts.(delta := tx.counts.delta + Positive(a.count)))
  }

  function RecordStep(tx: Tx, q: Request, r: Rec): Tx {
    var (people, id) := C.Resolve(tx.db.people, r.who);
    var k := RaceKey(id, q.course, q.version);
    var activity := if q.racelog then LogFinish(tx.db.activity, k, r.time, r.splits, AttemptCount(r)) else tx.db.activity;
    var (board, outcome) := Upsert(tx.db.board, k, r.time, r.splits);
    var delta := tx.counts.delta + if q.racelog then Positive(AttemptCount(r)) else 0;
    Tx(Db(people, board, activity), Counted(tx.counts, outcome).(delta := delta))
  }

  function Counted(c: Counts, outcome: Outcome): Counts {
    match outcome
    case Inserted => c.(inserted := c.inserted + 1)
    case Improved => c.(improved := c.improved + 1)
    case Unchanged => c.(kept := c.kept + 1)
  }

  function AfterAttempts(tx: Tx, q: Request, n: nat): Tx
    requires n <= |q.attempts|
  {
    if n == 0 then tx else AttemptStep(AfterAttempts(tx, q, n - 1), q, q.attempts[n - 1])
  }

  function AfterRecords(tx: Tx, q: Request, n: nat): Tx
    requires n <= |q.records|
  {
    if n == 0 then tx else RecordStep(AfterRecords(tx, q, n - 1), q, q.records[n - 1])
  }

  function Begin(db: Db): Tx { Tx(db, Counts(0, 0, 0, 0)) }

  function Attempts(db: Db, q: Request): Tx {
    if q.racelog then AfterAttempts(Begin(db), q, |q.attempts|) else Begin(db)
  }

  function Records(db: Db, q: Request): Tx { AfterRecords(Attempts(db, q), q, |q.records|) }

  function AddDaily(daily: map<Bucket, int>, b: Bucket, n: int): map<Bucket, int> {
    daily[b := (if b in daily then daily[b] else 0) + n]
  }

  function Finalize(tx: Tx, q: Request): Db {
    var board := if tx.counts.inserted > 0 || tx.counts.improved > 0 then Rerank(tx.db.board, q.course) else tx.db.board;
    var a := tx.db.activity;
    var daily := if q.racelog && tx.counts.delta > 0 then AddDaily(a.daily, Bucket(q.day, q.server), tx.counts.delta) else a.daily;
    Db(tx.db.people, board, a.(daily := daily))
  }

  function IngestTx(db: Db, q: Request): Db { Finalize(Records(db, q), q) }

  /** A run of serial requests. */
  function IngestAll(db: Db, qs: seq<Request>): Db {
    if qs == [] then db else IngestTx(IngestAll(db, qs[..|qs| - 1]), qs[|qs| - 1])
  }

  // ---- the transaction as the source performs it ---------------------------------------------

  class RaceDb {
    const people: C.PeopleStore
    var next: nat
    var rows: map<nat, Race>
    var byKey: map<RaceKey, nat>
    var tally: map<RaceKey, Tally>
    var log: seq<Finish>
    var daily: map<Bucket, int>

    ghost function View(): Db
      reads this, people
    {
      Db(people.View(), Board(next, rows, byKey), Activity(tally, log, daily))
    }

    constructor ()
      ensures View() == EMPTY_DB && fresh(people)
    {
      people := new C.PeopleStore();
      next, rows, byKey := 1, map[], map[];
      tally, log, daily := map[], [], map[];
    }

    method BumpTally(k: RaceKey, count: int)
      modifies this`tally
      ensures tally == AddTally(old(tally), k, 0, count)
    {
      tally := tally[k := if k in tally then Tally(tally[k].finishes, tally[k].attempts + count) else Tally(0, count)];
    }

    method NextRaceId() returns (id: nat)
      modifies this`next
      ensures id == old(next) && next == id + 1
    {
      id := next;
      next := id + 1;
    }

    method UpsertRace(k: RaceKey, time: int, splits: seq<int>) returns (outcome: Outcome)
      modifies this`next, this`rows, this`byKey
      ensures (Board(next, rows, byKey), outcome) == Upsert(old(Board(next, rows, byKey)), k, time, splits)
    {
      if k in byKey && byKey[k] in rows && rows[byKey[k]].time <= time {
        return Unchanged;
      }
      outcome := Inserted;
      if k in byKey {
        rows := rows - {byKey[k]};
        outcome := Improved;
      }
      var id := NextRaceId();
      rows := rows[id := Race(k, time, splits, UNRANKED, UNRANKED)];
      byKey := byKey[k := id];
    }

    method IngestAttempt(q: Request, a: Attempt, c: Counts) returns (c': Counts)
      modifies this, people
      ensures Tx(View(), c') == AttemptStep(Tx(old(View()), c), q, a)
    {
      var id := people.ResolvePlayer(a.who);
      BumpTally(RaceKey(id, q.course, q.version), a.count);
      c' := if a.count > 0 then c.(delta := c.delta + a.count) else c;
    }

    /** The racelog half of a record: run tally, attempts and the finish log. */
    method LogRun(k: RaceKey, time: int, splits: seq<int>, count: int)
      modifies this`tally, this`log
      ensures Activity(tally, log, daily) == LogFinish(old(Activity(tally, log, daily)), k, time, splits, count)
    {
      tally := AddTally(tally, k, 1, 0);
      BumpTally(k, count);
      log := log + [Finish(k, time, splits)];
    }

    method IngestRecord(q: Request, r: Rec, c: Counts) returns (c': Counts)
      modifies this, people
      ensures Tx(View(), c') == RecordStep(Tx(old(View()), c), q, r)
    {
      hide C.Resolve, LogFinish, Upsert;
      var id := people.ResolvePlayer(r.who);
      var k := RaceKey(id, q.course, q.version);
      c' := c;
      if q.racelog {
        var count := if r.attempts.Some? then r.attempts.value else 1;
        LogRun(k, r.time, r.splits, count);
        if count > 0 { c' := c'.(delta := c'.delta + count); }
      }
      var outcome := UpsertRace(k, r.time, r.splits);
      match outcome {
        case Inserted => c' := c'.(inserted := c'.inserted + 1);
        case Improved => c' := c'.(improved := c'.improved + 1);
        case Unchanged => c' := c'.(kept := c'.kept + 1);
      }
    }

    method IngestAttempts(q: Request) returns (c: Counts)
      modifies this, people
      ensures Tx(View(), c) == Attempts(old(View()), q)
    {
      hide AttemptStep;
      c := Counts(0, 0, 0, 0);
      if q.racelog {
        for n := 0 to |q.attempts|
          invariant Tx(View(), c) == AfterAttempts(Begin(old(View())), q, n)
        {
          c := IngestAttempt(q, q.attempts[n], c);
        }
      }
    }

    method IngestRecords(q: Request, c0: Counts) returns (c: Counts)
      modifies this, people
      ensures Tx(View(), c) == AfterRecords(Tx(old(View()), c0), q, |q.records|)
    {
      hide RecordStep;
      c := c0;
      for n := 0 to |q.records|
        invariant Tx(View(), c) == AfterRecords(Tx(old(View()), c0), q, n)
      {
        c := IngestRecord(q, q.records[n], c);
      }
    }

    /** The whole request. */
    method Ingest(q: Request) returns (c: Counts)
      modifies this, people
      ensures View() == IngestTx(old(View()), q) && c == Records(old(View()), q).counts
    {
      c := IngestAttempts(q);
      c := IngestRecords(q, c);
      if c.inserted > 0 || c.improved > 0 {
        rows := Rerank(Board(next, rows, byKey), q.course).rows;
      }
      if q.racelog && c.delta > 0 {
        daily := AddDaily(daily, Bucket(q.day, q.server), c.delta);
      }
    }
  }
}
