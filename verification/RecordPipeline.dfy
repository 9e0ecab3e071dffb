/** Runs that interleave serial ingests with announcer polls and restarts (web/db.js, `_ingestTx`,
    `recordsAfter`; discord/announcer.js, `poll`). The announcer may jump its cursor over rows that do
    not qualify only because no ingest ever lowers the rank number of a surviving row. */
module RecordPipeline {
  import opened Extrema
  import opened Wrappers
  import opened Leaderboard
  import opened Ingest
  import opened Announcer
  import C = Canonical
  import H = IngestHistory

  datatype Event = IngestEvent(request: Request) | PollEvent(env: Env) | RestartEvent

  datatype World = World(db: Db, st: State)

  function Step(w: World, cfg: Config, e: Event): World {
    match e
    case IngestEvent(q) => w.(db := IngestTx(w.db, q))
    case PollEvent(env) => w.(st := Poll(w.st, w.db.board, cfg, env))
    case RestartEvent => w.(st := Restart(w.st))
  }

  function Run(w: World, cfg: Config, es: seq<Event>): World {
    if es == [] then w else Step(Run(w, cfg, es[..|es| - 1]), cfg, es[|es| - 1])
  }

  /** The rank threshold in force: the server clamps the announcer's to 1..50. */
  function Threshold(cfg: Config): nat { Clamp50(cfg.maxRank) }

  // ---- nothing is skipped --------------------------------------------------------------------

  /** The cursors are behind the id counter, and the file is never ahead of memory. */
  ghost predicate CursorsBehind(b: Board, st: State) {
    && Cursor(st) < b.next
    && (st.disk.Some? ==> st.lastId.Some? && st.disk.value <= st.lastId.value)
    && (st.baseline.Some? ==> st.baseline.value < b.next)
  }

  /** The row came after the first baseline, so the announcer owes it a post. */
  predicate Owed(st: State, id: nat) { st.baseline.Some? && id > st.baseline.value }

  /** Every qualifying row above the first baseline is still ahead of the cursor or has been posted. */
  ghost predicate NothingSkipped(b: Board, st: State, maxRank: nat) {
    forall id: nat :: Qualifies(b, id, maxRank) && Owed(st, id) ==> id > Cursor(st) || id in st.posted
  }

  /** Once a baseline was taken the announcer has a cursor. */
  predicate Anchored(st: State) { st.baseline.Some? ==> st.lastId.Some? }

  /** What posting did: page[from..acked] was acknowledged and page[from..sent] was delivered. */
  ghost predicate PostedUpTo(st: State, after: State, page: seq<nat>, from: nat, acked: nat, sent: nat)
  {
    && from <= acked <= sent <= |page|
    && after.posted == st.posted + page[from..sent]
    && after.lastId == (if acked == from then st.lastId else Some(page[acked - 1]))
    && after.baseline == st.baseline
    && (after.disk == st.disk || exists i :: from <= i < acked && after.disk == Some(page[i]))
  }

  lemma {:induction false} PostFromShape(st: State, env: Env, page: seq<nat>, from: nat) returns (acked: nat, sent: nat)
    requires from <= |page|
    ensures var (after, ok) := PostFrom(st, env, page, from);
      && PostedUpTo(st, after, page, from, acked, sent)
      && (ok ==> acked == sent == |page|)
      && (acked < sent ==> exists i, j :: env.reply(i, j) == Lost(true))
    decreases |page| - from
  {
    acked, sent := from, from;
    if from < |page| {
      var upto := Min(from + BATCH, |page|);
      var r := BatchReply(env, from / BATCH, 0);
      match r {
        case Posted =>
          var moved := Save(st.(posted := st.posted + page[from..upto], lastId := Some(page[upto - 1])), env, from / BATCH);
          acked, sent := PostFromShape(moved, env, page, upto);
          assert page[from..upto] + page[upto..sent] == page[from..sent];
        case Lost(delivered) =>
          if delivered {
            sent := upto;
            LostReply(env, from / BATCH, 0);
          }
        case RateLimited =>
      }
    }
  }

  lemma {:induction false} LostReply(env: Env, batch: nat, tries: nat)
    requires tries <= RETRIES && BatchReply(env, batch, tries) == Lost(true)
    ensures exists i, j :: env.reply(i, j) == Lost(true)
    decreases RETRIES - tries
  {
    if env.reply(batch, tries).RateLimited? { LostReply(env, batch, tries + 1); }
  }

  /** Moving the cursor to a page position after posting up to there skips nothing. */
  lemma AdvanceSkipsNothing(b: Board, st: State, after: State, maxRank: nat, limit: nat, page: seq<nat>, acked: nat, sent: nat)
    requires Indexed(b) && NothingSkipped(b, st, maxRank)
    requires page == PageFrom(b, Cursor(st) + 1, maxRank, limit)
    requires PostedUpTo(st, after, page, 0, acked, sent)
    ensures NothingSkipped(b, after, maxRank)
  {
    PageIsFirst(b, Cursor(st) + 1, maxRank, limit);
    forall id: nat | Qualifies(b, id, maxRank) && Owed(after, id) && id <= Cursor(after)
      ensures id in after.posted
    {
      if id <= Cursor(st) {
        assert id in st.posted;
      } else {
        assert acked > 0 && page[acked - 1] == Cursor(after);
        var i :| 0 <= i < |page| && page[i] == id;
        assert page[0..sent][i] == id;
      }
    }
  }

  /** Jumping to the end of a page that saw everything skips nothing. */
  lemma JumpSkipsNothing(b: Board, st: State, after: State, maxRank: nat, limit: nat, page: seq<nat>, cursor: nat)
    requires Indexed(b) && NothingSkipped(b, st, maxRank)
    requires page == PageFrom(b, Cursor(st) + 1, maxRank, limit) && |page| < limit
    requires after.posted == st.posted + page && after.baseline == st.baseline && after.lastId == Some(cursor)
    ensures NothingSkipped(b, after, maxRank)
  {
    PageIsFirst(b, Cursor(st) + 1, maxRank, limit);
  }

  lemma CursorRange(b: Board)
    requires Indexed(b)
    ensures MaxId(b) < b.next && forall id :: id in b.rows ==> id <= MaxId(b)
  {
  }

  /** Where a poll over new rows leaves the cursors. */
  lemma NewRowsMoveCursors(b: Board, st: State, cfg: Config, env: Env)
    requires Indexed(b) && CursorsBehind(b, st) && env.apiUp && st.lastId.Some? && MaxId(b) > st.lastId.value
    ensures CursorsBehind(b, Poll(st, b, cfg, env)) && Anchored(Poll(st, b, cfg, env))
  {
    hide PostFrom, PageFrom, Indexed, MaxId;
    var page := Page(st, b, cfg);
    CursorRange(b);
    PageIsFirst(b, Cursor(st) + 1, Threshold(cfg), Clamp50(cfg.perPoll));
    var acked, sent := PostFromShape(st, env, page, 0);
  }

  lemma NewRowsSkipNothing(b: Board, st: State, cfg: Config, env: Env)
    requires Indexed(b) && NothingSkipped(b, st, Threshold(cfg)) && 1 <= cfg.perPoll <= 50
    requires env.apiUp && st.lastId.Some? && MaxId(b) > st.lastId.value
    ensures NothingSkipped(b, Poll(st, b, cfg, env), Threshold(cfg))
  {
    hide PostFrom, PageFrom, Indexed, MaxId, NothingSkipped, PostedUpTo;
    var page, maxId := Page(st, b, cfg), MaxId(b);
    var acked, sent := PostFromShape(st, env, page, 0);
    var (mid, ok) := PostFrom(st, env, page, 0);
    AdvanceSkipsNothing(b, st, mid, Threshold(cfg), cfg.perPoll, page, acked, sent);
    if ok { WholePagePosted(b, st, mid, cfg, env, page, acked, sent, maxId); }
  }

  lemma WholePagePosted(b: Board, st: State, mid: State, cfg: Config, env: Env, page: seq<nat>, acked: nat, sent: nat, maxId: nat)
    requires Indexed(b) && NothingSkipped(b, st, Threshold(cfg)) && 1 <= cfg.perPoll <= 50
    requires page == PageFrom(b, Cursor(st) + 1, Threshold(cfg), cfg.perPoll)
    requires PostedUpTo(st, mid, page, 0, acked, sent) && acked == sent == |page| && NothingSkipped(b, mid, Threshold(cfg))
    ensures var moved := mid.(lastId := Some(NextCursor(page, maxId, cfg.perPoll)));
      NothingSkipped(b, moved, Threshold(cfg)) && forall n: nat :: NothingSkipped(b, Save(moved, env, n), Threshold(cfg))
  {
    hide PageFrom, Indexed, Qualifies;
    assert page[0..|page|] == page;
    var moved := mid.(lastId := Some(NextCursor(page, maxId, cfg.perPoll)));
    if |page| < cfg.perPoll {
      JumpSkipsNothing(b, st, moved, Threshold(cfg), cfg.perPoll, page, NextCursor(page, maxId, cfg.perPoll));
    }
  }

  /** One poll of an announcer that has its cursor keeps the promise against any outside world, when the page
      size is within the clamp. */
  lemma PollSkipsNothing(b: Board, st: State, cfg: Config, env: Env)
    requires Indexed(b) && CursorsBehind(b, st) && NothingSkipped(b, st, Threshold(cfg)) && Anchored(st)
    requires 1 <= cfg.perPoll <= 50
    ensures var after := Poll(st, b, cfg, env);
      CursorsBehind(b, after) && NothingSkipped(b, after, Threshold(cfg)) && Anchored(after)
  {
    if env.apiUp && st.lastId.Some? && MaxId(b) > st.lastId.value {
      hide Poll, NothingSkipped, CursorsBehind, Indexed;
      NewRowsMoveCursors(b, st, cfg, env);
      NewRowsSkipNothing(b, st, cfg, env);
    } else {
      hide PostFrom, Page, Indexed;
      CursorRange(b);
    }
  }

  ghost predicate Safe(w: World, cfg: Config) {
    H.Valid(w.db) && CursorsBehind(w.db.board, w.st) && NothingSkipped(w.db.board, w.st, Threshold(cfg)) && Anchored(w.st)
  }

  lemma BoardOf(db: Db)
    requires H.Valid(db)
    ensures Indexed(db.board) && Ranked(db.board)
  {
  }

  /** Ingesting keeps the promise: a row that qualifies now either qualified before or is new. */
  lemma IngestSkipsNothing(w: World, cfg: Config, q: Request)
    requires Safe(w, cfg)
    ensures Safe(w.(db := IngestTx(w.db, q)), cfg)
  {
    hide IngestTx, H.Sound;
    H.IngestKeepsValid(w.db, q);
    var b, c := w.db.board, IngestTx(w.db, q).board;
    BoardOf(w.db);
    BoardOf(IngestTx(w.db, q));
    hide H.Valid, Ranked, Indexed;
    forall id: nat | Qualifies(c, id, Threshold(cfg)) && Owed(w.st, id)
      ensures id > Cursor(w.st) || id in w.st.posted
    {
      if id < b.next {
        NoPromotion(b, c, id);
        assert Qualifies(b, id, Threshold(cfg));
      }
    }
  }

  /** Every restart finds a saved cursor, or comes before the first baseline. */
  ghost predicate RestartsFindCursor(w: World, cfg: Config, es: seq<Event>) {
    forall i :: 0 <= i < |es| && es[i].RestartEvent? ==>
      var st := Run(w, cfg, es[..i]).st; st.disk.Some? || st.baseline.None?
  }

  /** Over every run of ingests, polls with any failures, and restarts that find the cursor: each row now
      ranked within the threshold with an id above the first baseline is ahead of the cursor or posted. */
  lemma {:induction false} NoRecordIsMissed(w: World, cfg: Config, es: seq<Event>)
    requires Safe(w, cfg) && 1 <= cfg.perPoll <= 50 && RestartsFindCursor(w, cfg, es)
    ensures Safe(Run(w, cfg, es), cfg)
    decreases |es|
  {
    hide Poll, IngestTx, H.Valid, NothingSkipped;
    if es != [] {
      var n := |es| - 1;
      var v := Run(w, cfg, es[..n]);
      forall i | 0 <= i < n ensures es[..n][..i] == es[..i] && es[..n][i] == es[i] { }
      NoRecordIsMissed(w, cfg, es[..n]);
      match es[n] {
        case IngestEvent(q) => IngestSkipsNothing(v, cfg, q);
        case PollEvent(env) =>
          BoardOf(v.db);
          PollSkipsNothing(v.db.board, v.st, cfg, env);
        case RestartEvent => RestartIsSafe(v, cfg);
      }
    }
  }

  lemma RestartIsSafe(w: World, cfg: Config)
    requires Safe(w, cfg) && (w.st.disk.Some? || w.st.baseline.None?)
    ensures Safe(w.(st := Restart(w.st)), cfg)
  {
  }

  /** The initial world satisfies the promise. */
  lemma FreshIsSafe(cfg: Config)
    ensures Safe(World(EMPTY_DB, FRESH), cfg)
  {
  }

  // ---- the first baseline and the disk ---------------------------------------------------------

  /** A poll without a cursor takes the highest id as its baseline, whatever was owed before: it leaves nothing
      out exactly when every qualifying row above the first baseline was already posted. */
  lemma RebaselineSkipsNothingIff(b: Board, st: State, cfg: Config, env: Env)
    requires Indexed(b) && st.lastId.None? && env.apiUp
    ensures NothingSkipped(b, Poll(st, b, cfg, env), Threshold(cfg))
            <==> forall id: nat :: Qualifies(b, id, Threshold(cfg)) && Owed(st, id) ==> id in st.posted
  {
    hide PageFrom, PostFrom, Indexed;
    CursorRange(b);
    var after := Poll(st, b, cfg, env);
    assert Cursor(after) == MaxId(b) && after.posted == st.posted;
    assert forall id: nat :: Qualifies(b, id, Threshold(cfg)) ==> id <= MaxId(b);
    if st.baseline.None? { assert forall id: nat :: Qualifies(b, id, Threshold(cfg)) ==> !Owed(after, id); }
  }

  /** A saved cursor is never unsaved. */
  lemma {:induction false} DiskStays(w: World, cfg: Config, es: seq<Event>)
    requires w.st.disk.Some?
    ensures Run(w, cfg, es).st.disk.Some?
    decreases |es|
  {
    hide PageFrom, PostFrom, IngestTx;
    if es != [] {
      var n := |es| - 1;
      DiskStays(w, cfg, es[..n]);
      var v := Run(w, cfg, es[..n]);
      if es[n].PollEvent? {
        var env, page := es[n].env, Page(v.st, v.db.board, cfg);
        var acked, sent := PostFromShape(v.st, env, page, 0);
      }
    }
  }

  /** A course no row is on: longer than every other name. */
  lemma {:induction false} FreshCourse(courses: set<string>) returns (c: string)
    ensures forall d :: d in courses ==> |d| < |c|
    decreases |courses|
  {
    c := "m";
    if courses != {} {
      var d :| d in courses;
      c := FreshCourse(courses - {d});
      if |d| >= |c| { c := d + "m"; }
    }
  }

  function OneRecord(course: string): Request {
    Request("v", course, [Rec(C.Who("p", ""), 1, None, [])], [], false, 0, 0)
  }

  /** A record on a new course brings a row under a new id that is first on its map. */
  lemma NewCourseQualifies(db: Db, course: string, maxRank: nat) returns (id: nat)
    requires H.Valid(db) && maxRank >= 1
    requires forall i :: i in db.board.rows ==> db.board.rows[i].key.course != course
    ensures db.board.next <= id && Qualifies(IngestTx(db, OneRecord(course)).board, id, maxRank)
  {
    hide IngestTx, H.Valid, Ranked, RankedRow;
    var q, who := OneRecord(course), C.Who("p", "");
    var b, c := db.board, IngestTx(db, q).board;
    H.IngestKeepsValid(db, q);
    BoardOf(db);
    BoardOf(IngestTx(db, q));
    NoRowNoTime(db, who, course, "v");
    H.IngestBest(db, q, [], who, course, "v");
    OneSubmission(q);
    var all := [] + H.SubmissionsOf(q, 1);
    assert all == [H.Submission(who, course, "v", 1)];
    H.LeastTimeIsLeast(all, who, course, "v");
    assert H.Submission(who, course, "v", 1) in all;
    var first := RowOf(IngestTx(db, q), who, course, "v");
    hide Indexed;
    id := Fastest(c, course, first);
    assert Faster(c.rows, course, c.rows[id].time) == {};
    RankOf(c, id);
  }

  lemma OneSubmission(q: Request)
    requires |q.records| == 1
    ensures H.SubmissionsOf(q, 1) == [H.Submission(q.records[0].who, q.course, q.version, q.records[0].time)]
  {
    assert H.SubmissionsOf(q, 0) == [];
  }

  lemma NoRowNoTime(db: Db, who: C.Who, course: string, version: string)
    requires forall i :: i in db.board.rows ==> db.board.rows[i].key.course != course
    requires Indexed(db.board)
    ensures H.BestTime(db, who, course, version) == None
  {
  }

  lemma RowOf(db: Db, who: C.Who, course: string, version: string) returns (id: nat)
    requires Indexed(db.board) && H.BestTime(db, who, course, version).Some?
    ensures id in db.board.rows && db.board.rows[id].key.course == course
  {
    id := db.board.byKey[RaceKey(db.people.byWho[who], course, version)];
  }

  lemma RankOf(b: Board, id: nat)
    requires Ranked(b) && id in b.rows && Faster(b.rows, b.rows[id].key.course, b.rows[id].time) == {}
    ensures b.rows[id].globalRank == 1
  {
    assert RankedRow(b.rows, id);
  }

  /** The fastest row of a course, starting from any of its rows. */
  lemma {:induction false} Fastest(b: Board, course: string, start: nat) returns (id: nat)
    requires start in b.rows && b.rows[start].key.course == course
    ensures id in b.rows && b.rows[id].key.course == course && Faster(b.rows, course, b.rows[id].time) == {}
    decreases |Faster(b.rows, course, b.rows[start].time)|
  {
    id := start;
    var f := Faster(b.rows, course, b.rows[start].time);
    if f != {} {
      var next :| next in f;
      var g := Faster(b.rows, course, b.rows[next].time);
      assert g <= f - {next};
      SubsetSize(g, f - {next});
      id := Fastest(b, course, next);
    }
  }

  const ALL_WELL := Env(true, (i, j) => Posted, n => true)

  /** The run that loses a record: an ingest, a restart that finds no saved cursor, and a faultless poll. */
  function Losing(course: string): seq<Event> { [IngestEvent(OneRecord(course)), RestartEvent, PollEvent(ALL_WELL)] }

  lemma UnsavedBaselineLoses(w: World, cfg: Config) returns (course: string, id: nat)
    requires Safe(w, cfg) && w.st.baseline.Some? && w.st.disk.None?
    ensures var v := Run(w, cfg, Losing(course));
      && Qualifies(v.db.board, id, Threshold(cfg)) && Owed(v.st, id) && id <= Cursor(v.st)
      && v.st.posted == w.st.posted && id >= w.db.board.next
  {
    hide IngestTx, H.Valid, PageFrom, PostFrom, Ranked, NothingSkipped;
    var courses := set i | i in w.db.board.rows :: w.db.board.rows[i].key.course;
    course := FreshCourse(courses);
    id := NewCourseQualifies(w.db, course, Threshold(cfg));
    var es := Losing(course);
    assert es[..2] == [es[0], es[1]] && es[..2][..1] == [es[0]] && [es[0]][..0] == [];
    var w1 := Step(w, cfg, es[0]);
    H.IngestKeepsValid(w.db, OneRecord(course));
    BoardOf(w1.db);
    CursorRange(w1.db.board);
    assert Run(w, cfg, []) == w && Run(w, cfg, [es[0]]) == w1 && Run(w, cfg, es[..2]) == Step(w1, cfg, RestartEvent);
  }

  lemma PostedIsOld(w: World, cfg: Config, id: nat)
    requires PostedBelow(w) && id >= w.db.board.next
    ensures id !in w.st.posted
  {
  }

  /** Only ids handed out were posted. */
  ghost predicate PostedBelow(w: World) { forall i :: 0 <= i < |w.st.posted| ==> w.st.posted[i] < w.db.board.next }

  lemma PollPostsBelow(w: World, cfg: Config, env: Env)
    requires PostedBelow(w)
    ensures PostedBelow(w.(st := Poll(w.st, w.db.board, cfg, env)))
  {
    hide PageFrom, PostFrom;
    var page := Page(w.st, w.db.board, cfg);
    PageIsFirst(w.db.board, Cursor(w.st) + 1, Threshold(cfg), Clamp50(cfg.perPoll));
    var acked, sent := PostFromShape(w.st, env, page, 0);
  }

  lemma {:induction false} PostedStaysBelow(w: World, cfg: Config, es: seq<Event>)
    requires H.Valid(w.db) && PostedBelow(w)
    ensures H.Valid(Run(w, cfg, es).db) && PostedBelow(Run(w, cfg, es))
    decreases |es|
  {
    hide H.Valid, Poll, IngestTx;
    if es != [] {
      var n := |es| - 1;
      PostedStaysBelow(w, cfg, es[..n]);
      var v := Run(w, cfg, es[..n]);
      match es[n] {
        case IngestEvent(q) => H.IngestKeepsValid(v.db, q);
        case PollEvent(env) => PollPostsBelow(v, cfg, env);
        case RestartEvent =>
      }
    }
  }

  /** Once a first baseline was taken, nothing is ever missed, whatever fails and restarts later, exactly when the
      baseline has reached the disk. */
  lemma NothingIsEverMissedIff(w: World, cfg: Config)
    requires Safe(w, cfg) && PostedBelow(w) && w.st.baseline.Some? && 1 <= cfg.perPoll <= 50
    ensures (forall es: seq<Event> :: NothingSkipped(Run(w, cfg, es).db.board, Run(w, cfg, es).st, Threshold(cfg)))
            <==> w.st.disk.Some?
  {
    hide Run, NothingSkipped, H.Valid, CursorsBehind;
    if w.st.disk.Some? {
      forall es: seq<Event> ensures NothingSkipped(Run(w, cfg, es).db.board, Run(w, cfg, es).st, Threshold(cfg)) {
        forall i | 0 <= i < |es| ensures Run(w, cfg, es[..i]).st.disk.Some? { DiskStays(w, cfg, es[..i]); }
        NoRecordIsMissed(w, cfg, es);
      }
    } else {
      var course, id := UnsavedBaselineLoses(w, cfg);
      PostedIsOld(w, cfg, id);
      var v := Run(w, cfg, Losing(course));
      Skipped(v.db.board, v.st, Threshold(cfg), id);
    }
  }

  lemma Skipped(b: Board, st: State, maxRank: nat, id: nat)
    requires Qualifies(b, id, maxRank) && Owed(st, id) && id <= Cursor(st) && id !in st.posted
    ensures !NothingSkipped(b, st, maxRank)
  {
  }

  /** From a fresh start: the first baseline is not saved, one record comes in, the process restarts and polls, and
      the record is never posted. */
  lemma FirstRecordIsLost(cfg: Config) returns (course: string, id: nat)
    requires 1 <= cfg.perPoll <= 50
    ensures var unsaved := ALL_WELL.(saved := n => false);
      var v := Run(World(EMPTY_DB, FRESH), cfg, [PollEvent(unsaved)] + Losing(course));
      Qualifies(v.db.board, id, Threshold(cfg)) && Owed(v.st, id) && id <= Cursor(v.st) && v.st.posted == []
  {
    hide IngestTx, PageFrom, PostFrom, Qualifies, Owed;
    var unsaved := ALL_WELL.(saved := n => false);
    var w0, e := World(EMPTY_DB, FRESH), PollEvent(unsaved);
    FreshIsSafe(cfg);
    BoardOf(w0.db);
    PollSkipsNothing(w0.db.board, w0.st, cfg, unsaved);
    var w1 := Step(w0, cfg, e);
    course, id := UnsavedBaselineLoses(w1, cfg);
    var es := Losing(course);
    RunAfter(w0, cfg, e, es);
  }

  lemma {:induction false} RunAfter(w: World, cfg: Config, e: Event, es: seq<Event>)
    ensures Run(w, cfg, [e] + es) == Run(Step(w, cfg, e), cfg, es)
    decreases |es|
  {
    hide Step;
    if es == [] {
      assert ([e] + es)[..0] == [] && [e] + es == [e];
      assert Run(w, cfg, []) == w;
    } else {
      var n := |es| - 1;
      RunAfter(w, cfg, e, es[..n]);
      assert ([e] + es)[..n + 1] == [e] + es[..n];
    }
  }

  // ---- nothing is posted twice ---------------------------------------------------------------

  /** Posted ids strictly increase and none is ahead of the cursor. */
  ghost predicate InOrder(st: State) {
    && Increasing(st.posted)
    && (forall i :: 0 <= i < |st.posted| ==> st.lastId.Some? && st.posted[i] <= st.lastId.value)
  }

  /** Neither a restart nor a batch that was delivered without an acknowledgement. */
  ghost predicate Acknowledged(e: Event) {
    match e
    case IngestEvent(_) => true
    case PollEvent(env) => forall i, j :: env.reply(i, j) != Lost(true)
    case RestartEvent => false
  }

  lemma PostingKeepsOrder(st: State, mid: State, page: seq<nat>, n: nat)
    requires InOrder(st) && st.lastId.Some? && Increasing(page) && PostedUpTo(st, mid, page, 0, n, n)
    requires forall i :: 0 <= i < |page| ==> page[i] > st.lastId.value
    ensures InOrder(mid) && mid.lastId.Some?
  {
    assert forall i :: 0 <= i < |st.posted| ==> mid.posted[i] == st.posted[i];
    assert forall i :: 0 <= i < n ==> mid.posted[|st.posted| + i] == page[i];
  }

  lemma PollKeepsOrder(b: Board, st: State, cfg: Config, env: Env)
    requires Acknowledged(PollEvent(env)) && InOrder(st)
    ensures InOrder(Poll(st, b, cfg, env))
  {
    hide PostFrom, PageFrom;
    var page, maxId := Page(st, b, cfg), MaxId(b);
    PageIsFirst(b, Cursor(st) + 1, Threshold(cfg), Clamp50(cfg.perPoll));
    if env.apiUp && st.lastId.Some? && maxId > st.lastId.value {
      var acked, sent := PostFromShape(st, env, page, 0);
      var (mid, ok) := PostFrom(st, env, page, 0);
      PostingKeepsOrder(st, mid, page, acked);
      hide PostedUpTo, Increasing;
    }
  }

  /** Without restarts and lost acknowledgements, the announcer posts ids in strictly increasing order
      over every run, so no row twice. */
  lemma {:induction false} PostedIdsIncrease(w: World, cfg: Config, es: seq<Event>)
    requires InOrder(w.st) && forall i :: 0 <= i < |es| ==> Acknowledged(es[i])
    ensures InOrder(Run(w, cfg, es).st)
    decreases |es|
  {
    if es != [] {
      var n := |es| - 1;
      assert forall i :: 0 <= i < n ==> es[..n][i] == es[i];
      PostedIdsIncrease(w, cfg, es[..n]);
      var v := Run(w, cfg, es[..n]);
      assert Acknowledged(es[n]);
      if es[n].PollEvent? { PollKeepsOrder(v.db.board, v.st, cfg, es[n].env); }
    }
  }

  // ---- when the page size exceeds the server's clamp ------------------------------------------

  /** How many rows at or above an id qualify. */
  function Backlog(b: Board, from: nat, maxRank: nat): nat
    decreases b.next - from
  {
    if from >= b.next then 0
    else Backlog(b, from + 1, maxRank) + if Qualifies(b, from, maxRank) then 1 else 0
  }

  lemma {:induction false} PageMeetsBacklog(b: Board, from: nat, maxRank: nat, limit: nat)
    ensures |PageFrom(b, from, maxRank, limit)| == Min(limit, Backlog(b, from, maxRank))
    decreases b.next - from
  {
    if from < b.next && limit != 0 {
      PageMeetsBacklog(b, from + 1, maxRank, if Qualifies(b, from, maxRank) then limit - 1 else limit);
    }
  }

  /** Reading a page takes exactly its rows off the backlog. */
  lemma {:induction false} BacklogAfterPage(b: Board, from: nat, maxRank: nat, limit: nat)
    ensures var p := PageFrom(b, from, maxRank, limit);
      p != [] ==> Backlog(b, p[|p| - 1] + 1, maxRank) == Backlog(b, from, maxRank) - |p|
    decreases b.next - from
  {
    if from < b.next && limit != 0 {
      if Qualifies(b, from, maxRank) {
        var q := PageFrom(b, from + 1, maxRank, limit - 1);
        BacklogAfterPage(b, from + 1, maxRank, limit - 1);
        assert PageFrom(b, from, maxRank, limit) == [from] + q;
      } else {
        BacklogAfterPage(b, from + 1, maxRank, limit);
      }
    }
  }

  lemma {:induction false} BacklogZero(b: Board, from: nat, maxRank: nat)
    ensures Backlog(b, from, maxRank) == 0 <==> forall id :: from <= id < b.next ==> !Qualifies(b, id, maxRank)
    decreases b.next - from
  {
    if from < b.next { BacklogZero(b, from + 1, maxRank); }
  }

  /** Every POST is acknowledged and the API answers. */
  ghost predicate AllWell(env: Env) { env.apiUp && forall i, j :: env.reply(i, j) == Posted }

  lemma {:induction false} AllWellPosts(st: State, env: Env, page: seq<nat>, from: nat)
    requires AllWell(env) && from <= |page|
    ensures PostFrom(st, env, page, from).1
    decreases |page| - from
  {
    if from < |page| {
      var upto := Min(from + BATCH, |page|);
      AllWellPosts(Save(st.(posted := st.posted + page[from..upto], lastId := Some(page[upto - 1])), env, from / BATCH),
                   env, page, upto);
    }
  }

  lemma PastPage(b: Board, from: nat, maxRank: nat, limit: nat, id: nat)
    requires var p := PageFrom(b, from, maxRank, limit); p != [] && p[|p| - 1] < id
    ensures id !in PageFrom(b, from, maxRank, limit)
  {
    PageIsFirst(b, from, maxRank, limit);
  }

  /** Every row that was due is still due or has been posted. */
  ghost predicate LeavesNoneOut(b: Board, st: State, after: State, maxRank: nat) {
    forall id: nat :: Qualifies(b, id, maxRank) && id > Cursor(st) ==> id > Cursor(after) || id in after.posted
  }

  /** A faultless poll over new ids posts its whole page and moves to `NextCursor`. */
  lemma GoodPoll(b: Board, st: State, cfg: Config, env: Env)
    requires st.lastId.Some? && AllWell(env) && MaxId(b) > st.lastId.value
    ensures var after, page := Poll(st, b, cfg, env), Page(st, b, cfg);
      after.posted == st.posted + page && after.lastId == Some(NextCursor(page, MaxId(b), cfg.perPoll)) && after.baseline == st.baseline
  {
    var page := Page(st, b, cfg);
    AllWellPosts(st, env, page, 0);
    var acked, sent := PostFromShape(st, env, page, 0);
    hide PostFrom, PageFrom;
    assert page[0..|page|] == page;
  }

  lemma NothingNew(b: Board, st: State, after: State, maxRank: nat)
    requires Indexed(b) && MaxId(b) <= Cursor(st)
    ensures LeavesNoneOut(b, st, after, maxRank)
  {
  }

  lemma SmallPageLeavesNoneOut(b: Board, st: State, cfg: Config, env: Env)
    requires Indexed(b) && st.lastId.Some? && AllWell(env) && 1 <= cfg.perPoll
    requires cfg.perPoll <= 50 || Backlog(b, Cursor(st) + 1, Threshold(cfg)) <= 50
    ensures LeavesNoneOut(b, st, Poll(st, b, cfg, env), Threshold(cfg))
  {
    hide PageFrom, Backlog, Increasing, Poll, MaxId;
    var t, limit, page := Threshold(cfg), Clamp50(cfg.perPoll), Page(st, b, cfg);
    var after := Poll(st, b, cfg, env);
    if MaxId(b) <= st.lastId.value {
      NothingNew(b, st, after, t);
    } else {
      GoodPoll(b, st, cfg, env);
      PageIsFirst(b, Cursor(st) + 1, t, limit);
      forall id: nat | Qualifies(b, id, t) && id > Cursor(st) && id !in page ensures id > Cursor(after) {
        assert |page| == limit && page[|page| - 1] < id;
        if |page| < cfg.perPoll {
          PageMeetsBacklog(b, Cursor(st) + 1, t, limit);
          BacklogAfterPage(b, Cursor(st) + 1, t, limit);
          BacklogZero(b, page[|page| - 1] + 1, t);
        }
      }
    }
  }

  lemma LargePageLeavesOneOut(b: Board, st: State, cfg: Config, env: Env) returns (id: nat)
    requires Indexed(b) && st.lastId.Some? && AllWell(env)
    requires forall i :: 0 <= i < |st.posted| ==> st.posted[i] <= st.lastId.value
    requires cfg.perPoll > 50 && Backlog(b, Cursor(st) + 1, Threshold(cfg)) > 50
    ensures var after := Poll(st, b, cfg, env);
      Qualifies(b, id, Threshold(cfg)) && id > Cursor(st) && id <= Cursor(after) && id !in after.posted
  {
    var t, page := Threshold(cfg), Page(st, b, cfg);
    PageIsFirst(b, Cursor(st) + 1, t, 50);
    PageMeetsBacklog(b, Cursor(st) + 1, t, 50);
    BacklogAfterPage(b, Cursor(st) + 1, t, 50);
    var last := page[|page| - 1];
    BacklogZero(b, last + 1, t);
    id :| last + 1 <= id < b.next && Qualifies(b, id, t);
    PastPage(b, Cursor(st) + 1, t, 50, id);
    assert id <= MaxId(b);
    GoodPoll(b, st, cfg, env);
  }

  /** A poll in which everything works leaves out none of the rows that were ahead of the cursor
      exactly when the page size is within the server's clamp of 50 or no more than 50 rows were due.
      A larger page size makes a clamped full page look short, and the cursor jumps over the rest. */
  lemma GoodPollSkipsNothingIff(b: Board, st: State, cfg: Config, env: Env)
    requires Indexed(b) && st.lastId.Some? && AllWell(env) && 1 <= cfg.perPoll
    requires forall i :: 0 <= i < |st.posted| ==> st.posted[i] <= st.lastId.value
    ensures LeavesNoneOut(b, st, Poll(st, b, cfg, env), Threshold(cfg))
      <==> cfg.perPoll <= 50 || Backlog(b, Cursor(st) + 1, Threshold(cfg)) <= 50
  {
    hide Poll, Backlog;
    if cfg.perPoll <= 50 || Backlog(b, Cursor(st) + 1, Threshold(cfg)) <= 50 {
      SmallPageLeavesNoneOut(b, st, cfg, env);
    } else {
      var id := LargePageLeavesOneOut(b, st, cfg, env);
    }
  }

  function TiedKey(id: nat): RaceKey { RaceKey(id, "m", "v") }

  /** Fifty-one players tied for rank 1 on one map, in rows 1..51. */
  function FiftyOneRecords(): Board {
    Board(52, map id: nat | 0 < id < 52 :: Race(TiedKey(id), 1000, [], 1, 1), map id: nat | 0 < id < 52 :: TiedKey(id) := id)
  }

  /** A board the database can hold: indexed, and with the ranks the update gives. */
  lemma FiftyOneRecordsIsSound()
    ensures Indexed(FiftyOneRecords()) && Ranked(FiftyOneRecords())
  {
    var b := FiftyOneRecords();
    forall id | id in b.rows ensures RankedRow(b.rows, id) {
      assert Faster(b.rows, "m", 1000) == {} && FasterIn(b.rows, "m", "v", 1000) == {};
    }
  }

  lemma {:induction false} BacklogFull(b: Board, from: nat, maxRank: nat)
    requires from <= b.next && forall id :: from <= id < b.next ==> Qualifies(b, id, maxRank)
    ensures Backlog(b, from, maxRank) == b.next - from
    decreases b.next - from
  {
    if from < b.next { BacklogFull(b, from + 1, maxRank); }
  }

  /** With a page size of 51 a faultless poll over 51 due records posts 50 and passes over the last. */
  lemma OversizedPageSkipsARecord(env: Env)
    requires AllWell(env)
    ensures var b, st, cfg := FiftyOneRecords(), State(Some(0), None, [], Some(0)), Config(1, 51);
      Indexed(b) && Ranked(b) && !LeavesNoneOut(b, st, Poll(st, b, cfg, env), 1)
  {
    var b, st, cfg := FiftyOneRecords(), State(Some(0), None, [], Some(0)), Config(1, 51);
    FiftyOneRecordsIsSound();
    hide Poll, Indexed, Ranked;
    BacklogFull(b, 1, 1);
    var id := LargePageLeavesOneOut(b, st, cfg, env);
  }

  // ---- catching up ---------------------------------------------------------------------------

  /** A poll in which everything works takes a full page, or all there is, off the backlog. */
  lemma PollDrains(b: Board, st: State, cfg: Config, env: Env)
    requires Indexed(b) && st.lastId.Some? && AllWell(env) && 1 <= cfg.perPoll <= 50
    ensures var after := Poll(st, b, cfg, env); var due := Backlog(b, Cursor(st) + 1, Threshold(cfg));
      && after.lastId.Some?
      && Backlog(b, Cursor(after) + 1, Threshold(cfg)) == if due > cfg.perPoll then due - cfg.perPoll else 0
  {
    var t, page, maxId := Threshold(cfg), Page(st, b, cfg), MaxId(b);
    PageIsFirst(b, Cursor(st) + 1, t, cfg.perPoll);
    PageMeetsBacklog(b, Cursor(st) + 1, t, cfg.perPoll);
    BacklogAfterPage(b, Cursor(st) + 1, t, cfg.perPoll);
    if maxId <= st.lastId.value {
      BacklogZero(b, Cursor(st) + 1, t);
    } else {
      GoodPoll(b, st, cfg, env);
      hide Poll, PageFrom;
      var after := Poll(st, b, cfg, env);
      if |page| < cfg.perPoll { BacklogZero(b, Cursor(after) + 1, t); }
    }
  }

  function PollMany(st: State, b: Board, cfg: Config, env: Env, n: nat): State {
    if n == 0 then st else Poll(PollMany(st, b, cfg, env, n - 1), b, cfg, env)
  }

  lemma {:induction false} PollManyDrains(w: World, cfg: Config, env: Env, n: nat)
    requires Safe(w, cfg) && w.st.lastId.Some? && AllWell(env) && 1 <= cfg.perPoll <= 50
    ensures var st := PollMany(w.st, w.db.board, cfg, env, n); var due := Backlog(w.db.board, Cursor(w.st) + 1, Threshold(cfg));
      && Safe(w.(st := st), cfg) && st.lastId.Some?
      && Backlog(w.db.board, Cursor(st) + 1, Threshold(cfg)) == if due > n * cfg.perPoll then due - n * cfg.perPoll else 0
  {
    hide Poll, Backlog;
    if n > 0 {
      PollManyDrains(w, cfg, env, n - 1);
      var mid := PollMany(w.st, w.db.board, cfg, env, n - 1);
      BoardOf(w.db);
      hide H.Valid;
      PollDrains(w.db.board, mid, cfg, env);
      PollSkipsNothing(w.db.board, mid, cfg, env);
      assert n * cfg.perPoll == (n - 1) * cfg.perPoll + cfg.perPoll;
    }
  }

  lemma NoBacklogMeansPosted(b: Board, st: State, maxRank: nat, id: nat)
    requires Indexed(b) && NothingSkipped(b, st, maxRank) && Backlog(b, Cursor(st) + 1, maxRank) == 0
    requires Qualifies(b, id, maxRank) && Owed(st, id)
    ensures id in st.posted
  {
    BacklogZero(b, Cursor(st) + 1, maxRank);
  }

  /** Once the outside world works, n polls clear a backlog of n pages: every qualifying row above the
      first baseline has then been posted. */
  lemma EverythingGetsPosted(w: World, cfg: Config, env: Env, n: nat, id: nat)
    requires Safe(w, cfg) && w.st.lastId.Some? && AllWell(env) && 1 <= cfg.perPoll <= 50
    requires Backlog(w.db.board, Cursor(w.st) + 1, Threshold(cfg)) <= n * cfg.perPoll
    requires Qualifies(w.db.board, id, Threshold(cfg)) && Owed(PollMany(w.st, w.db.board, cfg, env, n), id)
    ensures id in PollMany(w.st, w.db.board, cfg, env, n).posted
  {
    hide H.Valid, PollMany, Backlog, Threshold, Qualifies, NothingSkipped, CursorsBehind, Indexed, Ranked;
    PollManyDrains(w, cfg, env, n);
    BoardOf(w.db);
    NoBacklogMeansPosted(w.db.board, PollMany(w.st, w.db.board, cfg, env, n), Threshold(cfg), id);
  }
}
