/** From a line of the game server's log to the stored record: the collector's tail feeding the ingest
    endpoint, next to any other ingests (collector/collector.js, `pumpRacelog`; web/server.js, the
    validation in front of `ingest`; web/db.js, `_ingestTx`). */
module EndToEnd {
  import opened Extrema
  import opened Wrappers
  import opened Text
  import opened Numbers
  import Canon = Canonical
  import opened Leaderboard
  import opened Ingest
  import H = IngestHistory
  import opened EventLine
  import opened Collector
  import R = CollectorRuns

  const MAX_NAME_LEN := 64
  const MAX_MAP_LEN := 128
  const MAX_CHECKPOINTS := 4096
  const MIN_TIME_MS := 50
  const MAX_TIME_MS := 24 * 60 * 60 * 1000

  function Take(s: string, n: nat): string { if |s| <= n then s else s[..n] }

  function CleanSplits(t: seq<int>): seq<int> {
    if t == [] then [] else
    [if t[0] <= 0 then 0 else if t[0] > MAX_TIME_MS then MAX_TIME_MS else t[0]] + CleanSplits(t[1..])
  }

  /** `sanitizeRecord`, for records as the collector sends them. */
  function Sanitize(r: Rec): Option<Rec> {
    if r.who.name == "" || r.time < MIN_TIME_MS || r.time > MAX_TIME_MS then None else
    Some(Rec(Canon.Who(Take(r.who.name, MAX_NAME_LEN), Take(r.who.login, MAX_NAME_LEN)), r.time, r.attempts,
             CleanSplits(if |r.splits| <= MAX_CHECKPOINTS then r.splits else r.splits[..MAX_CHECKPOINTS])))
  }

  /** What the endpoint makes of a record: it is valid exactly with a name and a time from 50 ms to a day; then name and
      login are cut to 64, the time stays, and the first 4096 splits are brought between zero and a day. */
  lemma SanitizeIs(r: Rec)
    ensures Sanitize(r).Some? <==> r.who.name != "" && 50 <= r.time <= 86_400_000
    ensures Sanitize(r).Some? ==> var v := Sanitize(r).value;
      && CutTo(v.who.name, r.who.name, 64) && CutTo(v.who.login, r.who.login, 64) && v.time == r.time && v.attempts == r.attempts
      && |v.splits| == Min(|r.splits|, 4096)
      && forall i :: 0 <= i < |v.splits| ==> v.splits[i] == Min(86_400_000, Max(0, r.splits[i]))
  {
    if Sanitize(r).Some? { CleanSplitsAre(if |r.splits| <= MAX_CHECKPOINTS then r.splits else r.splits[..MAX_CHECKPOINTS]); }
    hide CleanSplits;
  }

  predicate CutTo(cut: string, s: string, n: nat) { cut <= s && |cut| == Min(|s|, n) }

  lemma {:induction false} CleanSplitsAre(t: seq<int>)
    ensures |CleanSplits(t)| == |t| && forall i :: 0 <= i < |t| ==> CleanSplits(t)[i] == Min(86_400_000, Max(0, t[i]))
  {
    if t != [] { CleanSplitsAre(t[1..]); }
  }

  function SanitizeAll(rs: seq<Rec>): seq<Rec> {
    if rs == [] then [] else
    match Sanitize(rs[0])
    case Some(r) => [r] + SanitizeAll(rs[1..])
    case None => SanitizeAll(rs[1..])
  }

  function CleanMap(course: string): string { Lower(Take(course, MAX_MAP_LEN)) }

  /** The endpoint's fixed part of the collector's requests. */
  datatype Sender = Sender(version: string, server: nat, day: int, batch: nat)

  function RequestOf(d: Delivery, s: Sender): Request {
    Request(s.version, CleanMap(d.course), SanitizeAll(d.records), [], true, s.server, s.day)
  }

  predicate Committed(d: Delivery) { d.verdict == Accepted || d.verdict == Failed(true) }

  /** The requests of a series of deliveries, in order, as committed transactions. */
  function Commit(db: Db, ds: seq<Delivery>, s: Sender): Db {
    if ds == [] then db else
    var before, d := Commit(db, ds[..|ds| - 1], s), ds[|ds| - 1];
    if Committed(d) then IngestTx(before, RequestOf(d, s)) else before
  }

  datatype Happening = TailEvent(what: R.Happening) | OtherIngest(request: Request)

  datatype World = World(tail: R.World, db: Db)

  function NewDeliveries(before: seq<Delivery>, after: seq<Delivery>): seq<Delivery> {
    if |before| <= |after| then after[|before|..] else []
  }

  function Step(w: World, h: Happening, s: Sender): World
    requires s.batch > 0
  {
    match h
    case TailEvent(what) =>
      var tail := R.Step(w.tail, what, s.batch);
      World(tail, Commit(w.db, NewDeliveries(w.tail.st.sent, tail.st.sent), s))
    case OtherIngest(q) => w.(db := IngestTx(w.db, q))
  }

  function Run(w: World, hs: seq<Happening>, s: Sender): World
    requires s.batch > 0
  {
    if hs == [] then w else Step(Run(w, hs[..|hs| - 1], s), hs[|hs| - 1], s)
  }

  /** The stored best of a player on a map is no slower than a time. */
  ghost predicate AtMost(db: Db, w: Canon.Who, course: string, version: string, time: int) {
    var t := H.BestTime(db, w, course, version); t.Some? && t.value <= time
  }

  /** Every record of an accepted delivery that passes validation is in the database, or beaten there. */
  ghost predicate Stored(db: Db, d: Delivery, s: Sender) {
    d.verdict == Accepted ==>
      forall i :: 0 <= i < |d.records| && Sanitize(d.records[i]).Some? ==>
        var r := Sanitize(d.records[i]).value; AtMost(db, r.who, CleanMap(d.course), s.version, r.time)
  }

  ghost predicate AllStored(db: Db, ds: seq<Delivery>, s: Sender) {
    forall i :: 0 <= i < |ds| ==> Stored(db, ds[i], s)
  }

  // ---- what one request does to a stored time ----------------------------------------------------

  /** A history of at most one submission that explains a stored best time. */
  function Explained(db: Db, w: Canon.Who, course: string, version: string): seq<H.Submission> {
    var t := H.BestTime(db, w, course, version);
    if t.Some? then [H.Submission(w, course, version, t.value)] else []
  }

  lemma ExplainedIs(db: Db, w: Canon.Who, course: string, version: string)
    ensures H.LeastTime(Explained(db, w, course, version), w, course, version) == H.BestTime(db, w, course, version)
  {
    hide H.BestTime;
    var h := Explained(db, w, course, version);
    if h != [] { assert h[..|h| - 1] == []; }
  }

  lemma AtMostStays(db: Db, q: Request, w: Canon.Who, course: string, version: string, time: int)
    requires H.Valid(db) && AtMost(db, w, course, version, time)
    ensures AtMost(IngestTx(db, q), w, course, version, time)
  {
    hide IngestTx, H.Valid, H.BestTime;
    var h := Explained(db, w, course, version);
    ExplainedIs(db, w, course, version);
    H.IngestBest(db, q, h, w, course, version);
    var all := h + H.SubmissionsOf(q, |q.records|);
    H.LeastTimeIsLeast(all, w, course, version);
    assert all[0] == h[0];
  }

  lemma {:induction false} SubmissionsHold(q: Request, n: nat, i: nat)
    requires i < n <= |q.records|
    ensures H.Submission(q.records[i].who, q.course, q.version, q.records[i].time) in H.SubmissionsOf(q, n)
  {
    if i < n - 1 { SubmissionsHold(q, n - 1, i); }
  }

  lemma AtMostAfter(db: Db, q: Request, i: nat)
    requires H.Valid(db) && i < |q.records|
    ensures AtMost(IngestTx(db, q), q.records[i].who, q.course, q.version, q.records[i].time)
  {
    hide IngestTx, H.Valid, H.BestTime;
    var r := q.records[i];
    var h := Explained(db, r.who, q.course, q.version);
    ExplainedIs(db, r.who, q.course, q.version);
    H.IngestBest(db, q, h, r.who, q.course, q.version);
    SubmissionsHold(q, |q.records|, i);
    H.LeastTimeIsLeast(h + H.SubmissionsOf(q, |q.records|), r.who, q.course, q.version);
  }

  lemma {:induction false} SanitizedAt(rs: seq<Rec>, i: nat) returns (j: nat)
    requires i < |rs| && Sanitize(rs[i]).Some?
    ensures j < |SanitizeAll(rs)| && SanitizeAll(rs)[j] == Sanitize(rs[i]).value
    decreases |rs|
  {
    hide Sanitize;
    if i == 0 {
      j := 0;
    } else {
      j := SanitizedAt(rs[1..], i - 1);
      if Sanitize(rs[0]).Some? { j := j + 1; }
    }
  }

  lemma StoredStays(db: Db, q: Request, d: Delivery, s: Sender)
    requires H.Valid(db) && Stored(db, d, s)
    ensures Stored(IngestTx(db, q), d, s)
  {
    hide IngestTx, H.Valid, AtMost, Sanitize;
    if d.verdict == Accepted {
      forall i | 0 <= i < |d.records| && Sanitize(d.records[i]).Some?
        ensures var r := Sanitize(d.records[i]).value; AtMost(IngestTx(db, q), r.who, CleanMap(d.course), s.version, r.time)
      {
        var r := Sanitize(d.records[i]).value;
        AtMostStays(db, q, r.who, CleanMap(d.course), s.version, r.time);
      }
    }
  }

  lemma StoredAfter(db: Db, d: Delivery, s: Sender)
    requires H.Valid(db)
    ensures Stored(IngestTx(db, RequestOf(d, s)), d, s)
  {
    hide IngestTx, H.Valid, AtMost, Sanitize, SanitizeAll, CleanMap;
    forall i | 0 <= i < |d.records| && Sanitize(d.records[i]).Some?
      ensures var r := Sanitize(d.records[i]).value;
        AtMost(IngestTx(db, RequestOf(d, s)), r.who, CleanMap(d.course), s.version, r.time)
    {
      var j := SanitizedAt(d.records, i);
      AtMostAfter(db, RequestOf(d, s), j);
    }
  }

  lemma AllStoredStays(db: Db, q: Request, ds: seq<Delivery>, s: Sender)
    requires H.Valid(db) && AllStored(db, ds, s)
    ensures AllStored(IngestTx(db, q), ds, s)
  {
    hide IngestTx, H.Valid, Stored;
    forall i | 0 <= i < |ds| ensures Stored(IngestTx(db, q), ds[i], s) { StoredStays(db, q, ds[i], s); }
  }

  lemma {:induction false} CommitStores(db: Db, sent: seq<Delivery>, ds: seq<Delivery>, s: Sender)
    requires H.Valid(db) && AllStored(db, sent, s)
    ensures H.Valid(Commit(db, ds, s)) && AllStored(Commit(db, ds, s), sent + ds, s)
    decreases |ds|
  {
    hide IngestTx, H.Valid, Stored, RequestOf;
    if ds == [] {
      assert sent + ds == sent;
    } else {
      var n := |ds| - 1;
      CommitStores(db, sent, ds[..n], s);
      var before, d := Commit(db, ds[..n], s), ds[n];
      assert sent + ds == sent + ds[..n] + [d];
      if Committed(d) {
        H.IngestKeepsValid(before, RequestOf(d, s));
        AllStoredStays(before, RequestOf(d, s), sent + ds[..n], s);
        StoredAfter(before, d, s);
      } else {
        NotAcceptedStored(before, d, s);
      }
    }
  }

  lemma NotAcceptedStored(db: Db, d: Delivery, s: Sender)
    requires d.verdict != Accepted
    ensures Stored(db, d, s)
  {
  }

  // ---- runs --------------------------------------------------------------------------------------

  ghost predicate Valid(w: World, s: Sender) {
    R.Sound(w.tail) && H.Valid(w.db) && AllStored(w.db, w.tail.st.sent, s)
  }

  lemma TailStepExtends(w: R.World, h: R.Happening, batch: nat)
    requires batch > 0
    ensures var after := R.Step(w, h, batch).st.sent; |w.st.sent| <= |after| && after[..|w.st.sent|] == w.st.sent
  {
    match h {
      case Tick(env) =>
        R.TickHandlesAll(w.st, w.file, env, batch);
        hide PostGroups, Grouped, Reopen, Lines, SplitOn, R.Times;
      case Append(_) =>
      case Replace(_) =>
      case Crash =>
    }
  }

  lemma {:induction false} RunKeepsValid(w: World, hs: seq<Happening>, s: Sender)
    requires s.batch > 0 && Valid(w, s)
    ensures Valid(Run(w, hs, s), s)
    decreases |hs|
  {
    hide R.Sound, R.Step, H.Valid, AllStored, Commit, IngestTx;
    if hs != [] {
      var v := Run(w, hs[..|hs| - 1], s);
      RunKeepsValid(w, hs[..|hs| - 1], s);
      match hs[|hs| - 1] {
        case TailEvent(what) =>
          var tail := R.Step(v.tail, what, s.batch);
          TailStepExtends(v.tail, what, s.batch);
          R.StepKeepsSound(v.tail, what, s.batch);
          var ds := NewDeliveries(v.tail.st.sent, tail.st.sent);
          CommitStores(v.db, v.tail.st.sent, ds, s);
          assert v.tail.st.sent + ds == tail.st.sent;
        case OtherIngest(q) =>
          H.IngestKeepsValid(v.db, q);
          AllStoredStays(v.db, q, v.tail.st.sent, s);
      }
    }
  }

  lemma FirstWorldIsValid(content: string, s: Sender)
    ensures Valid(World(R.FirstWorld(content), EMPTY_DB), s)
  {
    R.FirstWorldIsSound(content);
  }

  lemma {:induction false} SettledSomewhere(sent: seq<Delivery>, e: Event) returns (i: nat)
    requires R.Times(sent, e) > 0
    ensures i < |sent| && sent[i].course == e.course && e.rec in sent[i].records && !sent[i].verdict.Failed?
  {
    i := |sent| - 1;
    if R.SettledBy(sent[i], e) == 0 { i := SettledSomewhere(sent[..i], e); }
  }

  /** Over every run: a parseable line before the tail's offset either sits in a chunk dropped with a
      4xx, or fails the endpoint's validation, or the database holds a time for that player, map and
      version that is at least as good. */
  lemma LoggedFinishIsStored(w: World, hs: seq<Happening>, s: Sender, e: Event)
    requires s.batch > 0 && Valid(w, s)
    requires var t := Run(w, hs, s).tail;
      t.st.mem.ino == Some(t.file.ino) && e in EventsOf(t.file.content[..Min(t.st.mem.offset, |t.file.content|)])
    ensures var v := Run(w, hs, s);
      || (exists i :: 0 <= i < |v.tail.st.sent| && v.tail.st.sent[i].verdict == Rejected
            && v.tail.st.sent[i].course == e.course && e.rec in v.tail.st.sent[i].records)
      || Sanitize(e.rec).None?
      || AtMost(v.db, Sanitize(e.rec).value.who, CleanMap(e.course), s.version, Sanitize(e.rec).value.time)
  {
    hide Run, EventsOf, AtMost, Sanitize, CleanMap, H.Valid, R.Times;
    RunKeepsValid(w, hs, s);
    var v := Run(w, hs, s);
    var t, sent := v.tail, v.tail.st.sent;
    assert e in multiset(EventsOf(t.file.content[..t.st.mem.offset]));
    var k := SettledSomewhere(sent[t.began..], e);
    var i := t.began + k;
    if sent[i].verdict == Accepted && Sanitize(e.rec).Some? {
      assert Stored(v.db, sent[i], s);
      var j :| 0 <= j < |sent[i].records| && sent[i].records[j] == e.rec;
    }
  }

  // ---- from a printed line ---------------------------------------------------------------------------

  /** A line as the game server appends it. */
  function Printed(course: string, time: nat, login: string, splits: seq<nat>, name: string): string {
    FormatEvent(course, time, login, splits, name) + "\n"
  }

  /** One complete line is one event of its text. */
  lemma OneLineOneEvent(line: string, e: Event)
    requires Free(line, '\n') && Trim(line) != "" && ParseEventLine(line) == Some(e)
    ensures EventsOf(line + "\n") == [e]
  {
    R.EventsOfNothing();
    hide ParseEventLine, Trim, SplitOn, LineEvents, LinesEvents;
    assert line + "\n" == line + "\n" + "";
    SplitConcat(line, "", '\n');
    SplitFree(line, '\n');
    SplitFree("", '\n');
    TwoLines(line, e);
  }

  lemma TwoLines(line: string, e: Event)
    requires Trim(line) != "" && ParseEventLine(line) == Some(e) && LineEvents("") == []
    ensures LinesEvents([line] + [""]) == [e]
  {
    hide ParseEventLine, Trim;
    assert ([line] + [""])[..1] == [line] && [line][..0] == [];
    assert LinesEvents([line]) == [e];
  }

  lemma {:induction false} TrimLeftKeeps(s: string)
    requires s != "" && !IsSpace(s[0])
    ensures TrimLeft(s) == s
  {
  }

  lemma {:induction false} TrimRightStarts(s: string)
    requires s != "" && !IsSpace(s[0])
    ensures TrimRight(s) != "" && TrimRight(s)[0] == s[0]
  {
    if IsSpace(s[|s| - 1]) { TrimRightStarts(s[..|s| - 1]); }
  }

  lemma {:induction false} ShownSplitsFree(t: seq<nat>)
    requires t != []
    ensures Free(ShowSplits(t), '\n')
  {
    hide ToDec;
    if |t| > 1 { ShownSplitsFree(t[1..]); }
  }

  /** A printed finish is a line of its own, whatever its fields, as long as they hold no newline. */
  lemma PrintedIsOneEvent(course: string, time: nat, login: string, splits: seq<nat>, name: string)
    requires course != "" && Free(course, '\t') && Free(login, '\t') && time > 0 && name != ""
    requires Free(course, '\n') && Free(login, '\n') && Free(name, '\n')
    ensures EventsOf(Printed(course, time, login, splits, name))
            == [Event(course, Rec(Canon.Who(name, login), time, None, AsInts(splits)))]
  {
    hide ToDec, ParseInt, SplitOn, JoinWith, Splits, ShowSplits, ParseEventLine, Trim, TrimLeft, TrimRight, EventsOf;
    var line := FormatEvent(course, time, login, splits, name);
    EventRoundTrip(course, time, login, splits, name);
    if splits != [] { ShownSplitsFree(splits); }
    FormatIsFree(course, time, login, splits, name);
    TrimRightStarts(line);
    TrimLeftKeeps(TrimRight(line));
    TrimIs(line);
    OneLineOneEvent(line, Event(course, Rec(Canon.Who(name, login), time, None, AsInts(splits))));
  }

  lemma TrimIs(s: string)
    ensures Trim(s) == TrimLeft(TrimRight(s))
  {
  }

  lemma FormatIsFree(course: string, time: nat, login: string, splits: seq<nat>, name: string)
    requires Free(course, '\n') && Free(login, '\n') && Free(name, '\n')
    requires splits == [] || Free(ShowSplits(splits), '\n')
    ensures var line := FormatEvent(course, time, login, splits, name);
      Free(line, '\n') && line != "" && !IsSpace(line[0])
  {
    hide ToDec, ShowSplits;
    FreeConcat("R1\t", course, '\n');
  }

  lemma FreeConcat(a: string, b: string, c: char)
    requires Free(a, c) && Free(b, c)
    ensures Free(a + b, c)
  {
  }

  /** From the game server's append to the database: once the tail has passed a printed line, its finish was dropped with
      a 4xx, fails the endpoint's validation, or is stored at least as fast under its player, map and version. */
  lemma PrintedFinishIsStored(w: World, hs: seq<Happening>, s: Sender, before: string, after: string,
                              course: string, time: nat, login: string, splits: seq<nat>, name: string)
    requires s.batch > 0 && Valid(w, s)
    requires course != "" && Free(course, '\t') && Free(login, '\t') && time > 0 && name != ""
    requires Free(course, '\n') && Free(login, '\n') && Free(name, '\n')
    requires before == "" || before[|before| - 1] == '\n'
    requires var t := Run(w, hs, s).tail; var line := Printed(course, time, login, splits, name);
      && t.file.content == before + line + after
      && t.st.mem.ino == Some(t.file.ino) && |before + line| <= t.st.mem.offset
    ensures var v, e := Run(w, hs, s), Event(course, Rec(Canon.Who(name, login), time, None, AsInts(splits)));
      || (exists i :: 0 <= i < |v.tail.st.sent| && v.tail.st.sent[i].verdict == Rejected
            && v.tail.st.sent[i].course == course && e.rec in v.tail.st.sent[i].records)
      || Sanitize(e.rec).None?
      || AtMost(v.db, Sanitize(e.rec).value.who, CleanMap(course), s.version, Sanitize(e.rec).value.time)
  {
    hide Run, EventsOf, AtMost, Sanitize, CleanMap, H.Valid, R.Sound, Printed, AllStored;
    var e := Event(course, Rec(Canon.Who(name, login), time, None, AsInts(splits)));
    var t, line := Run(w, hs, s).tail, Printed(course, time, login, splits, name);
    PrintedIsOneEvent(course, time, login, splits, name);
    PrintedEnds(course, time, login, splits, name);
    RunKeepsValid(w, hs, s);
    OffsetInFile(t);
    var n := Min(t.st.mem.offset, |t.file.content|);
    var rest := t.file.content[|before + line|..n];
    assert t.file.content[..n] == (before + line) + rest;
    R.EventsConcat(before, line);
    R.EventsConcat(before + line, rest);
    assert [e][0] == e && e in EventsOf(line);
    LoggedFinishIsStored(w, hs, s, e);
  }

  /** For a finish within the endpoint's bounds, under names it does not cut, that leaves two ways: a drop with a 4xx, or
      a time at least as good under the very player and the map in lower case. */
  lemma GoodFinishIsStored(w: World, hs: seq<Happening>, s: Sender, before: string, after: string,
                           course: string, time: nat, login: string, splits: seq<nat>, name: string)
    requires s.batch > 0 && Valid(w, s)
    requires course != "" && Free(course, '\t') && Free(login, '\t') && name != ""
    requires Free(course, '\n') && Free(login, '\n') && Free(name, '\n')
    requires 50 <= time <= 86_400_000 && |name| <= 64 && |login| <= 64 && |course| <= 128
    requires before == "" || before[|before| - 1] == '\n'
    requires var t := Run(w, hs, s).tail; var line := Printed(course, time, login, splits, name);
      && t.file.content == before + line + after
      && t.st.mem.ino == Some(t.file.ino) && |before + line| <= t.st.mem.offset
    ensures var v, e := Run(w, hs, s), Event(course, Rec(Canon.Who(name, login), time, None, AsInts(splits)));
      || (exists i :: 0 <= i < |v.tail.st.sent| && v.tail.st.sent[i].verdict == Rejected
            && v.tail.st.sent[i].course == course && e.rec in v.tail.st.sent[i].records)
      || AtMost(v.db, Canon.Who(name, login), Lower(course), s.version, time)
  {
    hide Run, Printed, AtMost, Sanitize, Lower;
    PrintedFinishIsStored(w, hs, s, before, after, course, time, login, splits, name);
    var rec := Rec(Canon.Who(name, login), time, None, AsInts(splits));
    SanitizeIs(rec);
    assert Sanitize(rec).value.who == Canon.Who(name, login);
    assert CleanMap(course) == Lower(course);
  }

  lemma PrintedEnds(course: string, time: nat, login: string, splits: seq<nat>, name: string)
    ensures var line := Printed(course, time, login, splits, name); line != "" && line[|line| - 1] == '\n'
  {
  }

  lemma OffsetInFile(t: R.World)
    requires R.Sound(t) && t.st.mem.ino == Some(t.file.ino)
    ensures t.st.mem.offset <= |t.file.content|
  {
    hide EventsOf, R.Times;
  }
}
