/** The racelog tail (collector/collector.js, `pumpRacelog`, `postRecords`, `saveState`): read from the
    saved byte offset, post every complete line, then move the offset. A character stands for a byte. */
module Collector {
  import opened Extrema
  import opened Wrappers
  import opened Text
  import opened Ingest
  import opened EventLine

  /** The log: `ino` is new for every replacement, and a file only ever grows. */
  datatype LogFile = LogFile(ino: nat, content: string)

  /** The ingest endpoint's answer to one chunk. A failed POST (5xx, network) may have been committed. */
  datatype Verdict = Accepted | Rejected | Failed(committed: bool)

  datatype Delivery = Delivery(course: string, records: seq<Rec>, verdict: Verdict)

  /** What the outside world does during one tick: chunk j of map i gets reply(i, j). */
  datatype Env = Env(statOk: bool, reply: (nat, nat) -> Verdict, saved: bool)

  datatype Cursor = Cursor(offset: nat, ino: Option<nat>)

  /** The tail in memory and on disk, and (for the statements only) everything it ever posted. */
  datatype State = State(mem: Cursor, disk: Cursor, sent: seq<Delivery>)

  const FRESH := State(Cursor(0, None), Cursor(0, None), [])

  const READ_CAP := 8 * 1024 * 1024

  // ---- lines and maps --------------------------------------------------------------------------

  function LineEvents(line: string): seq<Event> {
    if Trim(line) == "" then [] else
    match ParseEventLine(line)
    case Some(e) => [e]
    case None => []
  }

  function LinesEvents(lines: seq<string>): seq<Event> {
    if lines == [] then [] else LinesEvents(lines[..|lines| - 1]) + LineEvents(lines[|lines| - 1])
  }

  /** The parseable lines of a text. */
  function EventsOf(text: string): seq<Event> { LinesEvents(SplitOn(text, '\n')) }

  datatype Group = Group(course: string, records: seq<Rec>)

  /** `byMap`: appended to the entry of the event's map, or to a new last entry. */
  function AddTo(groups: seq<Group>, e: Event): seq<Group> {
    if groups == [] then [Group(e.course, [e.rec])]
    else if groups[0].course == e.course then [Group(e.course, groups[0].records + [e.rec])] + groups[1..]
    else [groups[0]] + AddTo(groups[1..], e)
  }

  function AfterLine(groups: seq<Group>, line: string): seq<Group> {
    if Trim(line) == "" then groups else
    match ParseEventLine(line)
    case Some(e) => AddTo(groups, e)
    case None => groups
  }

  function Grouped(lines: seq<string>): seq<Group> {
    if lines == [] then [] else AfterLine(Grouped(lines[..|lines| - 1]), lines[|lines| - 1])
  }

  /** The length of the text up to and including its last newline, 0 without one. */
  function LastNewline(s: string): (n: nat)
    ensures n <= |s| && (n > 0 ==> s[n - 1] == '\n')
    ensures forall i :: n <= i < |s| ==> s[i] != '\n'
  {
    if s == "" then 0 else if s[|s| - 1] == '\n' then |s| else LastNewline(s[..|s| - 1])
  }

  // ---- posting ---------------------------------------------------------------------------------

  /** Chunks of one map from a position on, logged after `sent`; the flag says that no chunk failed. */
  function PostChunks(sent: seq<Delivery>, env: Env, g: Group, gi: nat, from: nat, batch: nat): (seq<Delivery>, bool)
    requires from <= |g.records| && batch > 0
    decreases |g.records| - from
  {
    if from == |g.records| then (sent, true) else
    var upto := Min(from + batch, |g.records|);
    var d := Delivery(g.course, g.records[from..upto], env.reply(gi, from / batch));
    if d.verdict.Failed? then (sent + [d], false) else PostChunks(sent + [d], env, g, gi, upto, batch)
  }

  function PostGroups(sent: seq<Delivery>, env: Env, groups: seq<Group>, gi: nat, batch: nat): (seq<Delivery>, bool)
    requires gi <= |groups| && batch > 0
    decreases |groups| - gi
  {
    if gi == |groups| then (sent, true) else
    var (after, ok) := PostChunks(sent, env, groups[gi], gi, 0, batch);
    if !ok then (after, false) else PostGroups(after, env, groups, gi + 1, batch)
  }

  // ---- one tick --------------------------------------------------------------------------------

  /** Rotation and truncation checks. */
  function Reopen(c: Cursor, f: LogFile): Cursor {
    if (c.ino.Some? && c.ino.value != f.ino) || |f.content| < c.offset then Cursor(0, Some(f.ino))
    else c.(ino := Some(f.ino))
  }

  function Save(st: State, env: Env): State { if env.saved then st.(disk := st.mem) else st }

  /** The bounded read at the reopened cursor. */
  function Window(c: Cursor, f: LogFile): string {
    if c.offset <= |f.content| then f.content[c.offset..Min(|f.content|, c.offset + READ_CAP)] else ""
  }

  /** The complete lines of the window. */
  function Lines(c: Cursor, f: LogFile): string {
    var buf := Window(c, f); buf[..LastNewline(buf)]
  }

  /** Where a tick ends: reopened at c, with `consumed` bytes of complete lines posted, or not. */
  function Landed(st: State, c: Cursor, atEnd: bool, consumed: nat, posted: (seq<Delivery>, bool), env: Env): State {
    var started := st.(mem := c);
    if atEnd then Save(started, env)
    else if consumed == 0 then started
    else if posted.1 then Save(State(c.(offset := c.offset + consumed), st.disk, posted.0), env)
    else started.(sent := posted.0)
  }

  function Pump(st: State, f: LogFile, env: Env, batch: nat): State
    requires batch > 0
  {
    if !env.statOk then st else
    var c := Reopen(st.mem, f);
    var text := Lines(c, f);
    Landed(st, c, c.offset == |f.content|, |text|, PostGroups(st.sent, env, Grouped(SplitOn(text, '\n')), 0, batch), env)
  }

  function Restart(st: State): State { st.(mem := st.disk) }

  // ---- the tail as the source runs it ------------------------------------------------------------

  method GroupLines(lines: seq<string>) returns (byMap: seq<Group>)
    ensures byMap == Grouped(lines)
  {
    byMap := [];
    for n := 0 to |lines|
      invariant byMap == Grouped(lines[..n])
    {
      hide ParseEventLine, Trim, AddTo;
      assert lines[..n + 1][..n] == lines[..n];
      var line := lines[n];
      if Trim(line) == "" { continue; }
      var ev := ParseEventLine(line);
      if ev.None? { continue; }
      byMap := AddTo(byMap, ev.value);
    }
    assert lines[..|lines|] == lines;
  }

  class CollectorProcess {
    var mem: Cursor
    var disk: Cursor
    ghost var sent: seq<Delivery>
    const batchSize: nat

    ghost predicate Valid() reads this { batchSize > 0 }

    ghost function View(): State reads this { State(mem, disk, sent) }

    constructor (batchSize: nat)
      requires batchSize > 0
      ensures Valid() && View() == FRESH && this.batchSize == batchSize
    {
      this.batchSize := batchSize;
      mem, disk, sent := Cursor(0, None), Cursor(0, None), [];
    }

    method SaveState(env: Env)
      modifies this`disk
      ensures View() == Save(old(View()), env)
    {
      if env.saved { disk := mem; }
    }

    method PostRecords(env: Env, g: Group, gi: nat) returns (ok: bool)
      requires Valid()
      modifies this`sent
      ensures (sent, ok) == PostChunks(old(sent), env, g, gi, 0, batchSize)
    {
      var i := 0;
      while i < |g.records|
        invariant i <= |g.records|
        invariant PostChunks(old(sent), env, g, gi, 0, batchSize) == PostChunks(sent, env, g, gi, i, batchSize)
      {
        var upto := if i + batchSize < |g.records| then i + batchSize else |g.records|;
        var verdict := env.reply(gi, i / batchSize);
        sent := sent + [Delivery(g.course, g.records[i..upto], verdict)];
        if verdict.Failed? { return false; }
        i := upto;
      }
      return true;
    }

    method PostAll(env: Env, byMap: seq<Group>) returns (ok: bool)
      requires Valid()
      modifies this`sent
      ensures (sent, ok) == PostGroups(old(sent), env, byMap, 0, batchSize)
    {
      for gi := 0 to |byMap|
        invariant PostGroups(old(sent), env, byMap, 0, batchSize) == PostGroups(sent, env, byMap, gi, batchSize)
      {
        hide PostChunks;
        ok := PostRecords(env, byMap[gi], gi);
        if !ok { return; }
      }
      ok := true;
    }

    method PumpRacelog(f: LogFile, env: Env)
      requires Valid()
      modifies this
      ensures View() == Pump(old(View()), f, env, batchSize)
    {
      hide Grouped, SplitOn, LastNewline, PostGroups, Save;
      if !env.statOk { return; }
      if mem.ino.Some? && f.ino != mem.ino.value {
        mem := mem.(offset := 0);
      } else if |f.content| < mem.offset {
        mem := mem.(offset := 0);
      }
      mem := mem.(ino := Some(f.ino));
      if |f.content| == mem.offset {
        SaveState(env);
        return;
      }
      var buf := f.content[mem.offset..Min(|f.content|, mem.offset + READ_CAP)];
      var consumed := LastNewline(buf);
      if consumed == 0 { return; }
      var byMap := GroupLines(SplitOn(buf[..consumed], '\n'));
      var ok := PostAll(env, byMap);
      if !ok { return; }
      mem := mem.(offset := mem.offset + consumed);
      SaveState(env);
    }
  }
}
