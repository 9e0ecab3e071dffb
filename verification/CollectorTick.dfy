/** One tick of the racelog tail, told by the file, the endpoint's answers and the disk alone (collector/collector.js,
    `pumpRacelog`). */
module CollectorTick {
  import opened Extrema
  import opened Wrappers
  import opened Text
  import opened Ingest
  import opened EventLine
  import opened Collector

  /** The records of a course among the events, in order. */
  function RecordsFor(events: seq<Event>, course: string): seq<Rec> {
    if events == [] then [] else
    RecordsFor(events[..|events| - 1], course) + if events[|events| - 1].course == course then [events[|events| - 1].rec] else []
  }

  /** The records delivered for a course, in order. */
  function Delivered(d: seq<Delivery>, course: string): seq<Rec> {
    if d == [] then [] else Delivered(d[..|d| - 1], course) + Part(d[|d| - 1], course)
  }

  function Part(d: Delivery, course: string): seq<Rec> { if d.course == course then d.records else [] }

  lemma {:induction false} DeliveredConcat(a: seq<Delivery>, b: seq<Delivery>, course: string)
    ensures Delivered(a + b, course) == Delivered(a, course) + Delivered(b, course)
    decreases |b|
  {
    hide Part;
    if b == [] {
      assert a + b == a;
    } else {
      var n := |b| - 1;
      DeliveredConcat(a, b[..n], course);
      assert (a + b)[..|a| + n] == a + b[..n] && (a + b)[|a| + n] == b[n];
      assert Delivered(a, course) + (Delivered(b[..n], course) + Part(b[n], course)) ==
        (Delivered(a, course) + Delivered(b[..n], course)) + Part(b[n], course);
    }
  }

  lemma DeliveredOne(d: Delivery, course: string)
    ensures Delivered([d], course) == Part(d, course)
  {
    assert [d][..0] == [];
  }

  // ---- groups -----------------------------------------------------------------------------------

  ghost predicate DistinctCourses(groups: seq<Group>) {
    forall i, j :: 0 <= i < j < |groups| ==> groups[i].course != groups[j].course
  }

  function Held(groups: seq<Group>, course: string): seq<Rec> {
    if groups == [] then [] else (if groups[0].course == course then groups[0].records else []) + Held(groups[1..], course)
  }

  lemma {:induction false} HeldNot(groups: seq<Group>, course: string)
    requires forall i :: 0 <= i < |groups| ==> groups[i].course != course
    ensures Held(groups, course) == []
  {
    if groups != [] { HeldNot(groups[1..], course); }
  }

  lemma {:induction false} AddToCourses(groups: seq<Group>, e: Event)
    requires DistinctCourses(groups)
    ensures DistinctCourses(AddTo(groups, e))
    ensures forall i :: 0 <= i < |AddTo(groups, e)| ==>
      AddTo(groups, e)[i].course == e.course || exists j :: 0 <= j < |groups| && groups[j].course == AddTo(groups, e)[i].course
    ensures forall c :: Held(AddTo(groups, e), c) == Held(groups, c) + if e.course == c then [e.rec] else []
  {
    if groups != [] {
      var g, rest := groups[0], groups[1..];
      if g.course == e.course {
        HeldNot(rest, e.course);
        var more := Group(e.course, g.records + [e.rec]);
        assert ([more] + rest)[1..] == rest;
      } else {
        AddToCourses(rest, e);
        var after := AddTo(rest, e);
        assert ([g] + after)[1..] == after;
        assert forall i :: 0 <= i < |after| ==> after[i].course != g.course;
      }
    } else {
      assert [Group(e.course, [e.rec])][1..] == [];
    }
  }

  /** Grouping keeps each course's records in the order of the log, in one group a course. */
  lemma {:induction false} GroupedKeepsOrder(lines: seq<string>, course: string)
    ensures DistinctCourses(Grouped(lines))
    ensures Held(Grouped(lines), course) == RecordsFor(LinesEvents(lines), course)
    decreases |lines|
  {
    hide ParseEventLine, Trim, AddTo, Held;
    if lines != [] {
      var n := |lines| - 1;
      GroupedKeepsOrder(lines[..n], course);
      var events := LinesEvents(lines[..n]);
      if Trim(lines[n]) != "" && ParseEventLine(lines[n]).Some? {
        var e := ParseEventLine(lines[n]).value;
        AddToCourses(Grouped(lines[..n]), e);
        assert (events + [e])[..|events|] == events;
      } else {
        assert events + [] == events;
      }
    } else {
      HeldNot([], course);
    }
  }

  // ---- deliveries ---------------------------------------------------------------------------------

  /** Chunks of 1 to `batch` records, none after a failed one. */
  ghost predicate Chunked(d: seq<Delivery>, env: Env, batch: nat) {
    && (forall i :: 0 <= i < |d| ==> 1 <= |d[i].records| <= batch && Answered(d[i], env))
    && (forall i :: 0 <= i < |d| - 1 ==> !d[i].verdict.Failed?)
  }

  ghost predicate Answered(d: Delivery, env: Env) { exists i, j :: d.verdict == env.reply(i, j) }

  predicate Broke(d: seq<Delivery>) { d != [] && d[|d| - 1].verdict.Failed? }

  lemma ChunkedConcat(a: seq<Delivery>, b: seq<Delivery>, env: Env, batch: nat)
    requires Chunked(a, env, batch) && Chunked(b, env, batch) && !Broke(a)
    ensures Chunked(a + b, env, batch) && (Broke(a + b) <==> Broke(b))
  {
    hide Answered;
    assert forall i :: 0 <= i < |a| ==> !a[i].verdict.Failed?;
  }

  lemma {:induction false} ChunksAre(sent: seq<Delivery>, env: Env, g: Group, gi: nat, from: nat, batch: nat) returns (d: seq<Delivery>)
    requires from <= |g.records| && batch > 0
    ensures var (after, ok) := PostChunks(sent, env, g, gi, from, batch);
      && after == sent + d && Chunked(d, env, batch) && (ok <==> !Broke(d))
      && (forall c :: c != g.course ==> Delivered(d, c) == [])
      && Delivered(d, g.course) <= g.records[from..]
      && (ok ==> Delivered(d, g.course) == g.records[from..])
    decreases |g.records| - from
  {
    hide Chunked, Answered, Delivered;
    if from == |g.records| {
      d := [];
      assert sent + [] == sent;
      NothingDelivered();
      NoChunks(env, batch);
    } else {
      var upto := Min(from + batch, |g.records|);
      var x := Delivery(g.course, g.records[from..upto], env.reply(gi, from / batch));
      OneChunk(x, env, batch, gi, from / batch);
      forall c ensures Delivered([x], c) == Part(x, c) { DeliveredOne(x, c); }
      assert g.records[from..upto] + g.records[upto..] == g.records[from..];
      if x.verdict.Failed? {
        d := [x];
      } else {
        var rest := ChunksAre(sent + [x], env, g, gi, upto, batch);
        d := [x] + rest;
        assert sent + [x] + rest == sent + d;
        ChunkedConcat([x], rest, env, batch);
        forall c ensures Delivered(d, c) == Part(x, c) + Delivered(rest, c) { DeliveredConcat([x], rest, c); }
      }
    }
  }

  lemma NoChunks(env: Env, batch: nat)
    ensures Chunked([], env, batch)
  {
  }

  lemma OneChunk(x: Delivery, env: Env, batch: nat, i: nat, j: nat)
    requires 1 <= |x.records| <= batch && x.verdict == env.reply(i, j)
    ensures Chunked([x], env, batch)
  {
    assert Answered(x, env);
  }

  lemma {:induction false} GroupsAre(sent: seq<Delivery>, env: Env, groups: seq<Group>, gi: nat, batch: nat) returns (d: seq<Delivery>)
    requires gi <= |groups| && batch > 0 && DistinctCourses(groups)
    ensures var (after, ok) := PostGroups(sent, env, groups, gi, batch);
      && after == sent + d && Chunked(d, env, batch) && (ok <==> !Broke(d))
      && (forall c :: Delivered(d, c) <= Held(groups[gi..], c))
      && (ok ==> forall c :: Delivered(d, c) == Held(groups[gi..], c))
    decreases |groups| - gi
  {
    hide Chunked, PostChunks, Delivered;
    if gi == |groups| {
      d := [];
      NoChunks(env, batch);
      NothingDelivered();
      assert sent + [] == sent;
    } else {
      var g := groups[gi];
      var a := ChunksAre(sent, env, g, gi, 0, batch);
      assert g.records[0..] == g.records && groups[gi..][1..] == groups[gi + 1..] && groups[gi..][0] == g;
      HeldNot(groups[gi + 1..], g.course);
      if Broke(a) {
        d := a;
      } else {
        var b := GroupsAre(sent + a, env, groups, gi + 1, batch);
        d := a + b;
        assert sent + a + b == sent + d;
        ChunkedConcat(a, b, env, batch);
        forall c ensures Delivered(d, c) == Delivered(a, c) + Delivered(b, c) { DeliveredConcat(a, b, c); }
      }
    }
  }

  lemma NothingDelivered()
    ensures forall c :: Delivered([], c) == []
  {
  }

  // ---- the tick -----------------------------------------------------------------------------------

  /** Where a tick reads: at the saved offset of this very file, or at the start of a new or a shrunken one. */
  function StartsAt(c: Cursor, f: LogFile): nat {
    if (c.ino == None || c.ino == Some(f.ino)) && c.offset <= |f.content| then c.offset else 0
  }

  /** The complete lines among the next READ_CAP bytes: text ends at their last newline. */
  ghost predicate WholeLines(text: string, content: string, o: nat) {
    var n := |text|;
    && o + n <= |content| && n <= READ_CAP && text == content[o..o + n] && (n > 0 ==> text[n - 1] == '\n')
    && forall i :: o + n <= i < o + READ_CAP && i < |content| ==> content[i] != '\n'
  }

  /** What a tick does. It delivers the complete lines it reads, in chunks, each course's records in the order of the
      log, up to the first failed POST. Only when none failed does the offset move behind those lines; then, and at the
      end of the file, the state is saved. */
  ghost predicate TickDoes(st: State, after: State, f: LogFile, env: Env, batch: nat, text: string, d: seq<Delivery>) {
    var o := StartsAt(st.mem, f);
    && WholeLines(text, f.content, o)
    && after.sent == st.sent + d && Chunked(d, env, batch)
    && (forall c :: Delivered(d, c) <= RecordsFor(EventsOf(text), c))
    && (Broke(d) ==> after.mem == Cursor(o, Some(f.ino)) && after.disk == st.disk)
    && (!Broke(d) ==>
        && (forall c :: Delivered(d, c) == RecordsFor(EventsOf(text), c))
        && after.mem == Cursor(o + |text|, Some(f.ino))
        && after.disk == if env.saved && (text != "" || o == |f.content|) then after.mem else st.disk)
  }

  lemma TextIs(st: State, f: LogFile)
    ensures var c := Reopen(st.mem, f);
      c == Cursor(StartsAt(st.mem, f), Some(f.ino)) && WholeLines(Lines(c, f), f.content, c.offset)
  {
    var c := Reopen(st.mem, f);
    var w := Window(c, f);
    var n := LastNewline(w);
    assert w[..n] == f.content[c.offset..c.offset + n];
    forall i | c.offset + n <= i < c.offset + READ_CAP && i < |f.content| ensures f.content[i] != '\n' {
      assert w[i - c.offset] == f.content[i];
    }
  }

  lemma NothingFor()
    ensures forall c :: RecordsFor(EventsOf(""), c) == []
  {
    assert SplitOn("", '\n') == [""];
    assert [""][..0] == [];
    assert Trim("") == "";
  }

  lemma TickIs(st: State, f: LogFile, env: Env, batch: nat) returns (text: string, d: seq<Delivery>)
    requires batch > 0
    ensures var after := Pump(st, f, env, batch);
      if env.statOk then TickDoes(st, after, f, env, batch, text, d) else after == st
  {
    hide Reopen, Lines, SplitOn, LinesEvents, PostGroups, Grouped, Chunked, Delivered, RecordsFor, WholeLines, StartsAt;
    TextIs(st, f);
    var c := Reopen(st.mem, f);
    text := Lines(c, f);
    var groups := Grouped(SplitOn(text, '\n'));
    forall x ensures DistinctCourses(groups) && Held(groups, x) == RecordsFor(EventsOf(text), x) {
      GroupedKeepsOrder(SplitOn(text, '\n'), x);
    }
    assert DistinctCourses(groups) by { GroupedKeepsOrder(SplitOn(text, '\n'), ""); }
    if text == "" {
      d := [];
      NoChunks(env, batch);
      NothingDelivered();
      NothingFor();
      assert st.sent + [] == st.sent;
    } else {
      d := GroupsAre(st.sent, env, groups, 0, batch);
      assert groups[0..] == groups;
      TextBeforeEnd(text, f.content, c.offset);
    }
  }

  lemma TextBeforeEnd(text: string, content: string, o: nat)
    requires WholeLines(text, content, o) && text != ""
    ensures o < |content|
  {
  }

  /** What is not saved is delivered again: a tick whose save failed, a restart and another faultless tick deliver the
      same lines twice, once by each tick. */
  lemma UnsavedTickRepeats(st: State, f: LogFile, env: Env, again: Env, batch: nat) returns (text: string, d: seq<Delivery>, e: seq<Delivery>)
    requires batch > 0 && st.mem == st.disk && env.statOk && !env.saved && again.statOk
    ensures var after := Pump(Restart(Pump(st, f, env, batch)), f, again, batch);
      && WholeLines(text, f.content, StartsAt(st.disk, f))
      && after.sent == st.sent + d + e
      && (!Broke(d) ==> forall c :: Delivered(d, c) == RecordsFor(EventsOf(text), c))
      && (!Broke(e) ==> forall c :: Delivered(e, c) == RecordsFor(EventsOf(text), c))
  {
    hide Pump, WholeLines, StartsAt, Delivered, RecordsFor, EventsOf, Chunked;
    var other: string;
    text, d := TickIs(st, f, env, batch);
    var mid := Restart(Pump(st, f, env, batch));
    assert mid.mem == st.disk;
    other, e := TickIs(mid, f, again, batch);
    OneText(text, other, f.content, StartsAt(st.disk, f));
  }

  lemma OneText(a: string, b: string, content: string, o: nat)
    requires WholeLines(a, content, o) && WholeLines(b, content, o)
    ensures a == b
  {
    if a != "" { assert content[o + |a| - 1] == '\n'; }
    if b != "" { assert content[o + |b| - 1] == '\n'; }
  }
}
