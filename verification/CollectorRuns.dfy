/** Every schedule of racelog ticks, failures, restarts, growth and rotation (collector/collector.js,
    `pumpRacelog`). */
module CollectorRuns {
  import opened Extrema
  import opened Wrappers
  import opened Text
  import opened Ingest
  import opened EventLine
  import opened Collector

  /** A position at the start of a line. */
  ghost predicate Boundary(content: string, offset: nat) {
    offset <= |content| && (offset == 0 || content[offset - 1] == '\n')
  }

  /** How often a delivery settles the event: accepted, or dropped with a 4xx. */
  function SettledBy(d: Delivery, e: Event): nat {
    if d.course == e.course && !d.verdict.Failed? then multiset(d.records)[e.rec] else 0
  }

  /** How often the event was settled. */
  function Times(sent: seq<Delivery>, e: Event): nat {
    if sent == [] then 0 else Times(sent[..|sent| - 1], e) + SettledBy(sent[|sent| - 1], e)
  }

  /** Each event was settled at least as often as it is listed. */
  ghost predicate AllHandled(sent: seq<Delivery>, events: seq<Event>) {
    forall e :: multiset(events)[e] <= Times(sent, e)
  }

  /** A cursor into this very file is at a line start and every line before it has been settled by the deliveries
      since the file began. */
  ghost predicate CursorOk(c: Cursor, f: LogFile, sent: seq<Delivery>) {
    && (c.ino.None? ==> c.offset == 0)
    && (c.ino.Some? ==> c.ino.value <= f.ino)
    && (c.ino == Some(f.ino) ==> Boundary(f.content, c.offset) && AllHandled(sent, EventsOf(f.content[..c.offset])))
  }

  /** `began` is the number of deliveries made before the file began. */
  ghost predicate Valid(st: State, f: LogFile, began: nat) {
    began <= |st.sent| && CursorOk(st.mem, f, st.sent[began..]) && CursorOk(st.disk, f, st.sent[began..])
  }

  // ---- texts and their events ------------------------------------------------------------------

  lemma {:induction false} LinesEventsConcat(x: seq<string>, y: seq<string>)
    ensures LinesEvents(x + y) == LinesEvents(x) + LinesEvents(y)
    decreases |y|
  {
    hide LineEvents;
    if y == [] {
      assert x + y == x;
    } else {
      var n := |y| - 1;
      LinesEventsConcat(x, y[..n]);
      assert (x + y)[..|x + y| - 1] == x + y[..n];
    }
  }

  lemma EventsOfNothing()
    ensures EventsOf("") == [] && LineEvents("") == []
  {
    assert LinesEvents([""]) == LinesEvents([]) + LineEvents("");
  }

  /** Cutting a text at a line start cuts its events there. */
  lemma EventsConcat(a: string, b: string)
    requires a == "" || a[|a| - 1] == '\n'
    ensures EventsOf(a + b) == EventsOf(a) + EventsOf(b)
  {
    EventsOfNothing();
    hide LineEvents, LinesEvents, SplitOn;
    if a == "" {
      assert a + b == b;
    } else {
      var a' := a[..|a| - 1];
      assert a == a' + "\n" + "" && a + b == a' + "\n" + b;
      SplitConcat(a', b, '\n');
      SplitConcat(a', "", '\n');
      LinesEventsConcat(SplitOn(a', '\n'), SplitOn(b, '\n'));
      LinesEventsConcat(SplitOn(a', '\n'), SplitOn("", '\n'));
    }
  }

  function GroupTimes(g: Group, e: Event): nat { if g.course == e.course then multiset(g.records)[e.rec] else 0 }

  /** How often the groups from gi on hold the event. */
  function TimesFrom(groups: seq<Group>, gi: nat, e: Event): nat
    requires gi <= |groups|
    decreases |groups| - gi
  {
    if gi == |groups| then 0 else GroupTimes(groups[gi], e) + TimesFrom(groups, gi + 1, e)
  }

  lemma {:induction false} TimesFromTail(g: Group, rest: seq<Group>, gi: nat, e: Event)
    requires gi <= |rest|
    ensures TimesFrom([g] + rest, gi + 1, e) == TimesFrom(rest, gi, e)
    decreases |rest| - gi
  {
    if gi < |rest| { TimesFromTail(g, rest, gi + 1, e); }
  }

  lemma TimesFromCons(g: Group, rest: seq<Group>, e: Event)
    ensures TimesFrom([g] + rest, 0, e) == GroupTimes(g, e) + TimesFrom(rest, 0, e)
  {
    TimesFromTail(g, rest, 0, e);
  }

  lemma {:induction false} AddToAdds(groups: seq<Group>, e: Event, x: Event)
    ensures TimesFrom(AddTo(groups, e), 0, x) == TimesFrom(groups, 0, x) + if x == e then 1 else 0
  {
    hide TimesFrom, GroupTimes;
    if groups == [] {
      NoTimes(x);
      TimesFromCons(Group(e.course, [e.rec]), [], x);
      assert [Group(e.course, [e.rec])] + [] == [Group(e.course, [e.rec])];
      OneMore(Group(e.course, []), e, x);
    } else {
      var g, rest := groups[0], groups[1..];
      assert groups == [g] + rest;
      TimesFromCons(g, rest, x);
      if g.course == e.course {
        OneMore(g, e, x);
        TimesFromCons(Group(e.course, g.records + [e.rec]), rest, x);
      } else {
        AddToAdds(rest, e, x);
        TimesFromCons(g, AddTo(rest, e), x);
      }
    }
  }

  lemma NoTimes(x: Event)
    ensures TimesFrom([], 0, x) == 0
  {
  }

  lemma OneMore(g: Group, e: Event, x: Event)
    requires g.course == e.course
    ensures GroupTimes(Group(e.course, g.records + [e.rec]), x) == GroupTimes(g, x) + if x == e then 1 else 0
    ensures GroupTimes(Group(e.course, [e.rec]), x) == if x == e then 1 else 0
  {
    assert [] + [e.rec] == [e.rec];
  }

  /** Grouping by map keeps exactly the parsed events, each as often as it was read. */
  lemma {:induction false} GroupedHolds(lines: seq<string>, x: Event)
    ensures TimesFrom(Grouped(lines), 0, x) == multiset(LinesEvents(lines))[x]
    decreases |lines|
  {
    hide TimesFrom, ParseEventLine, Trim;
    if lines == [] {
      NoTimes(x);
    } else {
      var n := |lines| - 1;
      GroupedHolds(lines[..n], x);
      if Trim(lines[n]) != "" && ParseEventLine(lines[n]).Some? {
        var e := ParseEventLine(lines[n]).value;
        AddToAdds(Grouped(lines[..n]), e, x);
        assert multiset(LinesEvents(lines[..n]) + [e])[x] == multiset(LinesEvents(lines[..n]))[x] + if x == e then 1 else 0;
      }
    }
  }

  // ---- posting ---------------------------------------------------------------------------------

  ghost predicate NoFailures(env: Env) { forall i, j :: !env.reply(i, j).Failed? }

  lemma {:induction false} TimesConcat(a: seq<Delivery>, b: seq<Delivery>, e: Event)
    ensures Times(a + b, e) == Times(a, e) + Times(b, e)
    decreases |b|
  {
    hide SettledBy;
    if b == [] {
      assert a + b == a;
    } else {
      TimesConcat(a, b[..|b| - 1], e);
      assert (a + b)[..|a + b| - 1] == a + b[..|b| - 1];
    }
  }

  /** after is sent followed by deliveries whose records all come from the groups. */
  ghost predicate PostedFrom(sent: seq<Delivery>, after: seq<Delivery>, groups: seq<Group>) {
    && |sent| <= |after| && after[..|sent|] == sent
    && forall i, r :: |sent| <= i < |after| && r in after[i].records ==> InGroups(groups, Event(after[i].course, r))
  }

  ghost predicate InGroups(groups: seq<Group>, e: Event) {
    exists i :: 0 <= i < |groups| && groups[i].course == e.course && e.rec in groups[i].records
  }

  lemma {:induction false} InGroupsCounted(groups: seq<Group>, gi: nat, i: nat, e: Event)
    requires gi <= i < |groups| && groups[i].course == e.course && e.rec in groups[i].records
    ensures TimesFrom(groups, gi, e) > 0
    decreases i - gi
  {
    if gi < i { InGroupsCounted(groups, gi + 1, i, e); } else { assert e.rec in multiset(groups[i].records); }
  }

  /** A batch of chunks without a failure settles each remaining record of the map exactly once more. */
  lemma {:induction false} PostChunksPosts(sent: seq<Delivery>, env: Env, g: Group, gi: nat, from: nat, batch: nat, e: Event)
    requires from <= |g.records| && batch > 0
    ensures var (after, ok) := PostChunks(sent, env, g, gi, from, batch);
      && PostedFrom(sent, after, [g])
      && (NoFailures(env) ==> ok)
      && (ok ==> Times(after, e) == Times(sent, e) + if g.course == e.course then multiset(g.records[from..])[e.rec] else 0)
    decreases |g.records| - from
  {
    hide Times;
    if from < |g.records| {
      var upto := Min(from + batch, |g.records|);
      var d := Delivery(g.course, g.records[from..upto], env.reply(gi, from / batch));
      var (after, ok) := PostChunks(sent, env, g, gi, from, batch);
      assert [g][0] == g;
      if !d.verdict.Failed? {
        PostChunksPosts(sent + [d], env, g, gi, upto, batch, e);
        hide PostChunks;
        assert after[|sent|] == after[..|sent + [d]|][|sent|] == d;
        assert after[..|sent|] == after[..|sent + [d]|][..|sent|];
        OneDelivery(sent, d, e);
        assert g.records[from..] == g.records[from..upto] + g.records[upto..];
      }
    } else {
      assert g.records[from..] == [];
    }
  }

  lemma OneDelivery(sent: seq<Delivery>, d: Delivery, e: Event)
    ensures Times(sent + [d], e) == Times(sent, e) + SettledBy(d, e)
  {
    assert (sent + [d])[..|sent|] == sent;
  }

  lemma PostedFromWider(sent: seq<Delivery>, mid: seq<Delivery>, after: seq<Delivery>, groups: seq<Group>, gi: nat)
    requires gi < |groups| && PostedFrom(sent, mid, [groups[gi]]) && PostedFrom(mid, after, groups)
    ensures PostedFrom(sent, after, groups)
  {
    assert after[..|sent|] == after[..|mid|][..|sent|];
    forall i, r | |sent| <= i < |after| && r in after[i].records ensures InGroups(groups, Event(after[i].course, r)) {
      if i < |mid| {
        assert after[i] == after[..|mid|][i] == mid[i];
        assert InGroups([groups[gi]], Event(mid[i].course, r));
      }
    }
  }

  lemma {:induction false} PostGroupsPosts(sent: seq<Delivery>, env: Env, groups: seq<Group>, gi: nat, batch: nat, e: Event)
    requires gi <= |groups| && batch > 0
    ensures var (after, ok) := PostGroups(sent, env, groups, gi, batch);
      && PostedFrom(sent, after, groups)
      && (NoFailures(env) ==> ok)
      && (ok ==> Times(after, e) == Times(sent, e) + TimesFrom(groups, gi, e))
    decreases |groups| - gi
  {
    hide Times;
    if gi < |groups| {
      var (mid, ok) := PostChunks(sent, env, groups[gi], gi, 0, batch);
      PostChunksPosts(sent, env, groups[gi], gi, 0, batch, e);
      assert groups[gi].records[0..] == groups[gi].records;
      hide PostChunks;
      if ok {
        PostGroupsPosts(mid, env, groups, gi + 1, batch, e);
        var after := PostGroups(mid, env, groups, gi + 1, batch).0;
        PostedFromWider(sent, mid, after, groups, gi);
      } else {
        PostedFromEmpty(mid, groups);
        PostedFromWider(sent, mid, mid, groups, gi);
      }
    } else {
      PostedFromEmpty(sent, groups);
    }
  }

  lemma PostedFromEmpty(sent: seq<Delivery>, groups: seq<Group>)
    ensures PostedFrom(sent, sent, groups)
  {
  }

  // ---- one tick --------------------------------------------------------------------------------

  lemma ReopenOk(st: State, f: LogFile, began: nat)
    requires Valid(st, f, began)
    ensures Reopen(st.mem, f).ino == Some(f.ino) && CursorOk(Reopen(st.mem, f), f, st.sent[began..])
  {
    hide Times;
    EventsOfNothing();
    assert f.content[..0] == "";
  }

  /** What one tick posts are records of complete, parseable lines of the file and nothing else. */
  lemma TickPostsWholeLines(st: State, f: LogFile, began: nat, env: Env, batch: nat, i: nat, r: Rec)
    requires Valid(st, f, began) && batch > 0
    requires var after := Pump(st, f, env, batch).sent; |st.sent| <= i < |after| && r in after[i].records
    ensures var o := Reopen(st.mem, f).offset; var text := Lines(Reopen(st.mem, f), f);
      && Boundary(f.content, o) && Boundary(f.content, o + |text|) && text == f.content[o..o + |text|]
      && Event(Pump(st, f, env, batch).sent[i].course, r) in EventsOf(text)
  {
    ReopenOk(st, f, began);
    var text := Lines(Reopen(st.mem, f), f);
    var groups := Grouped(SplitOn(text, '\n'));
    var after := Pump(st, f, env, batch).sent;
    var e := Event(after[i].course, r);
    LinesInFile(st, f, began);
    PostGroupsPosts(st.sent, env, groups, 0, batch, e);
    hide PostGroups, Grouped, EventsOf, CursorOk, LastNewline, SplitOn, TimesFrom;
    var k :| 0 <= k < |groups| && groups[k].course == e.course && e.rec in groups[k].records;
    InGroupsCounted(groups, 0, k, e);
    GroupedHolds(SplitOn(text, '\n'), e);
    EventsAre(text);
    assert e in multiset(EventsOf(text));
  }

  lemma EventsAre(text: string)
    ensures EventsOf(text) == LinesEvents(SplitOn(text, '\n'))
  {
  }

  lemma {:induction false} TimesGrows(sent: seq<Delivery>, after: seq<Delivery>, began: nat, e: Event)
    requires began <= |sent| <= |after| && after[..|sent|] == sent
    ensures Times(sent[began..], e) <= Times(after[began..], e)
  {
    hide Times;
    TimesConcat(sent[began..], after[|sent|..], e);
    assert after[began..] == after[..|sent|][began..] + after[|sent|..];
  }

  lemma CursorOkGrows(c: Cursor, f: LogFile, sent: seq<Delivery>, after: seq<Delivery>, began: nat)
    requires began <= |sent| <= |after| && after[..|sent|] == sent && CursorOk(c, f, sent[began..])
    ensures CursorOk(c, f, after[began..])
  {
    hide EventsOf, Times;
    if c.ino == Some(f.ino) {
      forall e ensures multiset(EventsOf(f.content[..c.offset]))[e] <= Times(after[began..], e) {
        TimesGrows(sent, after, began, e);
      }
    }
  }

  /** A tick without a failed POST settles every complete line of its window exactly once more. */
  lemma TickHandles(st: State, f: LogFile, env: Env, batch: nat, e: Event)
    requires batch > 0
    ensures var (after, ok) := PostGroups(st.sent, env, Grouped(SplitOn(Lines(Reopen(st.mem, f), f), '\n')), 0, batch);
      && |st.sent| <= |after| && after[..|st.sent|] == st.sent
      && (NoFailures(env) ==> ok)
      && (ok ==> Times(after, e) == Times(st.sent, e) + multiset(EventsOf(Lines(Reopen(st.mem, f), f)))[e])
  {
    hide PostGroups, Grouped, Lines, Times, EventsOf, SplitOn, TimesFrom;
    var text := Lines(Reopen(st.mem, f), f);
    PostGroupsPosts(st.sent, env, Grouped(SplitOn(text, '\n')), 0, batch, e);
    EventsAre(text);
    GroupedHolds(SplitOn(text, '\n'), e);
  }

  /** The window starts at the cursor, and its last newline is a line start of the file. */
  lemma LinesInFile(st: State, f: LogFile, began: nat)
    requires Valid(st, f, began)
    ensures var o := Reopen(st.mem, f).offset; var n := |Lines(Reopen(st.mem, f), f)|;
      o + n <= |f.content| && Lines(Reopen(st.mem, f), f) == f.content[o..o + n] && Boundary(f.content, o + n)
  {
    hide EventsOf, Valid, AllHandled, LastNewline, Reopen;
    ReopenOk(st, f, began);
    var w, n := Window(Reopen(st.mem, f), f), |Lines(Reopen(st.mem, f), f)|;
    assert Lines(Reopen(st.mem, f), f) == w[..n];
    if n > 0 { assert w[n - 1] == f.content[Reopen(st.mem, f).offset + n - 1]; }
  }

  lemma TickAdvances(f: LogFile, o: nat, n: nat, sent: seq<Delivery>, after: seq<Delivery>, began: nat)
    requires Boundary(f.content, o) && began <= |sent| && AllHandled(sent[began..], EventsOf(f.content[..o]))
    requires o + n <= |f.content| && Boundary(f.content, o + n)
    requires |sent| <= |after| && after[..|sent|] == sent
    requires forall e :: Times(after, e) == Times(sent, e) + multiset(EventsOf(f.content[o..o + n]))[e]
    ensures AllHandled(after[began..], EventsOf(f.content[..o + n]))
  {
    hide EventsOf, Times;
    var a, b := EventsOf(f.content[..o]), EventsOf(f.content[o..o + n]);
    EventsConcat(f.content[..o], f.content[o..o + n]);
    assert f.content[..o] + f.content[o..o + n] == f.content[..o + n];
    forall e ensures multiset(a + b)[e] <= Times(after[began..], e) {
      TimesConcat(sent[..began], sent[began..], e);
      TimesConcat(after[..began], after[began..], e);
      assert after[..began] == after[..|sent|][..began] == sent[..began];
      assert sent[..began] + sent[began..] == sent && after[..began] + after[began..] == after;
      assert multiset(a + b)[e] == multiset(a)[e] + multiset(b)[e];
    }
  }

  lemma AdvancedCursorOk(c: Cursor, f: LogFile, sent: seq<Delivery>, after: seq<Delivery>, n: nat, began: nat)
    requires c.ino == Some(f.ino) && began <= |sent| && CursorOk(c, f, sent[began..])
    requires c.offset + n <= |f.content| && Boundary(f.content, c.offset + n)
    requires |sent| <= |after| && after[..|sent|] == sent
    requires forall e :: Times(after, e) == Times(sent, e) + multiset(EventsOf(f.content[c.offset..c.offset + n]))[e]
    ensures CursorOk(c.(offset := c.offset + n), f, after[began..])
  {
    hide EventsOf, AllHandled, Times;
    TickAdvances(f, c.offset, n, sent, after, began);
  }

  lemma LandedOk(st: State, f: LogFile, c: Cursor, atEnd: bool, n: nat, posted: (seq<Delivery>, bool), env: Env, began: nat)
    requires Valid(st, f, began) && began <= |posted.0|
    requires CursorOk(c, f, st.sent[began..]) && CursorOk(c, f, posted.0[began..]) && CursorOk(st.disk, f, posted.0[began..])
    requires posted.1 ==> CursorOk(c.(offset := c.offset + n), f, posted.0[began..])
    ensures Valid(Landed(st, c, atEnd, n, posted, env), f, began)
  {
    hide CursorOk;
  }

  /** A tick keeps the promise, whatever fails during it. */
  lemma TickKeepsValid(st: State, f: LogFile, began: nat, env: Env, batch: nat)
    requires Valid(st, f, began) && batch > 0
    ensures Valid(Pump(st, f, env, batch), f, began)
  {
    hide CursorOk, AllHandled, Boundary, PostGroups, Grouped, Reopen, Lines, SplitOn, Landed, EventsOf, Times;
    ReopenOk(st, f, began);
    LinesInFile(st, f, began);
    var c := Reopen(st.mem, f);
    var text := Lines(c, f);
    var posted := PostGroups(st.sent, env, Grouped(SplitOn(text, '\n')), 0, batch);
    TickHandlesAll(st, f, env, batch);
    CursorOkGrows(c, f, st.sent, posted.0, began);
    CursorOkGrows(st.disk, f, st.sent, posted.0, began);
    if posted.1 { AdvancedCursorOk(c, f, st.sent, posted.0, |text|, began); }
    LandedOk(st, f, c, c.offset == |f.content|, |text|, posted, env, began);
  }

  lemma TickHandlesAll(st: State, f: LogFile, env: Env, batch: nat)
    requires batch > 0
    ensures var (after, ok) := PostGroups(st.sent, env, Grouped(SplitOn(Lines(Reopen(st.mem, f), f), '\n')), 0, batch);
      && |st.sent| <= |after| && after[..|st.sent|] == st.sent
      && (NoFailures(env) ==> ok)
      && (ok ==> forall e :: Times(after, e) == Times(st.sent, e) + multiset(EventsOf(Lines(Reopen(st.mem, f), f)))[e])
  {
    hide PostGroups, Grouped, Lines, Reopen, SplitOn, EventsOf, Times;
    var any: Event :| true;
    TickHandles(st, f, env, batch, any);
    var (after, ok) := PostGroups(st.sent, env, Grouped(SplitOn(Lines(Reopen(st.mem, f), f), '\n')), 0, batch);
    if ok {
      forall e ensures Times(after, e) == Times(st.sent, e) + multiset(EventsOf(Lines(Reopen(st.mem, f), f)))[e] {
        TickHandles(st, f, env, batch, e);
      }
    }
  }

  /** With no failures, a tick moves the offset past exactly the last newline of its window, so it
      advances if and only if the window holds one. */
  lemma TickAdvancesIff(st: State, f: LogFile, began: nat, env: Env, batch: nat)
    requires Valid(st, f, began) && batch > 0 && env.statOk && NoFailures(env)
    ensures var o := Reopen(st.mem, f).offset; var w := Window(Reopen(st.mem, f), f);
      && Pump(st, f, env, batch).mem == Cursor(o + LastNewline(w), Some(f.ino))
      && (Pump(st, f, env, batch).mem.offset > o <==> exists i :: 0 <= i < |w| && w[i] == '\n')
  {
    ReopenOk(st, f, began);
    TickHandlesAll(st, f, env, batch);
    var w := Window(Reopen(st.mem, f), f);
    hide PostGroups, Grouped, EventsOf, Times;
    if LastNewline(w) > 0 { assert w[LastNewline(w) - 1] == '\n'; }
  }

  // ---- runs ------------------------------------------------------------------------------------

  datatype Happening = Tick(env: Env) | Append(text: string) | Replace(content: string) | Crash

  datatype World = World(st: State, file: LogFile, began: nat)

  /** A fresh tail before a first log file. */
  function FirstWorld(content: string): World { World(FRESH, LogFile(0, content), 0) }

  function Step(w: World, h: Happening, batch: nat): World
    requires batch > 0
  {
    match h
    case Tick(env) => w.(st := Pump(w.st, w.file, env, batch))
    case Append(text) => w.(file := w.file.(content := w.file.content + text))
    case Replace(content) => World(w.st, LogFile(w.file.ino + 1, content), |w.st.sent|)
    case Crash => w.(st := Restart(w.st))
  }

  function Run(w: World, hs: seq<Happening>, batch: nat): World
    requires batch > 0
  {
    if hs == [] then w else Step(Run(w, hs[..|hs| - 1], batch), hs[|hs| - 1], batch)
  }

  ghost predicate Sound(w: World) { Valid(w.st, w.file, w.began) }

  lemma FirstWorldIsSound(content: string)
    ensures Sound(FirstWorld(content))
  {
  }

  lemma AppendKeepsCursor(c: Cursor, f: LogFile, sent: seq<Delivery>, text: string)
    requires CursorOk(c, f, sent)
    ensures CursorOk(c, f.(content := f.content + text), sent)
  {
    hide EventsOf, Times;
    if c.ino == Some(f.ino) { assert (f.content + text)[..c.offset] == f.content[..c.offset]; }
  }

  lemma StepKeepsSound(w: World, h: Happening, batch: nat)
    requires batch > 0 && Sound(w)
    ensures Sound(Step(w, h, batch))
  {
    hide Pump, CursorOk;
    match h {
      case Tick(env) => TickKeepsValid(w.st, w.file, w.began, env, batch);
      case Append(text) =>
        AppendKeepsCursor(w.st.mem, w.file, w.st.sent[w.began..], text);
        AppendKeepsCursor(w.st.disk, w.file, w.st.sent[w.began..], text);
      case Replace(content) =>
        ReplaceKeepsCursor(w.st.mem, w.file, w.st.sent[w.began..], content, w.st.sent[|w.st.sent|..]);
        ReplaceKeepsCursor(w.st.disk, w.file, w.st.sent[w.began..], content, w.st.sent[|w.st.sent|..]);
      case Crash =>
    }
  }

  /** Over every schedule: the offset in memory and the one on disk are 0 or just past a newline of the file they
      belong to, and among the deliveries since that file began each parseable line before them was accepted or
      dropped with a 4xx, equal lines as often as they were written. */
  lemma {:induction false} NothingIsLost(w: World, hs: seq<Happening>, batch: nat)
    requires batch > 0 && Sound(w)
    ensures Sound(Run(w, hs, batch))
    decreases |hs|
  {
    hide Step, Sound;
    if hs != [] {
      NothingIsLost(w, hs[..|hs| - 1], batch);
      StepKeepsSound(Run(w, hs[..|hs| - 1], batch), hs[|hs| - 1], batch);
    }
  }

  lemma ReplaceKeepsCursor(c: Cursor, f: LogFile, sent: seq<Delivery>, content: string, none: seq<Delivery>)
    requires CursorOk(c, f, sent)
    ensures CursorOk(c, LogFile(f.ino + 1, content), none)
  {
    hide EventsOf, Times;
  }

  // ---- lines that are too long, and lines that are not -------------------------------------------

  /** From o on, the file has a whole window without a newline. */
  ghost predicate LongLineAt(content: string, o: nat) {
    o + READ_CAP <= |content| && forall i :: o <= i < o + READ_CAP ==> content[i] != '\n'
  }

  /** Neither cursor is past o in this file. */
  predicate NotPast(st: State, f: LogFile, o: nat) {
    (st.mem.ino == Some(f.ino) ==> st.mem.offset <= o) && (st.disk.ino == Some(f.ino) ==> st.disk.offset <= o)
  }

  lemma LongLineStopsTick(st: State, f: LogFile, began: nat, env: Env, batch: nat, o: nat)
    requires Valid(st, f, began) && batch > 0 && LongLineAt(f.content, o) && NotPast(st, f, o)
    ensures NotPast(Pump(st, f, env, batch), f, o)
  {
    hide PostGroups, Grouped, EventsOf, SplitOn, AllHandled;
    ReopenOk(st, f, began);
    var c := Reopen(st.mem, f);
    var w, n := Window(c, f), |Lines(c, f)|;
    assert n == LastNewline(w);
    if n > 0 { assert w[n - 1] == f.content[c.offset + n - 1] == '\n'; }
  }

  /** A line longer than the window stops the tail for good: over every schedule without a replacement of the file
      no cursor ever gets past its start. */
  lemma {:induction false} LongLineStopsTail(w: World, hs: seq<Happening>, batch: nat, o: nat)
    requires batch > 0 && Sound(w) && LongLineAt(w.file.content, o) && NotPast(w.st, w.file, o)
    requires forall i :: 0 <= i < |hs| ==> !hs[i].Replace?
    ensures var v := Run(w, hs, batch);
      v.file.ino == w.file.ino && LongLineAt(v.file.content, o) && NotPast(v.st, v.file, o)
    decreases |hs|
  {
    hide Pump, Valid;
    if hs != [] {
      var n := |hs| - 1;
      forall i | 0 <= i < n ensures !hs[..n][i].Replace? { assert hs[..n][i] == hs[i]; }
      LongLineStopsTail(w, hs[..n], batch, o);
      NothingIsLost(w, hs[..n], batch);
      var v := Run(w, hs[..n], batch);
      if hs[n].Tick? { LongLineStopsTick(v.st, v.file, v.began, hs[n].env, batch, o); }
    }
  }

  /** Every line of the file that is complete is shorter than the window. */
  ghost predicate ShortLines(content: string) {
    forall p: nat :: Boundary(content, p) && p < LastNewline(content) ==> NewlineWithin(content, p)
  }

  ghost predicate NewlineWithin(content: string, p: int) {
    exists i :: 0 <= p <= i < p + READ_CAP && i < |content| && content[i] == '\n'
  }

  lemma TickMovesOn(st: State, f: LogFile, began: nat, env: Env, batch: nat)
    requires Valid(st, f, began) && batch > 0 && env.statOk && NoFailures(env) && ShortLines(f.content)
    ensures var o, after := Reopen(st.mem, f).offset, Pump(st, f, env, batch);
      && after.mem.ino == Some(f.ino) && after.mem.offset <= LastNewline(f.content)
      && (o < LastNewline(f.content) ==> o < after.mem.offset)
      && (o >= LastNewline(f.content) ==> after.mem.offset == LastNewline(f.content))
  {
    hide Pump, LastNewline, EventsOf, AllHandled, ShortLines, Valid, Boundary;
    TickAdvancesIff(st, f, began, env, batch);
    ReopenOk(st, f, began);
    WindowMoves(f.content, Reopen(st.mem, f).offset);
  }

  lemma WindowMoves(content: string, o: nat)
    requires Boundary(content, o) && ShortLines(content)
    ensures var w := content[o..Min(|content|, o + READ_CAP)];
      && o + LastNewline(w) <= LastNewline(content)
      && (o < LastNewline(content) ==> LastNewline(w) > 0)
      && (o >= LastNewline(content) ==> o + LastNewline(w) == LastNewline(content))
  {
    hide LastNewline;
    var w := content[o..Min(|content|, o + READ_CAP)];
    var n := LastNewline(w);
    if n > 0 { assert w[n - 1] == content[o + n - 1] == '\n'; }
    if o > 0 { assert content[o - 1] == '\n'; }
    if o < LastNewline(content) {
      assert NewlineWithin(content, o);
      var i :| o <= i < o + READ_CAP && i < |content| && content[i] == '\n';
      assert w[i - o] == '\n';
    }
  }

  function Ticks(st: State, f: LogFile, env: Env, batch: nat, n: nat): State
    requires batch > 0
  {
    if n == 0 then st else Pump(Ticks(st, f, env, batch, n - 1), f, env, batch)
  }

  /** When every line is shorter than the window, good ticks reach the last newline, after at most one tick for each
      byte before it and one more. */
  lemma {:induction false} TicksReachTheEnd(st: State, f: LogFile, began: nat, env: Env, batch: nat, n: nat)
    requires Valid(st, f, began) && batch > 0 && env.statOk && NoFailures(env) && ShortLines(f.content)
    ensures Valid(Ticks(st, f, env, batch, n), f, began)
    ensures n > 0 ==> var c := Ticks(st, f, env, batch, n).mem;
      && c.ino == Some(f.ino) && Min(n - 1, LastNewline(f.content)) <= c.offset <= LastNewline(f.content)
  {
    hide Pump, LastNewline, Valid, ShortLines;
    if n > 0 {
      TicksReachTheEnd(st, f, began, env, batch, n - 1);
      var before := Ticks(st, f, env, batch, n - 1);
      TickKeepsValid(before, f, began, env, batch);
      TickMovesOn(before, f, began, env, batch);
      if n > 1 { ReopenHere(before, f, began); }
    }
  }

  lemma ReopenHere(st: State, f: LogFile, began: nat)
    requires Valid(st, f, began) && st.mem.ino == Some(f.ino)
    ensures Reopen(st.mem, f) == st.mem
  {
    hide EventsOf, AllHandled;
  }
}
