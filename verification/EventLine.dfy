/** The tab-separated event line of the racelog (collector/collector.js, `parseEventLine`). */
module EventLine {
  import opened Wrappers
  import opened Text
  import opened Numbers
  import C = Canonical
  import opened Ingest

  /** One genuine finish read from the log. */
  datatype Event = Event(course: string, rec: Rec)

  /** A checkpoint token: `Math.max(0, parseInt(n, 10) || 0)`. */
  function Split(token: string): nat {
    match ParseInt(token)
    case Some(n) => if n > 0 then n else 0
    case None => 0
  }

  function Splits(tokens: seq<string>): (r: seq<int>)
    ensures |r| == |tokens|
  {
    if tokens == [] then [] else [Split(tokens[0])] + Splits(tokens[1..])
  }

  function ParseEventLine(line: string): Option<Event> {
    var f := SplitOn(line, '\t');
    if |f| < 6 || f[0] != "R1" then None else
    var time := ParseInt(f[2]);
    var name := JoinWith(f[5..], '\t');
    if f[1] == "" || name == "" || time.None? || time.value <= 0 then None
    else Some(Event(f[1], Rec(C.Who(name, f[3]), time.value, None, if f[4] == "" then [] else Splits(SplitOn(f[4], ',')))))
  }

  // ---- writing a line and reading it back ------------------------------------------------------

  function ShowSplits(t: seq<nat>): string
    requires t != []
  {
    if |t| == 1 then ToDec(t[0]) else ToDec(t[0]) + "," + ShowSplits(t[1..])
  }

  /** The line the game server appends for a finish. */
  function FormatEvent(course: string, time: nat, login: string, splits: seq<nat>, name: string): string {
    "R1" + "\t" + (course + "\t" + (ToDec(time) + "\t" + (login + "\t" +
      ((if splits == [] then "" else ShowSplits(splits)) + "\t" + name))))
  }

  function AsInts(t: seq<nat>): seq<int> { t }

  lemma SplitToDec(n: nat)
    ensures Split(ToDec(n)) == n && Free(ToDec(n), ',') && Free(ToDec(n), '\t')
  {
    ParseShown(n);
  }

  lemma {:induction false} SplitsShown(t: seq<nat>)
    requires t != []
    ensures Splits(SplitOn(ShowSplits(t), ',')) == AsInts(t)
    ensures Free(ShowSplits(t), '\t') && ShowSplits(t) != ""
  {
    hide ParseInt, ToDec;
    SplitToDec(t[0]);
    SplitFree(ToDec(t[0]), ',');
    if |t| == 1 {
      assert Splits([ToDec(t[0])]) == [t[0]];
    } else {
      SplitsShown(t[1..]);
      SplitConcat(ToDec(t[0]), ShowSplits(t[1..]), ',');
      var rest := SplitOn(ShowSplits(t[1..]), ',');
      assert SplitOn(ShowSplits(t), ',') == [ToDec(t[0])] + rest;
      assert ([ToDec(t[0])] + rest)[1..] == rest;
    }
  }

  lemma FirstField(field: string, rest: string)
    requires Free(field, '\t')
    ensures SplitOn(field + "\t" + rest, '\t') == [field] + SplitOn(rest, '\t')
  {
    hide SplitOn;
    SplitFree(field, '\t');
    SplitConcat(field, rest, '\t');
  }

  lemma FieldsOfLine(course: string, time: string, login: string, cps: string, name: string)
    requires Free(course, '\t') && Free(time, '\t') && Free(login, '\t') && Free(cps, '\t')
    ensures SplitOn("R1" + "\t" + (course + "\t" + (time + "\t" + (login + "\t" + (cps + "\t" + name)))), '\t')
      == ["R1", course, time, login, cps] + SplitOn(name, '\t')
  {
    hide SplitOn;
    FirstField(cps, name);
    FirstField(login, cps + "\t" + name);
    FirstField(time, login + "\t" + (cps + "\t" + name));
    FirstField(course, time + "\t" + (login + "\t" + (cps + "\t" + name)));
    FirstField("R1", course + "\t" + (time + "\t" + (login + "\t" + (cps + "\t" + name))));
    assert ["R1", course, time, login, cps] + SplitOn(name, '\t') ==
      ["R1"] + ([course] + ([time] + ([login] + ([cps] + SplitOn(name, '\t')))));
  }

  /** Any finish survives the trip through a log line; the name may hold tabs of its own. */
  lemma EventRoundTrip(course: string, time: nat, login: string, splits: seq<nat>, name: string)
    requires course != "" && Free(course, '\t') && Free(login, '\t') && time > 0 && name != ""
    ensures ParseEventLine(FormatEvent(course, time, login, splits, name))
      == Some(Event(course, Rec(C.Who(name, login), time, None, AsInts(splits))))
  {
    hide ToDec, ParseInt, SplitOn, JoinWith, Splits, ShowSplits;
    var cps := if splits == [] then "" else ShowSplits(splits);
    if splits != [] { SplitsShown(splits); }
    SplitToDec(time);
    ParseShown(time);
    assert ShowInt(time) == ToDec(time);
    FieldsOfLine(course, ToDec(time), login, cps, name);
    JoinSplit(name, '\t');
    assert (["R1", course, ToDec(time), login, cps] + SplitOn(name, '\t'))[5..] == SplitOn(name, '\t');
  }

  /** Whatever is parsed is genuine: a line of at least six fields marked as an event, with a map, a positive time, a
      name and no negative split. */
  lemma ParsedIsGenuine(line: string)
    requires ParseEventLine(line).Some?
    ensures var e, f := ParseEventLine(line).value, SplitOn(line, '\t');
      && |f| >= 6 && f[0] == "R1" && e.course == f[1] != "" && e.rec.who.login == f[3] && e.rec.who.name != ""
      && ParseInt(f[2]) == Some(e.rec.time) && e.rec.time > 0 && e.rec.attempts.None?
      && forall i :: 0 <= i < |e.rec.splits| ==> e.rec.splits[i] >= 0
  {
    hide SplitOn, JoinWith, ParseInt, Splits;
    var f := SplitOn(line, '\t');
    SplitsAreNonNegative(SplitOn(f[4], ','));
  }

  lemma {:induction false} SplitsAreNonNegative(tokens: seq<string>)
    ensures forall i :: 0 <= i < |tokens| ==> Splits(tokens)[i] >= 0
  {
    if tokens != [] { SplitsAreNonNegative(tokens[1..]); }
  }
}
