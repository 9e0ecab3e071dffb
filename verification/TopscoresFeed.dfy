/** The topscores text as the collector reads it (collector/collector.js, `parseTopscores`) and as the site
    serves it to game servers (web/db.js, `gameTopscoresText`). */
module TopscoresFeed {
  import opened Extrema
  import opened Wrappers
  import opened Text
  import opened Numbers
  import opened Topscores

  // ---- removing comment lines: replace(/^\s*\/\/.*$/gm, "") -------------------------------------

  /** The first position from i on that is not white space. */
  function SpaceEnd(s: string, i: nat): (j: nat)
    requires i <= |s|
    ensures i <= j <= |s| && (j < |s| ==> !IsSpace(s[j])) && forall k :: i <= k < j ==> IsSpace(s[k])
    decreases |s| - i
  {
    if i < |s| && IsSpace(s[i]) then SpaceEnd(s, i + 1) else i
  }

  /** The first position from i on that is white space. */
  function WordEnd(s: string, i: nat): (j: nat)
    requires i <= |s|
    ensures i <= j <= |s| && (i < |s| && !IsSpace(s[i]) ==> i < j)
    decreases |s| - i
  {
    if i < |s| && !IsSpace(s[i]) then WordEnd(s, i + 1) else i
  }

  function BreakFrom(s: string, i: nat): (j: nat)
    requires i <= |s|
    ensures i <= j <= |s| && (j < |s| ==> IsBreak(s[j])) && forall k :: i <= k < j ==> !IsBreak(s[k])
    decreases |s| - i
  {
    if i == |s| || IsBreak(s[i]) then i else BreakFrom(s, i + 1)
  }

  predicate CommentAt(s: string, i: nat)
    requires i <= |s|
  {
    var j := SpaceEnd(s, i);
    j + 1 < |s| && s[j] == '/' && s[j + 1] == '/'
  }

  /** The text from i on without its comment lines; `start` says that i is the start of a line. */
  function StripFrom(s: string, i: nat, start: bool): string
    requires i <= |s|
    decreases |s| - i
  {
    if i == |s| then ""
    else if start && CommentAt(s, i) then StripFrom(s, BreakFrom(s, SpaceEnd(s, i) + 2), false)
    else [s[i]] + StripFrom(s, i + 1, IsBreak(s[i]))
  }

  // ---- the tokens: matchAll(/"([^"]*)"|(\S+)/g) --------------------------------------------------

  function WordsFrom(s: string, i: nat): seq<string>
    requires i <= |s|
    decreases |s| - i
  {
    if i == |s| then []
    else if s[i] == '"' && IndexFrom(s, '"', i + 1) < |s| then
      [s[i + 1..IndexFrom(s, '"', i + 1)]] + WordsFrom(s, IndexFrom(s, '"', i + 1) + 1)
    else if !IsSpace(s[i]) then [s[i..WordEnd(s, i)]] + WordsFrom(s, WordEnd(s, i))
    else WordsFrom(s, i + 1)
  }

  // ---- the records ----------------------------------------------------------------------------------

  function Clamped(n: int): int { if n > 0 then n else 0 }

  function ReadCheckpoints(tokens: seq<string>): (r: seq<int>)
    ensures |r| == |tokens|
  {
    if tokens == [] then [] else [Clamped(OrZero(ParseInt(tokens[0])))] + ReadCheckpoints(tokens[1..])
  }

  function AfterPipe(token: string): string {
    var p := IndexFrom(token, '|', 0);
    if p == |token| then "" else token[p + 1..]
  }

  function RecordAt(tokens: seq<string>, i: nat, upto: nat): seq<Record>
    requires i + 3 <= upto <= |tokens|
  {
    var time := ParseInt(BeforePipe(tokens[i]));
    if time.Some? && time.value > 0 && tokens[i + 1] != ""
    then [Record(tokens[i + 1], AfterPipe(tokens[i]), time.value, ReadCheckpoints(tokens[i + 3..upto]))] else []
  }

  /** The records of the tokens from i on; a broken sector count stops the reader. */
  function RecordsFrom(tokens: seq<string>, i: nat): seq<Record>
    requires i <= |tokens|
    decreases |tokens| - i
  {
    if i + 2 >= |tokens| then [] else
    var n := ParseInt(tokens[i + 2]);
    if n.None? || n.value < 0 then [] else
    var upto := Min(i + 3 + n.value, |tokens|);
    RecordAt(tokens, i, upto) + RecordsFrom(tokens, upto)
  }

  function ParseTopscores(content: string): seq<Record> {
    RecordsFrom(WordsFrom(StripFrom(content, 0, true), 0), 0)
  }

  /** The loop over the tokens. */
  method ParseTopscoresText(content: string) returns (records: seq<Record>)
    ensures records == ParseTopscores(content)
  {
    hide RecordsFrom, ParseInt, RecordAt;
    var tokens := WordsFrom(StripFrom(content, 0, true), 0);
    records := [];
    var i := 0;
    RecordsStep(tokens, 0);
    while i + 2 < |tokens|
      invariant i <= |tokens| && records + RecordsFrom(tokens, i) == RecordsFrom(tokens, 0)
      decreases |tokens| - i
    {
      RecordsStep(tokens, i);
      var n := ParseInt(tokens[i + 2]);
      if n.None? || n.value < 0 { return; }
      var upto := Min(i + 3 + n.value, |tokens|);
      var found := RecordAt(tokens, i, upto);
      assert (records + found) + RecordsFrom(tokens, upto) == records + (found + RecordsFrom(tokens, upto));
      records := records + found;
      i := upto;
    }
    RecordsStep(tokens, i);
  }

  lemma RecordsStep(tokens: seq<string>, i: nat)
    requires i <= |tokens|
    ensures i + 2 >= |tokens| ==> RecordsFrom(tokens, i) == []
    ensures i + 2 < |tokens| ==>
      var n := ParseInt(tokens[i + 2]);
      RecordsFrom(tokens, i) == if n.None? || n.value < 0 then [] else
                                var upto := Min(i + 3 + n.value, |tokens|);
                                RecordAt(tokens, i, upto) + RecordsFrom(tokens, upto)
  {
  }

  // ---- a printed file has one comment, its header ----------------------------------------------------

  lemma SpaceIs(s: string, i: nat, j: nat)
    requires i <= j <= |s| && (forall k :: i <= k < j ==> IsSpace(s[k])) && (j < |s| ==> !IsSpace(s[j]))
    ensures SpaceEnd(s, i) == j
  {
    var k := SpaceEnd(s, i);
    assert k < |s| ==> !IsSpace(s[k]);
  }

  lemma BreakIs(s: string, i: nat, j: nat)
    requires i <= j <= |s| && (forall k :: i <= k < j ==> !IsBreak(s[k])) && (j < |s| ==> IsBreak(s[j]))
    ensures BreakFrom(s, i) == j
  {
    var k := BreakFrom(s, i);
    assert k < |s| ==> IsBreak(s[k]);
  }

  /** Within a line nothing is removed. */
  lemma {:induction false} LineStays(s: string, i: nat, t: string, rest: string)
    requires i <= |s| && s[i..] == t + rest && OneLine(t)
    ensures i + |t| <= |s| && s[i + |t|..] == rest
    ensures StripFrom(s, i, false) == t + StripFrom(s, i + |t|, false)
    decreases |t|
  {
    if t != "" {
      assert s[i] == s[i..][0] == t[0];
      assert s[i + 1..] == s[i..][1..] == t[1..] + rest;
      LineStays(s, i + 1, t[1..], rest);
      assert [t[0]] + (t[1..] + StripFrom(s, i + |t|, false)) == t + StripFrom(s, i + |t|, false);
    } else {
      assert s[i..] == rest;
    }
  }

  lemma {:induction false} QuotedOneLine(tokens: seq<string>)
    requires forall i :: 0 <= i < |tokens| ==> OneLine(tokens[i])
    ensures OneLine(Quoted(tokens))
  {
    if tokens != [] { QuotedOneLine(tokens[1..]); }
  }

  lemma {:induction false} ShownOneLine(numbers: seq<int>)
    ensures forall i :: 0 <= i < |numbers| ==> OneLine(Shown(numbers)[i])
  {
    hide ShowInt;
    if numbers != [] {
      ShownOneLine(numbers[1..]);
      ShownQuoteFree(numbers[0]);
    }
  }

  lemma RecordLineIsOneLine(e: Entry)
    requires OneLine(e.name)
    ensures OneLine(Quoted(LineTokens(e)))
  {
    hide ShowInt, Quoted;
    ShownQuoteFree(e.time);
    ShownQuoteFree(|e.sectors|);
    ShownOneLine(e.sectors);
    QuotedOneLine(LineTokens(e));
  }

  lemma QuotedStarts(tokens: seq<string>)
    requires tokens != []
    ensures Quoted(tokens) != "" && Quoted(tokens)[0] == '"'
  {
  }

  /** Names fit on one line. */
  predicate NamesOneLine(entries: seq<Entry>) { forall i :: 0 <= i < |entries| ==> OneLine(entries[i].name) }

  lemma NoCommentAt(s: string, i: nat, j: nat)
    requires i <= j <= |s| && (forall k :: i <= k < j ==> IsSpace(s[k])) && (j < |s| ==> s[j] == '"')
    ensures !CommentAt(s, i)
  {
    SpaceIs(s, i, j);
  }

  lemma StripStep(s: string, i: nat, start: bool)
    requires i < |s| && !(start && CommentAt(s, i))
    ensures StripFrom(s, i, start) == [s[i]] + StripFrom(s, i + 1, IsBreak(s[i])) == StripFrom(s, i, false)
  {
  }

  lemma {:induction false} LinesStay(s: string, i: nat, entries: seq<Entry>)
    requires i <= |s| && s[i..] == Lines(entries) && NamesOneLine(entries)
    ensures StripFrom(s, i, true) == Lines(entries)
    decreases |entries|
  {
    hide Quoted, LineTokens, CommentAt, StripFrom;
    if entries != [] {
      var line := Quoted(LineTokens(entries[0]));
      var rest := "\n" + Lines(entries[1..]);
      assert s[i..] == line + rest;
      LineTokensNonEmpty(entries[0]);
      QuotedStarts(LineTokens(entries[0]));
      assert s[i] == s[i..][0] == '"';
      NoCommentAt(s, i, i);
      StripStep(s, i, true);
      RecordLineIsOneLine(entries[0]);
      LineStays(s, i, line, rest);
      var e := i + |line|;
      assert s[e] == s[e..][0] == '\n';
      StripStep(s, e, false);
      assert s[e + 1..] == s[e..][1..] == Lines(entries[1..]);
      LinesStay(s, e + 1, entries[1..]);
      assert line + ([s[e]] + Lines(entries[1..])) == Lines(entries);
    } else {
      StripNothing(s);
    }
  }

  lemma LineTokensNonEmpty(e: Entry)
    ensures LineTokens(e) != []
  {
  }

  lemma StripNothing(s: string)
    ensures StripFrom(s, |s|, true) == ""
  {
  }

  lemma LinesStart(entries: seq<Entry>)
    ensures Lines(entries) != "" ==> Lines(entries)[0] == '"'
  {
    hide LineTokens;
    if entries != [] {
      LineTokensNonEmpty(entries[0]);
      QuotedStarts(LineTokens(entries[0]));
    }
  }

  /** The header line goes, the two breaks after it stay. */
  lemma HeaderIsStripped(course: string, entries: seq<Entry>)
    requires OneLine(course) && NamesOneLine(entries)
    ensures StripFrom(Body(course, entries), 0, true) == "\n\n" + Lines(entries)
  {
    hide StripFrom, CommentAt, BreakFrom, Lines;
    var s := Body(course, entries);
    var e := |course| + 13;
    HeaderShape(course, entries);
    LinesStart(entries);
    assert e + 2 < |s| ==> s[e + 2] == s[e + 2..][0] == '"';
    HeaderGoes(s, e);
    StripStep(s, e, false);
    NoCommentAt(s, e + 1, e + 2);
    StripStep(s, e + 1, true);
    LinesStay(s, e + 2, entries);
    assert ['\n'] + (['\n'] + Lines(entries)) == "\n\n" + Lines(entries);
  }

  lemma HeaderGoes(s: string, e: nat)
    requires 2 <= e < |s| && s[0] == s[1] == '/' && IsBreak(s[e]) && forall k :: 0 <= k < e ==> !IsBreak(s[k])
    ensures StripFrom(s, 0, true) == StripFrom(s, e, false)
  {
    SpaceIs(s, 0, 0);
    BreakIs(s, 2, e);
  }

  // ---- the tokens of a printed file ---------------------------------------------------------------------

  lemma QuoteIsWord(s: string, i: nat, t: string, rest: string)
    requires i <= |s| && s[i..] == Quote(t) + rest && QuoteFree(t)
    ensures var next := i + |t| + 3;
      next <= |s| && s[next..] == rest && WordsFrom(s, i) == [t] + WordsFrom(s, next)
  {
    hide IndexFrom, WordEnd;
    var end := i + 1 + |t|;
    assert forall k :: 0 <= k < |t| ==> s[i..][k + 1] == t[k];
    assert forall k :: i + 1 <= k < end ==> s[k] == s[i..][k - i];
    assert s[i] == s[i..][0] == '"' && s[end] == s[i..][|t| + 1] == '"' && s[end + 1] == s[i..][|t| + 2] == ' ';
    IndexIs(s, '"', i + 1, end);
    assert s[i + 1..end] == t;
    assert s[end + 2..] == s[i..][|t| + 3..] == rest;
    assert WordsFrom(s, end + 1) == WordsFrom(s, end + 2);
  }

  lemma {:induction false} QuotedAreWords(s: string, i: nat, tokens: seq<string>, rest: string) returns (next: nat)
    requires i <= |s| && s[i..] == Quoted(tokens) + rest && AllQuoteFree(tokens)
    ensures i <= next <= |s| && s[next..] == rest && WordsFrom(s, i) == tokens + WordsFrom(s, next)
    decreases |tokens|
  {
    hide WordsFrom, Quote;
    next := i;
    if tokens != [] {
      assert s[i..] == Quote(tokens[0]) + (Quoted(tokens[1..]) + rest);
      QuoteIsWord(s, i, tokens[0], Quoted(tokens[1..]) + rest);
      next := QuotedAreWords(s, i + |tokens[0]| + 3, tokens[1..], rest);
      assert [tokens[0]] + (tokens[1..] + WordsFrom(s, next)) == tokens + WordsFrom(s, next);
    } else {
      assert s[i..] == rest;
    }
  }

  lemma WordsStep(s: string, i: nat)
    requires i <= |s|
    ensures i == |s| ==> WordsFrom(s, i) == []
    ensures i < |s| && s[i] == '\n' ==> WordsFrom(s, i) == WordsFrom(s, i + 1)
  {
  }

  lemma {:induction false} LinesAreWords(s: string, i: nat, entries: seq<Entry>)
    requires i <= |s| && s[i..] == Lines(entries) && NamesQuoteFree(entries)
    ensures WordsFrom(s, i) == AllTokens(entries)
    decreases |entries|
  {
    hide Quoted, LineTokens, WordsFrom;
    if entries != [] {
      var rest := "\n" + Lines(entries[1..]);
      assert s[i..] == Quoted(LineTokens(entries[0])) + rest;
      LineTokensQuoteFree(entries[0]);
      var next := QuotedAreWords(s, i, LineTokens(entries[0]), rest);
      assert s[next] == s[next..][0] == '\n';
      assert s[next + 1..] == s[next..][1..] == Lines(entries[1..]);
      WordsStep(s, next);
      LinesAreWords(s, next + 1, entries[1..]);
    } else {
      WordsStep(s, i);
    }
  }

  // ---- writing and reading back ---------------------------------------------------------------------------

  function ClampedAll(numbers: seq<int>): (r: seq<int>)
    ensures |r| == |numbers|
    ensures r == numbers <==> forall i :: 0 <= i < |numbers| ==> numbers[i] >= 0
  {
    if numbers == [] then [] else [Clamped(numbers[0])] + ClampedAll(numbers[1..])
  }

  /** What the collector posts for a printed list. */
  function Posted(entries: seq<Entry>): seq<Record> {
    if entries == [] then [] else
    var e := entries[0];
    (if e.time > 0 && e.name != "" then [Record(e.name, "", e.time, ClampedAll(e.sectors))] else []) + Posted(entries[1..])
  }

  lemma {:induction false} CheckpointsReadBack(numbers: seq<int>)
    ensures ReadCheckpoints(Shown(numbers)) == ClampedAll(numbers)
  {
    hide ShowInt, ParseInt;
    if numbers != [] {
      CheckpointsReadBack(numbers[1..]);
      ParseShown(numbers[0]);
    }
  }

  lemma RecordReadsBack(tokens: seq<string>, i: nat, e: Entry, rest: seq<string>)
    requires i <= |tokens| && tokens[i..] == LineTokens(e) + rest
    ensures var next := i + 3 + |e.sectors|;
      && next <= |tokens| && tokens[next..] == rest
      && RecordsFrom(tokens, i)
         == (if e.time > 0 && e.name != "" then [Record(e.name, "", e.time, ClampedAll(e.sectors))] else [])
            + RecordsFrom(tokens, next)
  {
    hide ShowInt, ParseInt, RecordsFrom, IndexFrom;
    var n := |e.sectors|;
    var t := LineTokens(e);
    assert forall k :: 0 <= k < |t| ==> tokens[i + k] == tokens[i..][k] == t[k];
    assert tokens[i + 3 + n..] == tokens[i..][3 + n..] == rest;
    assert tokens[i + 3..i + 3 + n] == Shown(e.sectors);
    CheckpointsReadBack(e.sectors);
    ParseShown(e.time);
    ParseShown(n);
    ShownQuoteFree(e.time);
    var time := ShowInt(e.time);
    assert time[..|time|] == time;
    RecordsStep(tokens, i);
  }

  lemma {:induction false} RecordsReadBack(tokens: seq<string>, i: nat, entries: seq<Entry>)
    requires i <= |tokens| && tokens[i..] == AllTokens(entries)
    ensures RecordsFrom(tokens, i) == Posted(entries)
    decreases |entries|
  {
    hide LineTokens, RecordsFrom, ClampedAll;
    if entries != [] {
      var rest := AllTokens(entries[1..]);
      assert tokens[i..] == LineTokens(entries[0]) + rest;
      hide AllTokens;
      RecordReadsBack(tokens, i, entries[0], rest);
      RecordsReadBack(tokens, i + 3 + |entries[0].sectors|, entries[1..]);
    } else {
      RecordsStep(tokens, i);
    }
  }

  /** Reading a printed file with the collector's reader: every record with a time and a name, whatever its
      number of sectors, negative sectors as zero. */
  lemma CollectorReadsBack(course: string, entries: seq<Entry>)
    requires OneLine(course) && NamesQuoteFree(entries) && NamesOneLine(entries)
    ensures ParseTopscores(Body(course, entries)) == Posted(entries)
  {
    hide Body, WordsFrom, RecordsFrom, StripFrom, Lines;
    HeaderIsStripped(course, entries);
    var s := "\n\n" + Lines(entries);
    assert s[2..] == Lines(entries);
    WordsStep(s, 0);
    WordsStep(s, 1);
    LinesAreWords(s, 2, entries);
    var tokens := WordsFrom(s, 0);
    assert tokens[0..] == AllTokens(entries);
    RecordsReadBack(tokens, 0, entries);
  }

  /** A record as the seeder read it, for comparison. */
  function AsRecords(entries: seq<Entry>): (r: seq<Record>)
    ensures |r| == |entries|
  {
    if entries == [] then []
    else [Record(entries[0].name, "", entries[0].time, entries[0].sectors)] + AsRecords(entries[1..])
  }

  predicate NonNegative(numbers: seq<int>) { forall i :: 0 <= i < |numbers| ==> numbers[i] >= 0 }

  lemma {:induction false} PostedIsAllIff(entries: seq<Entry>)
    ensures |Posted(entries)| <= |entries|
    ensures Posted(entries) == AsRecords(entries)
            <==> forall i :: 0 <= i < |entries| ==> entries[i].time > 0 && entries[i].name != "" && NonNegative(entries[i].sectors)
  {
    if entries != [] {
      PostedIsAllIff(entries[1..]);
      var e := entries[0];
      assert AsRecords(entries)[1..] == AsRecords(entries[1..]);
      if e.time > 0 && e.name != "" { assert Posted(entries)[1..] == Posted(entries[1..]); }
      assert forall i :: 1 <= i < |entries| ==> entries[i] == entries[1..][i - 1];
    }
  }

  /** The collector's round trip is exact precisely for records with a time, a name and no negative sector. */
  lemma CollectorRoundTripIff(course: string, entries: seq<Entry>)
    requires OneLine(course) && NamesQuoteFree(entries) && NamesOneLine(entries)
    ensures ParseTopscores(Body(course, entries)) == AsRecords(entries)
            <==> forall i :: 0 <= i < |entries| ==> entries[i].time > 0 && entries[i].name != "" && NonNegative(entries[i].sectors)
  {
    CollectorReadsBack(course, entries);
    PostedIsAllIff(entries);
  }

  // ---- the site's text --------------------------------------------------------------------------------------

  /** One row of the query: the race's time, the displayed name and its checkpoints. */
  datatype Row = Row(time: int, name: string, checkpoints: seq<int>)

  /** The entries served: names sanitised, rows without a name left out. */
  function Served(rows: seq<Row>): (r: seq<Entry>)
    ensures NamesQuoteFree(r) && NamesOneLine(r)
    ensures forall i :: 0 <= i < |r| ==> r[i].name != ""
  {
    if rows == [] then [] else
    var name := SanitizeName(rows[0].name);
    (if name == "" then [] else [Entry(rows[0].time, name, rows[0].checkpoints)]) + Served(rows[1..])
  }

  method GameTopscoresText(course: string, top: seq<Row>) returns (body: string)
    ensures body == Body(course, Served(top))
  {
    hide SanitizeName, Quoted, LineTokens, Lines, Served;
    body := "//" + course + " top scores\n\n";
    assert top[0..] == top;
    for k := 0 to |top|
      invariant body + Lines(Served(top[k..])) == Body(course, Served(top))
    {
      var r := top[k];
      assert top[k..][1..] == top[k + 1..];
      var name := SanitizeName(r.name);
      ServedStep(top[k..]);
      if name != "" {
        var line := Quoted(LineTokens(Entry(r.time, name, r.checkpoints))) + "\n";
        assert (body + line) + Lines(Served(top[k + 1..])) == body + (line + Lines(Served(top[k + 1..])));
        body := body + line;
      }
    }
    assert top[|top|..] == [];
    ServedNothing();
  }

  lemma ServedStep(rows: seq<Row>)
    requires rows != []
    ensures var name := SanitizeName(rows[0].name);
      Lines(Served(rows)) == if name == "" then Lines(Served(rows[1..]))
        else Quoted(LineTokens(Entry(rows[0].time, name, rows[0].checkpoints))) + "\n" + Lines(Served(rows[1..]))
  {
    hide Quoted, LineTokens, SanitizeName, Lines;
    var name := SanitizeName(rows[0].name);
    if name != "" {
      LinesCons(Entry(rows[0].time, name, rows[0].checkpoints), Served(rows[1..]));
    } else {
      assert Served(rows) == Served(rows[1..]);
    }
  }

  lemma LinesCons(e: Entry, rest: seq<Entry>)
    ensures Lines([e] + rest) == Quoted(LineTokens(e)) + "\n" + Lines(rest)
  {
    hide Quoted, LineTokens;
    assert ([e] + rest)[1..] == rest;
  }

  lemma ServedNothing()
    ensures Lines(Served([])) == ""
  {
  }

  /** Whatever the database holds, a collector reading the served text gets every named row of it, in order. */
  lemma ServedTextReadsBack(course: string, rows: seq<Row>)
    requires OneLine(course)
    requires forall i :: 0 <= i < |rows| ==> rows[i].time > 0 && NonNegative(rows[i].checkpoints)
    ensures ParseTopscores(Body(course, Served(rows))) == AsRecords(Served(rows))
  {
    ServedRows(rows);
    CollectorRoundTripIff(course, Served(rows));
  }

  lemma {:induction false} ServedRows(rows: seq<Row>)
    requires forall i :: 0 <= i < |rows| ==> rows[i].time > 0 && NonNegative(rows[i].checkpoints)
    ensures forall i :: 0 <= i < |Served(rows)| ==> Served(rows)[i].time > 0 && NonNegative(Served(rows)[i].sectors)
  {
    hide SanitizeName, NonNegative;
    if rows != [] { ServedRows(rows[1..]); }
  }

  /** Both readers get the same records from a file whose records have at most 64 sectors. */
  lemma ReadersAgree(course: string, entries: seq<Entry>)
    requires OneLine(course) && NamesQuoteFree(entries) && NamesOneLine(entries)
    requires forall i :: 0 <= i < |entries| ==> Readable(entries[i]) && NonNegative(entries[i].sectors)
    ensures AsRecords(ParseExisting(Body(course, entries))) == ParseTopscores(Body(course, entries))
  {
    hide Body, ParseExisting, ParseTopscores;
    SeederRoundTripIff(course, entries);
    CollectorRoundTripIff(course, entries);
  }
}
