/** The topscores file: its printer (web/seed-topscores.js; web/db.js, `gameTopscoresText`) and its two readers
    (web/seed-topscores.js, `tokenize` and `parseExisting`; collector/collector.js, `parseTopscores`). */
module Topscores {
  import opened Extrema
  import opened Wrappers
  import opened Text
  import opened Numbers

  datatype Entry = Entry(time: int, name: string, sectors: seq<int>)

  /** A record as the collector posts it. */
  datatype Record = Record(name: string, login: string, time: int, checkpoints: seq<int>)

  const MAX_SECTORS := 64

  // ---- the printer ----------------------------------------------------------------------------

  /** `"token" ` */
  function Quote(token: string): string { "\"" + token + "\" " }

  function Quoted(tokens: seq<string>): string {
    if tokens == [] then "" else Quote(tokens[0]) + Quoted(tokens[1..])
  }

  function Shown(numbers: seq<int>): (r: seq<string>)
    ensures |r| == |numbers|
  {
    if numbers == [] then [] else [ShowInt(numbers[0])] + Shown(numbers[1..])
  }

  function LineTokens(e: Entry): seq<string> {
    [ShowInt(e.time), e.name, ShowInt(|e.sectors|)] + Shown(e.sectors)
  }

  function Lines(entries: seq<Entry>): string {
    if entries == [] then "" else Quoted(LineTokens(entries[0])) + "\n" + Lines(entries[1..])
  }

  function Body(course: string, entries: seq<Entry>): string { "//" + course + " top scores\n\n" + Lines(entries) }

  /** A name that can stand in a quoted token. */
  predicate QuoteFree(s: string) { forall i :: 0 <= i < |s| ==> s[i] != '"' }

  predicate IsBreak(c: char) { c == '\n' || c == '\r' }

  predicate OneLine(s: string) { forall i :: 0 <= i < |s| ==> !IsBreak(s[i]) }

  /** `sanitizeName`: quotes, breaks and tabs dropped, at most 64 characters. */
  function SanitizeName(name: string): (r: string)
    ensures QuoteFree(r) && OneLine(r) && |r| <= 64
  {
    var kept := DropUnquotable(name);
    if |kept| > 64 then kept[..64] else kept
  }

  function DropUnquotable(s: string): (r: string)
    ensures QuoteFree(r) && OneLine(r)
  {
    if s == "" then ""
    else if s[0] == '"' || s[0] == '\r' || s[0] == '\n' || s[0] == '\t' then DropUnquotable(s[1..])
    else [s[0]] + DropUnquotable(s[1..])
  }

  // ---- the seeder's tokenizer -----------------------------------------------------------------

  predicate IsBlank(c: char) { c == ' ' || c == '\t' || c == '\r' || c == '\n' }

  /** The first position from i on whose character is c, or the length. */
  function IndexFrom(s: string, c: char, i: nat): (j: nat)
    requires i <= |s|
    ensures i <= j <= |s| && (j < |s| ==> s[j] == c) && forall k :: i <= k < j ==> s[k] != c
    decreases |s| - i
  {
    if i == |s| || s[i] == c then i else IndexFrom(s, c, i + 1)
  }

  /** The end of the bare token at i. */
  function BareEnd(s: string, i: nat): (j: nat)
    requires i <= |s|
    ensures i <= j <= |s|
    ensures i < |s| && !IsBlank(s[i]) ==> i < j
    decreases |s| - i
  {
    if i == |s| || IsBlank(s[i]) then i else BareEnd(s, i + 1)
  }

  /** The token that starts at i, if one does, and where scanning goes on; scanning stops at an open quote. */
  datatype Scan = Skip(next: nat) | Token(token: string, next: nat) | Stop

  function ScanAt(s: string, i: nat): (r: Scan)
    requires i < |s|
    ensures !r.Stop? ==> i < r.next <= |s|
  {
    if IsBlank(s[i]) then Skip(i + 1)
    else if s[i] == '/' && i + 1 < |s| && s[i + 1] == '/' then Skip(IndexFrom(s, '\n', i + 1))
    else if s[i] == '"' then
      var end := IndexFrom(s, '"', i + 1);
      if end == |s| then Stop else Token(s[i + 1..end], end + 1)
    else Token(s[i..BareEnd(s, i)], BareEnd(s, i))
  }

  /** The tokens of s from position i on. */
  function TokensFrom(s: string, i: nat): seq<string>
    requires i <= |s|
    decreases |s| - i
  {
    if i == |s| then [] else
    match ScanAt(s, i)
    case Skip(next) => TokensFrom(s, next)
    case Token(t, next) => [t] + TokensFrom(s, next)
    case Stop => []
  }

  lemma TokensStep(s: string, i: nat)
    requires i <= |s|
    ensures i == |s| ==> TokensFrom(s, i) == []
    ensures i < |s| ==>
      TokensFrom(s, i) == match ScanAt(s, i) { case Skip(next) => TokensFrom(s, next)
                                               case Token(t, next) => [t] + TokensFrom(s, next)
                                               case Stop => [] }
  {
  }

  method Tokenize(text: string) returns (tokens: seq<string>)
    ensures tokens == TokensFrom(text, 0)
  {
    hide ScanAt, TokensFrom;
    tokens := [];
    var i := 0;
    TokensStep(text, 0);
    while i < |text|
      invariant i <= |text| && tokens + TokensFrom(text, i) == TokensFrom(text, 0)
      decreases |text| - i
    {
      TokensStep(text, i);
      var scan := ScanOne(text, i);
      match scan
      case Skip(next) => i := next;
      case Stop => return;
      case Token(t, next) =>
        assert (tokens + [t]) + TokensFrom(text, next) == tokens + ([t] + TokensFrom(text, next));
        tokens := tokens + [t];
        i := next;
    }
    TokensStep(text, i);
  }

  /** The body of the tokenizer's loop. */
  method ScanOne(text: string, i: nat) returns (scan: Scan)
    requires i < |text|
    ensures scan == ScanAt(text, i)
  {
    hide IndexFrom, BareEnd;
    var c := text[i];
    if c == ' ' || c == '\t' || c == '\r' || c == '\n' { return Skip(i + 1); }
    if c == '/' && i + 1 < |text| && text[i + 1] == '/' {
      CommentStart(text, i);
      var end := SkipTo(text, '\n', i);
      return Skip(end);
    }
    if c == '"' {
      var end := SkipTo(text, '"', i + 1);
      return if end == |text| then Stop else Token(text[i + 1..end], end + 1);
    }
    var j := BareTo(text, i);
    return Token(text[i..j], j);
  }

  lemma CommentStart(s: string, i: nat)
    requires i < |s| && s[i] == '/'
    ensures IndexFrom(s, '\n', i) == IndexFrom(s, '\n', i + 1)
  {
  }

  method BareTo(s: string, i: nat) returns (j: nat)
    requires i <= |s|
    ensures j == BareEnd(s, i)
  {
    j := i;
    while j < |s| && !IsBlank(s[j])
      invariant i <= j <= |s| && BareEnd(s, j) == BareEnd(s, i)
    {
      j := j + 1;
    }
  }

  method SkipTo(s: string, c: char, i: nat) returns (j: nat)
    requires i <= |s|
    ensures j == IndexFrom(s, c, i)
  {
    j := i;
    while j < |s| && s[j] != c
      invariant i <= j <= |s| && IndexFrom(s, c, j) == IndexFrom(s, c, i)
    {
      j := j + 1;
    }
  }

  // ---- the seeder's reader ----------------------------------------------------------------------

  /** What is before a login suffix. */
  function BeforePipe(token: string): string { token[..IndexFrom(token, '|', 0)] }

  function OrZero(n: Option<int>): int { match n case Some(v) => v case None => 0 }

  function ReadSectors(tokens: seq<string>): (r: seq<int>)
    ensures |r| == |tokens|
  {
    if tokens == [] then [] else [OrZero(ParseInt(tokens[0]))] + ReadSectors(tokens[1..])
  }

  function Accept(time: Option<int>, name: string, sectors: seq<int>): seq<Entry> {
    if time.Some? && time.value > 0 && name != "" then [Entry(time.value, name, sectors)] else []
  }

  /** The entries of the tokens from position i on; a broken or oversized sector count stops the reader. */
  function EntriesFrom(tokens: seq<string>, i: nat): seq<Entry>
    requires i <= |tokens|
    decreases |tokens| - i
  {
    if i + 2 >= |tokens| then [] else
    var n := ParseInt(tokens[i + 2]);
    if n.None? || n.value < 0 || n.value > MAX_SECTORS then [] else
    var upto := Min(i + 3 + n.value, |tokens|);
    EntryAt(tokens, i, upto) + EntriesFrom(tokens, upto)
  }

  function EntryAt(tokens: seq<string>, i: nat, upto: nat): seq<Entry>
    requires i + 3 <= upto <= |tokens|
  {
    Accept(ParseInt(BeforePipe(tokens[i])), tokens[i + 1], ReadSectors(tokens[i + 3..upto]))
  }

  function ParseExisting(text: string): seq<Entry> { EntriesFrom(TokensFrom(text, 0), 0) }

  /** The loop over the tokens. */
  method ParseExistingText(text: string) returns (entries: seq<Entry>)
    ensures entries == ParseExisting(text)
  {
    hide TokensFrom, EntriesFrom, ParseInt, EntryAt;
    var tokens := Tokenize(text);
    entries := [];
    var i := 0;
    EntriesStep(tokens, 0);
    while i < |tokens|
      invariant i <= |tokens| && entries + EntriesFrom(tokens, i) == EntriesFrom(tokens, 0)
      decreases |tokens| - i
    {
      EntriesStep(tokens, i);
      if i + 2 >= |tokens| { return; }
      var n := ParseInt(tokens[i + 2]);
      if n.None? || n.value < 0 || n.value > MAX_SECTORS { return; }
      var upto := Min(i + 3 + n.value, |tokens|);
      var found := ReadOne(tokens, i, upto);
      Reassociated(entries, found, EntriesFrom(tokens, upto));
      entries := entries + found;
      i := upto;
    }
    EntriesStep(tokens, i);
  }

  lemma Reassociated(a: seq<Entry>, b: seq<Entry>, c: seq<Entry>)
    ensures (a + b) + c == a + (b + c)
  {
  }

  lemma EntriesStep(tokens: seq<string>, i: nat)
    requires i <= |tokens|
    ensures i + 2 >= |tokens| ==> EntriesFrom(tokens, i) == []
    ensures i + 2 < |tokens| ==>
      var n := ParseInt(tokens[i + 2]);
      EntriesFrom(tokens, i) == if n.None? || n.value < 0 || n.value > MAX_SECTORS then [] else
                                var upto := Min(i + 3 + n.value, |tokens|);
                                EntryAt(tokens, i, upto) + EntriesFrom(tokens, upto)
  {
  }

  /** One record: the sector loop and the acceptance test. */
  method ReadOne(tokens: seq<string>, i: nat, upto: nat) returns (found: seq<Entry>)
    requires i + 3 <= upto <= |tokens|
    ensures found == EntryAt(tokens, i, upto)
  {
    hide ParseInt, BeforePipe;
    var sectors: seq<int> := [];
    for j := i + 3 to upto
      invariant sectors == ReadSectors(tokens[i + 3..j])
    {
      ReadSectorsStep(tokens[i + 3..j + 1]);
      assert tokens[i + 3..j + 1][..j - i - 3] == tokens[i + 3..j];
      sectors := sectors + [OrZero(ParseInt(tokens[j]))];
    }
    var time := ParseInt(BeforePipe(tokens[i]));
    found := if time.Some? && time.value > 0 && tokens[i + 1] != "" then [Entry(time.value, tokens[i + 1], sectors)] else [];
  }

  lemma {:induction false} ReadSectorsStep(tokens: seq<string>)
    requires tokens != []
    ensures ReadSectors(tokens) == ReadSectors(tokens[..|tokens| - 1]) + [OrZero(ParseInt(tokens[|tokens| - 1]))]
  {
    if |tokens| > 1 {
      ReadSectorsStep(tokens[1..]);
      assert tokens[1..][..|tokens| - 2] == tokens[..|tokens| - 1][1..];
    }
  }

  // ---- writing and reading back -------------------------------------------------------------------

  lemma IndexIs(s: string, c: char, i: nat, j: nat)
    requires i <= j <= |s| && (forall k :: i <= k < j ==> s[k] != c) && (j < |s| ==> s[j] == c)
    ensures IndexFrom(s, c, i) == j
  {
    var k := IndexFrom(s, c, i);
    assert k < |s| ==> s[k] == c;
  }

  lemma QuoteAt(s: string, i: nat, t: string, rest: string)
    requires i <= |s| && s[i..] == Quote(t) + rest && QuoteFree(t)
    ensures var end := i + 1 + |t|;
      && end + 2 <= |s| && s[end + 2..] == rest && s[i] == '"' && s[end] == '"' && s[end + 1] == ' '
      && s[i + 1..end] == t && forall k :: i + 1 <= k < end ==> s[k] != '"'
  {
    var end := i + 1 + |t|;
    assert forall k :: 0 <= k < |t| ==> s[i..][k + 1] == t[k];
    assert forall k :: i + 1 <= k < end ==> s[k] == s[i..][k - i];
    assert s[i] == s[i..][0] == '"' && s[end] == s[i..][|t| + 1] == '"' && s[end + 1] == s[i..][|t| + 2] == ' ';
    assert s[end + 2..] == s[i..][|t| + 3..] == rest;
  }

  /** A quoted token is read back whole, whatever follows it. */
  lemma QuoteIsToken(s: string, i: nat, t: string, rest: string)
    requires i <= |s| && s[i..] == Quote(t) + rest && QuoteFree(t)
    ensures var next := i + |t| + 3;
      next <= |s| && s[next..] == rest && TokensFrom(s, i) == [t] + TokensFrom(s, next)
  {
    hide IndexFrom, BareEnd, TokensFrom, Quote;
    var end := i + 1 + |t|;
    QuoteAt(s, i, t, rest);
    IndexIs(s, '"', i + 1, end);
    assert ScanAt(s, i) == Token(t, end + 1);
    assert ScanAt(s, end + 1) == Skip(end + 2);
    TokensStep(s, i);
    TokensStep(s, end + 1);
  }

  predicate AllQuoteFree(tokens: seq<string>) { forall i :: 0 <= i < |tokens| ==> QuoteFree(tokens[i]) }

  lemma {:induction false} QuotedAreTokens(s: string, i: nat, tokens: seq<string>, rest: string) returns (next: nat)
    requires i <= |s| && s[i..] == Quoted(tokens) + rest && AllQuoteFree(tokens)
    ensures i <= next <= |s| && s[next..] == rest && TokensFrom(s, i) == tokens + TokensFrom(s, next)
    decreases |tokens|
  {
    hide TokensFrom, Quote;
    next := i;
    if tokens != [] {
      assert s[i..] == Quote(tokens[0]) + (Quoted(tokens[1..]) + rest);
      QuoteIsToken(s, i, tokens[0], Quoted(tokens[1..]) + rest);
      next := QuotedAreTokens(s, i + |tokens[0]| + 3, tokens[1..], rest);
      assert [tokens[0]] + (tokens[1..] + TokensFrom(s, next)) == tokens + TokensFrom(s, next);
    } else {
      assert s[i..] == rest;
    }
  }

  lemma ShownQuoteFree(n: int)
    ensures QuoteFree(ShowInt(n)) && OneLine(ShowInt(n)) && ShowInt(n) != ""
    ensures IndexFrom(ShowInt(n), '|', 0) == |ShowInt(n)|
  {
    IndexIs(ShowInt(n), '|', 0, |ShowInt(n)|);
  }

  lemma {:induction false} AllShownQuoteFree(numbers: seq<int>)
    ensures forall i :: 0 <= i < |numbers| ==> Shown(numbers)[i] == ShowInt(numbers[i])
    ensures AllQuoteFree(Shown(numbers))
  {
    hide ShowInt;
    if numbers != [] {
      AllShownQuoteFree(numbers[1..]);
      ShownQuoteFree(numbers[0]);
    }
  }

  predicate NamesQuoteFree(entries: seq<Entry>) { forall i :: 0 <= i < |entries| ==> QuoteFree(entries[i].name) }

  function AllTokens(entries: seq<Entry>): seq<string> {
    if entries == [] then [] else LineTokens(entries[0]) + AllTokens(entries[1..])
  }

  lemma LineTokensQuoteFree(e: Entry)
    requires QuoteFree(e.name)
    ensures AllQuoteFree(LineTokens(e))
  {
    hide ShowInt;
    ShownQuoteFree(e.time);
    ShownQuoteFree(|e.sectors|);
    AllShownQuoteFree(e.sectors);
  }

  lemma BreakIsSkipped(s: string, i: nat)
    requires i < |s| && s[i] == '\n'
    ensures TokensFrom(s, i) == TokensFrom(s, i + 1)
  {
  }

  lemma {:induction false} LinesAreTokens(s: string, i: nat, entries: seq<Entry>)
    requires i <= |s| && s[i..] == Lines(entries) && NamesQuoteFree(entries)
    ensures TokensFrom(s, i) == AllTokens(entries)
    decreases |entries|
  {
    hide Quoted, LineTokens, TokensFrom;
    if entries != [] {
      var e := entries[0];
      var rest := "\n" + Lines(entries[1..]);
      assert s[i..] == Quoted(LineTokens(e)) + rest;
      LineTokensQuoteFree(e);
      var next := QuotedAreTokens(s, i, LineTokens(e), rest);
      assert s[next] == s[next..][0] == '\n';
      assert s[next + 1..] == s[next..][1..] == Lines(entries[1..]);
      BreakIsSkipped(s, next);
      LinesAreTokens(s, next + 1, entries[1..]);
    } else {
      TokensStep(s, i);
    }
  }

  lemma HeaderShape(course: string, entries: seq<Entry>)
    requires OneLine(course)
    ensures var s := Body(course, entries);
      var e := |course| + 13;
      && e + 2 <= |s| && s[0] == s[1] == '/' && s[e] == s[e + 1] == '\n' && s[e + 2..] == Lines(entries)
      && forall k :: 0 <= k < e ==> !IsBreak(s[k])
  {
    var s := Body(course, entries);
    var header := "//" + course + " top scores";
    assert s == header + ("\n\n" + Lines(entries));
    var e := |course| + 13;
    assert forall k :: 0 <= k < e ==> s[k] == header[k];
    assert OneLine(" top scores");
    assert forall k :: 2 <= k < 2 + |course| ==> header[k] == course[k - 2];
    assert forall k :: 2 + |course| <= k < e ==> header[k] == " top scores"[k - 2 - |course|];
  }

  /** The header is a comment. */
  lemma HeaderIsSkipped(course: string, entries: seq<Entry>)
    requires OneLine(course)
    ensures var s := Body(course, entries);
      var i := |course| + 15;
      i <= |s| && s[i..] == Lines(entries) && TokensFrom(s, 0) == TokensFrom(s, i)
  {
    hide IndexFrom, BareEnd, Body;
    HeaderShape(course, entries);
    var s := Body(course, entries);
    var e := |course| + 13;
    IndexIs(s, '\n', 1, e);
    assert ScanAt(s, 0) == Skip(e);
    BreakIsSkipped(s, e);
    BreakIsSkipped(s, e + 1);
  }

  lemma {:induction false} SectorsReadBack(numbers: seq<int>)
    ensures ReadSectors(Shown(numbers)) == numbers
  {
    hide ShowInt, ParseInt;
    if numbers != [] {
      SectorsReadBack(numbers[1..]);
      ParseShown(numbers[0]);
    }
  }

  /** What the seeder keeps of a printed list: everything before the first entry with more than 64 sectors,
      without entries that have no time or no name. */
  function Kept(entries: seq<Entry>): seq<Entry> {
    if entries == [] || |entries[0].sectors| > MAX_SECTORS then []
    else (if entries[0].time > 0 && entries[0].name != "" then [entries[0]] else []) + Kept(entries[1..])
  }

  lemma LineReadsBack(tokens: seq<string>, i: nat, e: Entry, rest: seq<string>)
    requires i <= |tokens| && tokens[i..] == LineTokens(e) + rest
    ensures var next := i + 3 + |e.sectors|;
      && next <= |tokens| && tokens[next..] == rest
      && EntriesFrom(tokens, i)
         == if |e.sectors| > MAX_SECTORS then []
            else (if e.time > 0 && e.name != "" then [e] else []) + EntriesFrom(tokens, next)
  {
    hide ShowInt, ParseInt, EntriesFrom, IndexFrom;
    var n := |e.sectors|;
    var t := LineTokens(e);
    assert forall k :: 0 <= k < |t| ==> tokens[i + k] == tokens[i..][k] == t[k];
    assert tokens[i + 3 + n..] == tokens[i..][3 + n..] == rest;
    assert tokens[i + 3..i + 3 + n] == Shown(e.sectors);
    SectorsReadBack(e.sectors);
    ParseShown(e.time);
    ParseShown(n);
    ShownQuoteFree(e.time);
    var time := ShowInt(e.time);
    assert time[..|time|] == time;
    EntriesStep(tokens, i);
  }

  lemma {:induction false} TokensReadBack(tokens: seq<string>, i: nat, entries: seq<Entry>)
    requires i <= |tokens| && tokens[i..] == AllTokens(entries)
    ensures EntriesFrom(tokens, i) == Kept(entries)
    decreases |entries|
  {
    hide LineTokens, EntriesFrom;
    if entries != [] {
      LineReadsBack(tokens, i, entries[0], AllTokens(entries[1..]));
      TokensReadBack(tokens, i + 3 + |entries[0].sectors|, entries[1..]);
    } else {
      EntriesStep(tokens, i);
    }
  }

  /** Reading a printed file back with the seeder's own reader. */
  lemma SeederReadsBack(course: string, entries: seq<Entry>)
    requires OneLine(course) && NamesQuoteFree(entries)
    ensures ParseExisting(Body(course, entries)) == Kept(entries)
  {
    hide Body, TokensFrom, EntriesFrom, Lines;
    var s := Body(course, entries);
    HeaderIsSkipped(course, entries);
    LinesAreTokens(s, |course| + 15, entries);
    var tokens := TokensFrom(s, 0);
    assert tokens[0..] == AllTokens(entries);
    TokensReadBack(tokens, 0, entries);
  }

  /** An entry the seeder's reader accepts. */
  predicate Readable(e: Entry) { e.time > 0 && e.name != "" && |e.sectors| <= MAX_SECTORS }

  lemma {:induction false} KeptIsAllIff(entries: seq<Entry>)
    ensures |Kept(entries)| <= |entries|
    ensures Kept(entries) == entries <==> forall i :: 0 <= i < |entries| ==> Readable(entries[i])
  {
    if entries != [] {
      KeptIsAllIff(entries[1..]);
      assert entries == [entries[0]] + entries[1..];
      assert (forall i :: 0 <= i < |entries| ==> Readable(entries[i]))
             <==> Readable(entries[0]) && forall i :: 0 <= i < |entries[1..]| ==> Readable(entries[1..][i]);
    }
  }

  /** The seeder's round trip is exact precisely for records with a time, a name and at most 64 sectors. */
  lemma SeederRoundTripIff(course: string, entries: seq<Entry>)
    requires OneLine(course) && NamesQuoteFree(entries)
    ensures ParseExisting(Body(course, entries)) == entries <==> forall i :: 0 <= i < |entries| ==> Readable(entries[i])
  {
    SeederReadsBack(course, entries);
    KeptIsAllIff(entries);
  }
}
