/** Topscores files that the seeder did not print (web/seed-topscores.js, collector/collector.js): text laid out by
    hand, with comments and bare words, and the records of the time when a login stood behind the time. */
module TopscoresForms {
  import opened Wrappers
  import opened Extrema
  import opened Text
  import opened Numbers
  import opened Topscores
  import opened TopscoresFeed

  // ---- the tokenizer on any layout ----------------------------------------------------------------

  datatype Piece = Blank(c: char) | Comment(text: string) | Quotation(text: string) | Bare(text: string) | Unclosed(text: string)

  function Write(p: Piece): string {
    match p
    case Blank(c) => [c]
    case Comment(t) => "//" + t
    case Quotation(t) => "\"" + t + "\""
    case Bare(t) => t
    case Unclosed(t) => "\"" + t
  }

  function Spell(ps: seq<Piece>): string { if ps == [] then "" else Write(ps[0]) + Spell(ps[1..]) }

  /** The quotations and bare words, in order. */
  function TokensOf(ps: seq<Piece>): seq<string> {
    if ps == [] then [] else
    (if ps[0].Quotation? || ps[0].Bare? then [ps[0].text] else []) + TokensOf(ps[1..])
  }

  predicate WellWritten(p: Piece) {
    match p
    case Blank(c) => c in " \t\r\n"
    case Comment(t) => Free(t, '\n')
    case Quotation(t) => Free(t, '"')
    case Bare(t) => t != "" && t[0] != '"' && !("//" <= t) && forall i :: 0 <= i < |t| ==> t[i] !in " \t\r\n"
    case Unclosed(t) => Free(t, '"')
  }

  /** A comment ends at a line's end, a bare word at a blank, an unclosed quotation at the end of the text. */
  predicate MayFollow(p: Piece, q: Piece) {
    match p
    case Comment(_) => q == Blank('\n')
    case Bare(_) => q.Blank?
    case Unclosed(_) => false
    case _ => true
  }

  predicate Laid(ps: seq<Piece>) {
    && (forall i :: 0 <= i < |ps| ==> WellWritten(ps[i]))
    && forall i :: 0 <= i < |ps| - 1 ==> MayFollow(ps[i], ps[i + 1])
  }

  lemma {:induction false} BareEndIs(s: string, i: nat, j: nat)
    requires i <= j <= |s| && (forall k :: i <= k < j ==> !IsBlank(s[k])) && (j < |s| ==> IsBlank(s[j]))
    ensures BareEnd(s, i) == j
    decreases j - i
  {
    if i < j { BareEndIs(s, i + 1, j); }
  }

  lemma FreeInside(s: string, a: nat, b: nat, c: char)
    requires a <= b <= |s| && Free(s[a..b], c)
    ensures forall k :: a <= k < b ==> s[k] != c
  {
    forall k | a <= k < b ensures s[k] != c { assert s[a..b][k - a] == s[k]; }
  }

  lemma BareIsScanned(s: string, i: nat, j: nat)
    requires i < j <= |s| && WellWritten(Bare(s[i..j])) && (j < |s| ==> IsBlank(s[j]))
    ensures ScanAt(s, i) == Token(s[i..j], j)
  {
    hide IndexFrom, BareEnd;
    var t := s[i..j];
    forall k | i <= k < j ensures !IsBlank(s[k]) { assert t[k - i] == s[k]; }
    BareEndIs(s, i, j);
    assert t[0] == s[i];
    if i + 1 < j { assert t[1] == s[i + 1]; }
  }

  lemma BlankIsScanned(s: string, i: nat, c: char)
    requires i < |s| && s[i] == c && IsBlank(c)
    ensures ScanAt(s, i) == Skip(i + 1)
  {
  }

  lemma CommentIsScanned(s: string, i: nat, j: nat, t: string)
    requires i <= j <= |s| && s[i..j] == "//" + t && Free(t, '\n') && (j < |s| ==> s[j] == '\n')
    ensures ScanAt(s, i) == Skip(j)
  {
    hide IndexFrom, BareEnd, Free;
    var w := s[i..j];
    assert w[0] == s[i] && w[1] == s[i + 1] && s[i + 2..j] == w[2..] == t;
    FreeInside(s, i + 2, j, '\n');
    IndexIs(s, '\n', i + 1, j);
  }

  lemma SliceOfSlice(s: string, i: nat, j: nat, a: nat, b: nat)
    requires i <= j <= |s| && a <= b <= j - i
    ensures s[i..j][a..b] == s[i + a..i + b]
  {
    forall k | 0 <= k < b - a ensures s[i..j][a..b][k] == s[i + a..i + b][k] { assert s[i..j][a + k] == s[i + a + k]; }
  }

  lemma QuotationShape(t: string)
    ensures var w := "\"" + t + "\""; |w| == |t| + 2 && w[0] == w[|t| + 1] == '"' && w[1..|t| + 1] == t
  {
  }

  lemma QuotationAt(s: string, i: nat, j: nat, t: string)
    requires i <= j <= |s| && s[i..j] == "\"" + t + "\"" && Free(t, '"')
    ensures j == i + |t| + 2 && s[i] == s[j - 1] == '"' && s[i + 1..j - 1] == t && IndexFrom(s, '"', i + 1) == j - 1
  {
    hide IndexFrom, Free;
    var w := s[i..j];
    QuotationShape(t);
    assert w[0] == s[i] && w[|t| + 1] == s[j - 1];
    SliceOfSlice(s, i, j, 1, |t| + 1);
    FreeInside(s, i + 1, j - 1, '"');
    IndexIs(s, '"', i + 1, j - 1);
  }

  lemma QuotationIsScanned(s: string, i: nat, j: nat, t: string)
    requires i <= j <= |s| && s[i..j] == "\"" + t + "\"" && Free(t, '"')
    ensures ScanAt(s, i) == Token(t, j)
  {
    hide IndexFrom, BareEnd, Free;
    QuotationAt(s, i, j, t);
  }

  lemma UnclosedStops(s: string, i: nat, t: string)
    requires i <= |s| && s[i..] == "\"" + t && Free(t, '"')
    ensures ScanAt(s, i) == Stop
  {
    hide IndexFrom, BareEnd, Free;
    var w := s[i..];
    assert w[0] == s[i] && s[i + 1..|s|] == w[1..] == t;
    FreeInside(s, i + 1, |s|, '"');
    IndexIs(s, '"', i + 1, |s|);
  }

  /** One piece, scanned. */
  lemma PieceIsScanned(s: string, i: nat, p: Piece, rest: string)
    requires i <= |s| && s[i..] == Write(p) + rest && WellWritten(p)
    requires rest != "" ==> (p.Comment? ==> rest[0] == '\n') && (p.Bare? ==> IsBlank(rest[0])) && !p.Unclosed?
    ensures var next := i + |Write(p)|;
      && i < next <= |s| && s[next..] == rest
      && ScanAt(s, i) == match p { case Blank(_) => Skip(next) case Comment(_) => Skip(next) case Unclosed(_) => Stop
                                   case Quotation(t) => Token(t, next) case Bare(t) => Token(t, next) }
  {
    hide IndexFrom, BareEnd, Free, ScanAt;
    var w := Write(p);
    var next := i + |w|;
    assert s[i..next] == s[i..][..|w|] == w && s[next..] == s[i..][|w|..] == rest;
    if next < |s| { assert s[next] == s[next..][0] == rest[0]; }
    match p
    case Blank(c) => BlankIsScanned(s, i, c);
    case Comment(t) => CommentIsScanned(s, i, next, t);
    case Quotation(t) => QuotationIsScanned(s, i, next, t);
    case Bare(t) => BareIsScanned(s, i, next);
    case Unclosed(t) => UnclosedStops(s, i, t);
  }

  /** What follows the first piece of a layout. */
  lemma LaidStarts(ps: seq<Piece>)
    requires ps != [] && Laid(ps)
    ensures var p, rest := ps[0], Spell(ps[1..]);
      && Laid(ps[1..]) && WellWritten(p) && (p.Unclosed? ==> |ps| == 1)
      && (rest != "" ==> (p.Comment? ==> rest[0] == '\n') && (p.Bare? ==> IsBlank(rest[0])) && !p.Unclosed?)
  {
    hide WellWritten;
    if |ps| > 1 { PieceStarts(ps[1]); assert MayFollow(ps[0], ps[1]) && Spell(ps[1..])[0] == Write(ps[1])[0]; }
  }

  /** The tokenizer reads exactly the quotations and bare words of any text laid out in pieces. */
  lemma {:induction false} PiecesAreRead(s: string, i: nat, ps: seq<Piece>)
    requires i <= |s| && s[i..] == Spell(ps) && Laid(ps)
    ensures TokensFrom(s, i) == TokensOf(ps)
    decreases |ps|
  {
    hide ScanAt, TokensFrom, WellWritten, MayFollow, Write, Laid;
    TokensStep(s, i);
    if ps != [] {
      var next := i + |Write(ps[0])|;
      LaidStarts(ps);
      PieceIsScanned(s, i, ps[0], Spell(ps[1..]));
      if ps[0].Unclosed? {
        assert ps == [ps[0]];
      } else {
        PiecesAreRead(s, next, ps[1..]);
      }
    }
  }

  lemma PieceStarts(p: Piece)
    requires WellWritten(p)
    ensures Write(p) != "" && (p.Blank? ==> IsBlank(Write(p)[0]))
  {
  }

  // ---- the collector's words ----------------------------------------------------------------------

  /** What the collector's regular expression reads: blanks, quotations and words without white space. */
  predicate WellSpaced(p: Piece) {
    WellWritten(p) && !p.Comment? && !p.Unclosed? && (p.Bare? ==> forall i :: 0 <= i < |p.text| ==> !IsSpace(p.text[i]))
  }

  lemma {:induction false} WordEndIs(s: string, i: nat, j: nat)
    requires i <= j <= |s| && (forall k :: i <= k < j ==> !IsSpace(s[k])) && (j < |s| ==> IsSpace(s[j]))
    ensures WordEnd(s, i) == j
    decreases j - i
  {
    if i < j { WordEndIs(s, i + 1, j); }
  }

  lemma QuotationIsWord(s: string, i: nat, j: nat, t: string)
    requires i <= j <= |s| && s[i..j] == "\"" + t + "\"" && Free(t, '"')
    ensures WordsFrom(s, i) == [t] + WordsFrom(s, j)
  {
    hide IndexFrom, WordEnd, Free;
    QuotationAt(s, i, j, t);
  }

  lemma BareIsWord(s: string, i: nat, j: nat)
    requires i < j <= |s| && WellSpaced(Bare(s[i..j])) && (j < |s| ==> IsSpace(s[j]))
    ensures WordsFrom(s, i) == [s[i..j]] + WordsFrom(s, j)
  {
    hide IndexFrom, WordEnd;
    var t := s[i..j];
    forall k | i <= k < j ensures !IsSpace(s[k]) { assert t[k - i] == s[k]; }
    assert t[0] == s[i];
    WordEndIs(s, i, j);
  }

  lemma BlankIsNoWord(s: string, i: nat)
    requires i < |s| && IsBlank(s[i])
    ensures WordsFrom(s, i) == WordsFrom(s, i + 1)
  {
    hide IndexFrom, WordEnd;
  }

  lemma PieceIsWord(s: string, i: nat, p: Piece, rest: string)
    requires i <= |s| && s[i..] == Write(p) + rest && WellSpaced(p)
    requires rest != "" && p.Bare? ==> IsSpace(rest[0])
    ensures var next := i + |Write(p)|;
      && i < next <= |s| && s[next..] == rest
      && WordsFrom(s, i) == (if p.Blank? then [] else [p.text]) + WordsFrom(s, next)
  {
    hide IndexFrom, WordEnd, Free, WordsFrom;
    var w := Write(p);
    var next := i + |w|;
    assert s[i..next] == s[i..][..|w|] == w && s[next..] == s[i..][|w|..] == rest;
    if next < |s| { assert s[next] == s[next..][0] == rest[0]; }
    match p
    case Blank(c) => assert s[i] == w[0]; BlankIsNoWord(s, i);
    case Quotation(t) => QuotationIsWord(s, i, next, t);
    case Bare(t) => BareIsWord(s, i, next);
  }

  /** The collector reads the same tokens off every layout both readers know. */
  lemma {:induction false} PiecesAreWords(s: string, i: nat, ps: seq<Piece>)
    requires i <= |s| && s[i..] == Spell(ps) && Laid(ps) && forall k :: 0 <= k < |ps| ==> WellSpaced(ps[k])
    ensures WordsFrom(s, i) == TokensOf(ps)
    decreases |ps|
  {
    hide WordsFrom, WellWritten, MayFollow, Laid;
    if ps != [] {
      LaidStarts(ps);
      PieceIsWord(s, i, ps[0], Spell(ps[1..]));
      PiecesAreWords(s, i + |Write(ps[0])|, ps[1..]);
    } else {
      WordsStep(s, i);
    }
  }

  // ---- comment lines ------------------------------------------------------------------------------

  /** A line with something on it. */
  predicate IsLine(line: string) { OneLine(line) && TrimLeft(line) != "" }

  predicate IsNote(line: string) { "//" <= TrimLeft(line) }

  function Noteless(lines: seq<string>): (r: seq<string>)
    ensures |r| == |lines|
  {
    if lines == [] then [] else [if IsNote(lines[0]) then "" else lines[0]] + Noteless(lines[1..])
  }

  lemma {:induction false} TrimmedFrom(line: string) returns (n: nat)
    ensures n <= |line| && TrimLeft(line) == line[n..] && (n < |line| ==> !IsSpace(line[n]))
    ensures forall k :: 0 <= k < n ==> IsSpace(line[k])
  {
    n := 0;
    if line != "" && IsSpace(line[0]) {
      var m := TrimmedFrom(line[1..]);
      n := m + 1;
      forall k | 0 <= k < n ensures IsSpace(line[k]) { if k > 0 { assert line[1..][k - 1] == line[k]; } }
    }
  }

  /** At the start of a line the reader sees a comment exactly on a note. */
  lemma NoteIsComment(s: string, i: nat, e: nat)
    requires i <= e <= |s| && IsLine(s[i..e]) && (e < |s| ==> s[e] == '\n')
    ensures i < e && (CommentAt(s, i) <==> IsNote(s[i..e]))
    ensures CommentAt(s, i) ==> BreakFrom(s, SpaceEnd(s, i) + 2) == e
  {
    hide SpaceEnd, BreakFrom, TrimLeft, OneLine;
    var line := s[i..e];
    var n := TrimmedFrom(line);
    forall k | i <= k < i + n ensures IsSpace(s[k]) { assert line[k - i] == s[k]; }
    assert n < |line| && line[n] == s[i + n];
    SpaceIs(s, i, i + n);
    if n + 1 < |line| { assert line[n + 1] == s[i + n + 1]; }
    if CommentAt(s, i) {
      assert i + n + 1 < e;
      forall k | i <= k < e ensures !IsBreak(s[k]) { LineChar(line, k - i); assert line[k - i] == s[k]; }
      BreakIs(s, i + n + 2, e);
    }
  }

  lemma LineChar(line: string, k: nat)
    requires OneLine(line) && k < |line|
    ensures !IsBreak(line[k])
  {
  }

  lemma LineIsOne(line: string)
    requires IsLine(line)
    ensures OneLine(line)
  {
  }

  lemma CommentGoes(s: string, i: nat)
    requires i < |s| && CommentAt(s, i)
    ensures StripFrom(s, i, true) == StripFrom(s, BreakFrom(s, SpaceEnd(s, i) + 2), false)
  {
  }

  lemma StripEnds(s: string, start: bool)
    ensures StripFrom(s, |s|, start) == ""
  {
  }

  lemma LineIsStripped(s: string, i: nat, line: string, rest: string)
    requires i <= |s| && s[i..] == line + rest && IsLine(line) && (rest != "" ==> rest[0] == '\n')
    ensures var e := i + |line|;
      && e <= |s| && s[e..] == rest
      && StripFrom(s, i, true) == (if IsNote(line) then "" else line) + StripFrom(s, e, false)
  {
    hide StripFrom, CommentAt, BreakFrom, SpaceEnd, IsLine, IsNote;
    var e := i + |line|;
    assert s[i..e] == s[i..][..|line|] == line && s[e..] == s[i..][|line|..] == rest;
    if e < |s| { assert s[e] == s[e..][0] == rest[0]; }
    NoteIsComment(s, i, e);
    if IsNote(line) {
      CommentGoes(s, i);
    } else {
      StripStep(s, i, true);
      LineIsOne(line);
      LineStays(s, i, line, rest);
    }
  }

  lemma JoinStep(f: seq<string>, c: char)
    requires f != []
    ensures JoinWith(f, c) == if |f| == 1 then f[0] else f[0] + ([c] + JoinWith(f[1..], c))
  {
  }

  /** Of lines with something on them the comments are emptied, wherever they stand, and the others stay. */
  lemma {:induction false} NotesAreStripped(s: string, i: nat, lines: seq<string>)
    requires lines != [] && forall k :: 0 <= k < |lines| ==> IsLine(lines[k])
    requires i <= |s| && s[i..] == JoinWith(lines, '\n')
    ensures StripFrom(s, i, true) == JoinWith(Noteless(lines), '\n')
    decreases |lines|
  {
    hide StripFrom, IsLine, IsNote, JoinWith;
    var line := lines[0];
    var e := i + |line|;
    JoinStep(lines, '\n');
    JoinStep(Noteless(lines), '\n');
    if |lines| == 1 {
      LineIsStripped(s, i, line, "");
      StripEnds(s, false);
    } else {
      var rest := ['\n'] + JoinWith(lines[1..], '\n');
      LineIsStripped(s, i, line, rest);
      assert s[e] == s[e..][0] == '\n' && s[e + 1..] == s[e..][1..] == JoinWith(lines[1..], '\n');
      StripStep(s, e, false);
      NotesAreStripped(s, e + 1, lines[1..]);
      assert Noteless(lines)[1..] == Noteless(lines[1..]);
    }
  }

  // ---- records with a login -----------------------------------------------------------------------

  /** A record's tokens with its login behind the time. */
  function LoginTokens(r: Record): seq<string> {
    [ShowInt(r.time) + "|" + r.login, r.name, ShowInt(|r.checkpoints|)] + Shown(r.checkpoints)
  }

  lemma PipeCuts(time: string, login: string)
    requires Free(time, '|')
    ensures BeforePipe(time + "|" + login) == time && AfterPipe(time + "|" + login) == login
  {
    hide IndexFrom;
    var s := time + "|" + login;
    IndexIs(s, '|', 0, |time|);
    assert s[..|time|] == time && s[|time| + 1..] == login;
  }

  lemma ShownIsFree(n: int)
    ensures Free(ShowInt(n), '|')
  {
  }

  lemma LoginTokensAt(tokens: seq<string>, i: nat, r: Record, rest: seq<string>)
    requires i <= |tokens| && tokens[i..] == LoginTokens(r) + rest
    ensures var next := i + 3 + |r.checkpoints|;
      && next <= |tokens| && tokens[next..] == rest && tokens[i + 3..next] == Shown(r.checkpoints)
      && BeforePipe(tokens[i]) == ShowInt(r.time) && AfterPipe(tokens[i]) == r.login
      && tokens[i + 1] == r.name && tokens[i + 2] == ShowInt(|r.checkpoints|)
  {
    hide ShowInt, BeforePipe, AfterPipe, Shown, Free;
    var t := LoginTokens(r);
    var next := i + 3 + |r.checkpoints|;
    assert forall k :: 0 <= k < |t| ==> tokens[i + k] == tokens[i..][k] == t[k];
    assert tokens[next..] == tokens[i..][3 + |r.checkpoints|..] == rest;
    assert tokens[i + 3..next] == t[3..] == Shown(r.checkpoints);
    ShownIsFree(r.time);
    PipeCuts(ShowInt(r.time), r.login);
  }

  /** The collector takes the login along, the seeder drops it; else both read such a record like a printed one. */
  lemma LoginIsRead(tokens: seq<string>, i: nat, r: Record, rest: seq<string>)
    requires i <= |tokens| && tokens[i..] == LoginTokens(r) + rest && r.time > 0 && r.name != ""
    ensures var next := i + 3 + |r.checkpoints|;
      && next <= |tokens| && tokens[next..] == rest
      && RecordsFrom(tokens, i) == [r.(checkpoints := ClampedAll(r.checkpoints))] + RecordsFrom(tokens, next)
      && (|r.checkpoints| <= MAX_SECTORS ==>
          EntriesFrom(tokens, i) == [Entry(r.time, r.name, r.checkpoints)] + EntriesFrom(tokens, next))
  {
    hide ShowInt, ParseInt, RecordsFrom, EntriesFrom, BeforePipe, AfterPipe, Shown, LoginTokens, ReadCheckpoints, ReadSectors, ClampedAll;
    LoginTokensAt(tokens, i, r, rest);
    CheckpointsReadBack(r.checkpoints);
    SectorsReadBack(r.checkpoints);
    ParseShown(r.time);
    ParseShown(|r.checkpoints|);
    RecordsStep(tokens, i);
    EntriesStep(tokens, i);
  }

  // ---- names --------------------------------------------------------------------------------------

  predicate IsUnquotable(c: char) { c in "\"\r\n\t" }

  lemma {:induction false} DropConcat(a: string, b: string)
    ensures DropUnquotable(a + b) == DropUnquotable(a) + DropUnquotable(b)
  {
    if a != "" {
      assert (a + b)[1..] == a[1..] + b;
      DropConcat(a[1..], b);
    } else {
      assert a + b == b;
    }
  }

  lemma OneGoes(c: char)
    requires IsUnquotable(c)
    ensures DropUnquotable([c]) == ""
  {
    assert [c][1..] == "";
  }

  /** A character that does not fit between quotes leaves no trace in a name. */
  lemma UnquotableGoes(a: string, c: char, b: string)
    requires IsUnquotable(c)
    ensures SanitizeName(a + [c] + b) == SanitizeName(a + b)
  {
    DropConcat(a + [c], b);
    DropConcat(a, [c]);
    DropConcat(a, b);
    hide DropUnquotable;
    OneGoes(c);
  }

  /** A name without such characters stays, up to 64 characters. */
  lemma {:induction false} QuotableStays(name: string)
    requires forall i :: 0 <= i < |name| ==> !IsUnquotable(name[i])
    ensures DropUnquotable(name) == name && SanitizeName(name) == name[..Min(64, |name|)]
  {
    if name != "" { QuotableStays(name[1..]); }
  }
}
