/** ASCII text helpers shared by the name-handling modules (web/db.js, web/censor.js). */
module Text {

  predicate IsDigit(c: char) { '0' <= c <= '9' }

  predicate IsUpper(c: char) { 'A' <= c <= 'Z' }

  predicate IsLower(c: char) { 'a' <= c <= 'z' }

  predicate IsAlnum(c: char) { IsDigit(c) || IsUpper(c) || IsLower(c) }

  /** The ASCII part of JavaScript's white space (`\s`, `trim`). */
  predicate IsSpace(c: char) { c == ' ' || '\t' <= c <= '\r' }

  function LowerChar(c: char): char {
    if IsUpper(c) then c - 'A' + 'a' else c
  }

  function Lower(s: string): (r: string)
    ensures |r| == |s| && forall i :: 0 <= i < |s| ==> r[i] == LowerChar(s[i])
  {
    if s == "" then "" else [LowerChar(s[0])] + Lower(s[1..])
  }

  /** A Warsow colour code `^0`..`^9` starts at position i. */
  predicate ColourAt(s: string, i: nat) {
    i + 1 < |s| && s[i] == '^' && IsDigit(s[i + 1])
  }

  /** `replace(/\^[0-9]/g, "")`: colour codes removed left to right. */
  function StripColours(s: string): string {
    if s == "" then ""
    else if ColourAt(s, 0) then StripColours(s[2..])
    else [s[0]] + StripColours(s[1..])
  }

  function TrimLeft(s: string): string {
    if s != "" && IsSpace(s[0]) then TrimLeft(s[1..]) else s
  }

  function TrimRight(s: string): string {
    if s != "" && IsSpace(s[|s| - 1]) then TrimRight(s[..|s| - 1]) else s
  }

  function Trim(s: string): string { TrimLeft(TrimRight(s)) }

  /** The number of digits at the end of s. */
  function DigitTail(s: string): (n: nat)
    ensures n <= |s|
  {
    if s != "" && IsDigit(s[|s| - 1]) then DigitTail(s[..|s| - 1]) + 1 else 0
  }

  /** JavaScript's `s.split(c)` for a one-character separator. */
  function SplitOn(s: string, c: char): (f: seq<string>)
    ensures f != []
  {
    if s == "" then [""]
    else if s[0] == c then [""] + SplitOn(s[1..], c)
    else var f := SplitOn(s[1..], c); [[s[0]] + f[0]] + f[1..]
  }

  function JoinWith(f: seq<string>, c: char): string
    requires f != []
  {
    if |f| == 1 then f[0] else f[0] + [c] + JoinWith(f[1..], c)
  }

  predicate Free(s: string, c: char) { forall i :: 0 <= i < |s| ==> s[i] != c }

  lemma {:induction false} SplitFree(s: string, c: char)
    requires Free(s, c)
    ensures SplitOn(s, c) == [s]
  {
    if s != "" { SplitFree(s[1..], c); assert [s[0]] + s[1..] == s; }
  }

  /** Splitting distributes over a separator. */
  lemma {:induction false} SplitConcat(a: string, b: string, c: char)
    ensures SplitOn(a + [c] + b, c) == SplitOn(a, c) + SplitOn(b, c)
  {
    var s := a + [c] + b;
    if a == "" {
      assert s[1..] == b;
    } else {
      assert s[1..] == a[1..] + [c] + b;
      SplitConcat(a[1..], b, c);
    }
  }

  lemma {:induction false} JoinSplit(s: string, c: char)
    ensures JoinWith(SplitOn(s, c), c) == s
  {
    if s != "" {
      var f := SplitOn(s[1..], c);
      JoinSplit(s[1..], c);
      if s[0] == c {
        assert SplitOn(s, c)[1..] == f;
      } else if |f| > 1 {
        assert SplitOn(s, c)[1..] == f[1..];
      }
    }
  }
}
