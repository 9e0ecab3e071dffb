/** Masking of player names for display (web/censor.js), over ASCII names. */
module Censor {
  import opened Text

  // ---- the two normal forms -----------------------------------------------------------------------

  /** The positions from i on that are not part of a colour code. */
  function KeptFrom(raw: string, i: nat): (m: seq<nat>)
    requires i <= |raw|
    ensures forall k :: 0 <= k < |m| ==> i <= m[k] < |raw|
    ensures forall j, k :: 0 <= j < k < |m| ==> m[j] < m[k]
    decreases |raw| - i
  {
    if i == |raw| then []
    else if ColourAt(raw, i) then KeptFrom(raw, i + 2)
    else [i] + KeptFrom(raw, i + 1)
  }

  /** Those that hold a letter or a digit. */
  function NormFrom(raw: string, i: nat): (m: seq<nat>)
    requires i <= |raw|
    ensures forall k :: 0 <= k < |m| ==> i <= m[k] < |raw|
    decreases |raw| - i
  {
    if i == |raw| then []
    else if ColourAt(raw, i) then NormFrom(raw, i + 2)
    else if IsAlnum(raw[i]) then [i] + NormFrom(raw, i + 1)
    else NormFrom(raw, i + 1)
  }

  /** The characters at the given positions, in lower case. */
  function LowerAt(raw: string, m: seq<nat>): (s: string)
    requires forall k :: 0 <= k < |m| ==> m[k] < |raw|
    ensures |s| == |m| && forall k :: 0 <= k < |m| ==> s[k] == LowerChar(raw[m[k]])
  {
    seq(|m|, k requires 0 <= k < |m| => LowerChar(raw[m[k]]))
  }

  function Leet(c: char): char {
    if c == '0' then 'o' else if c == '1' then 'i' else if c == '3' then 'e'
    else if c == '4' then 'a' else if c == '5' then 's' else if c == '7' then 't' else c
  }

  function FoldLeet(s: string): (r: string)
    ensures |r| == |s| && forall k :: 0 <= k < |s| ==> r[k] == Leet(s[k])
  {
    if s == "" then "" else [Leet(s[0])] + FoldLeet(s[1..])
  }

  /** Exactly six digits are read as letters. */
  lemma LeetIs(c: char)
    ensures Leet(c) != c <==> c in "013457"
    ensures FoldLeet("013457") == "oieast"
  {
    hide FoldLeet;
    var r := FoldLeet("013457");
    assert |r| == 6 && r[0] == 'o' && r[1] == 'i' && r[2] == 'e' && r[3] == 'a' && r[4] == 's' && r[5] == 't';
  }

  method NormIndex(raw: string) returns (norm: string, positions: seq<nat>)
    ensures positions == NormFrom(raw, 0) && norm == LowerAt(raw, positions)
  {
    norm, positions := "", [];
    var i := 0;
    while i < |raw|
      invariant i <= |raw| && positions + NormFrom(raw, i) == NormFrom(raw, 0)
      invariant |norm| == |positions| && forall k :: 0 <= k < |norm| ==> positions[k] < |raw| && norm[k] == LowerChar(raw[positions[k]])
      decreases |raw| - i
    {
      NormStep(raw, i);
      if ColourAt(raw, i) {
        i := i + 2;
      } else {
        if IsAlnum(raw[i]) {
          assert (positions + [i]) + NormFrom(raw, i + 1) == positions + ([i] + NormFrom(raw, i + 1));
          norm, positions := norm + [LowerChar(raw[i])], positions + [i];
        }
        i := i + 1;
      }
    }
  }

  lemma NormStep(raw: string, i: nat)
    requires i < |raw|
    ensures ColourAt(raw, i) ==> NormFrom(raw, i) == NormFrom(raw, i + 2)
    ensures !ColourAt(raw, i) && IsAlnum(raw[i]) ==> NormFrom(raw, i) == [i] + NormFrom(raw, i + 1)
    ensures !ColourAt(raw, i) && !IsAlnum(raw[i]) ==> NormFrom(raw, i) == NormFrom(raw, i + 1)
  {
  }

  method SimpIndex(raw: string) returns (simp: string, positions: seq<nat>)
    ensures positions == KeptFrom(raw, 0) && simp == LowerAt(raw, positions)
  {
    simp, positions := "", [];
    var i := 0;
    while i < |raw|
      invariant i <= |raw| && positions + KeptFrom(raw, i) == KeptFrom(raw, 0)
      invariant |simp| == |positions| && forall k :: 0 <= k < |simp| ==> positions[k] < |raw| && simp[k] == LowerChar(raw[positions[k]])
      decreases |raw| - i
    {
      if ColourAt(raw, i) {
        i := i + 2;
      } else {
        assert (positions + [i]) + KeptFrom(raw, i + 1) == positions + ([i] + KeptFrom(raw, i + 1));
        simp, positions := simp + [LowerChar(raw[i])], positions + [i];
        i := i + 1;
      }
    }
  }

  /** The stripped form of a name is its characters outside colour codes. */
  lemma {:induction false} StripIsKept(raw: string, i: nat)
    requires i <= |raw|
    ensures StripColours(raw[i..]) == CharsAt(raw, KeptFrom(raw, i))
    decreases |raw| - i
  {
    if i < |raw| {
      var s := raw[i..];
      assert ColourAt(s, 0) <==> ColourAt(raw, i);
      if ColourAt(raw, i) {
        assert s[2..] == raw[i + 2..];
        StripIsKept(raw, i + 2);
      } else {
        assert s[1..] == raw[i + 1..] && s[0] == raw[i];
        StripIsKept(raw, i + 1);
        CharsCons(raw, i, KeptFrom(raw, i + 1));
      }
    }
  }

  /** The characters at the given positions. */
  function CharsAt(raw: string, m: seq<nat>): (s: string)
    requires forall k :: 0 <= k < |m| ==> m[k] < |raw|
    ensures |s| == |m| && forall k :: 0 <= k < |m| ==> s[k] == raw[m[k]]
  {
    seq(|m|, k requires 0 <= k < |m| => raw[m[k]])
  }

  lemma CharsCons(raw: string, i: nat, m: seq<nat>)
    requires i < |raw| && forall k :: 0 <= k < |m| ==> m[k] < |raw|
    ensures CharsAt(raw, [i] + m) == [raw[i]] + CharsAt(raw, m)
  {
  }

  /** A position is a letter or digit outside colour codes exactly when the aggressive normal form has it. */
  lemma {:induction false} NormIsKeptAlnum(raw: string, i: nat, p: nat)
    requires i <= |raw|
    ensures p in NormFrom(raw, i) <==> p in KeptFrom(raw, i) && IsAlnum(raw[p])
    decreases |raw| - i
  {
    if i < |raw| {
      if ColourAt(raw, i) { NormIsKeptAlnum(raw, i + 2, p); } else { NormIsKeptAlnum(raw, i + 1, p); }
    }
  }

  // ---- occurrences -----------------------------------------------------------------------------------

  predicate OccursAt(hay: string, term: string, at: nat) { at + |term| <= |hay| && hay[at..at + |term|] == term }

  /** Position k of hay lies in an occurrence of the term. */
  ghost predicate InTerm(hay: string, term: string, k: nat) {
    exists at: nat :: OccursAt(hay, term, at) && at <= k < at + |term|
  }

  ghost predicate Occurs(hay: string, term: string) { exists at: nat :: OccursAt(hay, term, at) }

  /** `hay.indexOf(term, from)`, or the length when there is none. */
  function IndexOf(hay: string, term: string, from: nat): (at: nat)
    requires term != "" && from <= |hay|
    ensures from <= at <= |hay| && (at < |hay| ==> OccursAt(hay, term, at))
    ensures forall b: nat :: from <= b < at ==> !OccursAt(hay, term, b)
    ensures at == |hay| ==> forall b: nat :: b >= from ==> !OccursAt(hay, term, b)
    decreases |hay| - from
  {
    if from == |hay| || OccursAt(hay, term, from) then from else IndexOf(hay, term, from + 1)
  }

  /** The raw positions of the characters of hay[from..to). */
  function Places(positions: seq<nat>, from: nat, to: nat): (s: set<nat>)
    requires from <= to <= |positions|
    ensures forall p :: p in s <==> exists k: nat :: from <= k < to && positions[k] == p
  {
    set k: nat | from <= k < to :: positions[k]
  }

  ghost predicate TermHits(hay: string, term: string, positions: seq<nat>, p: nat)
    requires |positions| == |hay|
  {
    exists k: nat :: k < |hay| && positions[k] == p && InTerm(hay, term, k)
  }

  ghost predicate MarkedBy(hay: string, term: string, positions: seq<nat>, p: nat, k: nat, at: nat)
    requires |positions| == |hay|
  {
    k < |hay| && positions[k] == p && OccursAt(hay, term, at) && at <= k < at + |term|
  }

  /** `marked` holds what the occurrences before `from` mark. */
  ghost predicate MarksBefore(marked: set<nat>, hay: string, term: string, positions: seq<nat>, from: nat)
    requires |positions| == |hay|
  {
    forall p :: p in marked <==> exists k: nat, at: nat :: MarkedBy(hay, term, positions, p, k, at) && at < from
  }

  /** The search loop of one term: overlaps allowed, every occurrence found. */
  method MarkTerm(hay: string, term: string, positions: seq<nat>) returns (marked: set<nat>, hit: bool)
    requires |positions| == |hay| && term != ""
    ensures forall p :: p in marked <==> TermHits(hay, term, positions, p)
    ensures hit <==> Occurs(hay, term)
  {
    hide MarksBefore, TermHits, OccursAt;
    marked, hit := {}, false;
    var from: nat := 0;
    MarksNothing(hay, term, positions);
    while from <= |hay|
      invariant from <= |hay| && MarksBefore(marked, hay, term, positions, from)
      invariant hit <==> exists at: nat :: at < from && OccursAt(hay, term, at)
      decreases |hay| - from
    {
      var at := IndexOf(hay, term, from);
      if at == |hay| { break; }
      OccursWithin(hay, term, at);
      MarkOne(hay, term, positions, marked, from, at);
      marked := marked + Places(positions, at, at + |term|);
      hit := true;
      from := at + 1;
    }
    MarksAreHits(hay, term, positions, marked, from);
  }

  lemma MarksNothing(hay: string, term: string, positions: seq<nat>)
    requires |positions| == |hay|
    ensures MarksBefore({}, hay, term, positions, 0)
  {
  }

  lemma MarkOne(hay: string, term: string, positions: seq<nat>, marked: set<nat>, from: nat, at: nat)
    requires |positions| == |hay| && from <= at && OccursAt(hay, term, at) && at + |term| <= |hay|
    requires forall b: nat :: from <= b < at ==> !OccursAt(hay, term, b)
    requires MarksBefore(marked, hay, term, positions, from)
    ensures MarksBefore(marked + Places(positions, at, at + |term|), hay, term, positions, at + 1)
  {
    hide OccursAt;
    var s := Places(positions, at, at + |term|);
    forall p ensures p in s <==> exists k: nat :: MarkedBy(hay, term, positions, p, k, at) {
      if p in s {
        var k: nat :| at <= k < at + |term| && positions[k] == p;
        assert MarkedBy(hay, term, positions, p, k, at);
      }
    }
  }

  lemma OccursWithin(hay: string, term: string, at: nat)
    requires OccursAt(hay, term, at)
    ensures at + |term| <= |hay|
  {
  }

  lemma MarksAreHits(hay: string, term: string, positions: seq<nat>, marked: set<nat>, from: nat)
    requires |positions| == |hay| && MarksBefore(marked, hay, term, positions, from)
    requires forall b: nat :: b >= from ==> !OccursAt(hay, term, b)
    ensures forall p :: p in marked <==> TermHits(hay, term, positions, p)
  {
    hide OccursAt;
    forall p ensures p in marked <==> TermHits(hay, term, positions, p) {
      if p in marked {
        var k: nat, b: nat :| MarkedBy(hay, term, positions, p, k, b) && b < from;
        assert InTerm(hay, term, k);
      }
      if TermHits(hay, term, positions, p) {
        var k: nat :| k < |hay| && positions[k] == p && InTerm(hay, term, k);
        var b: nat :| OccursAt(hay, term, b) && b <= k < b + |term|;
        assert MarkedBy(hay, term, positions, p, k, b) && b < from;
      }
    }
  }

  // ---- whole words --------------------------------------------------------------------------------------

  /** The class [a-z0-9]. */
  predicate IsLow(c: char) { IsDigit(c) || IsLower(c) }

  predicate LowWord(w: string) { w != "" && forall k :: 0 <= k < |w| ==> IsLow(w[k]) }

  predicate LowWords(words: seq<string>) { forall i :: 0 <= i < |words| ==> LowWord(words[i]) }

  /** The regular expression matches the word w at p: no letter or digit just before or just after it. */
  predicate WordAt(s: string, w: string, p: nat) {
    && OccursAt(s, w, p)
    && (p == 0 || !IsLow(s[p - 1]))
    && (p + |w| == |s| || !IsLow(s[p + |w|]))
  }

  /** A maximal run of letters and digits. */
  predicate MaximalRun(s: string, p: nat, q: nat) {
    && p < q <= |s|
    && (forall k :: p <= k < q ==> IsLow(s[k]))
    && (p == 0 || !IsLow(s[p - 1]))
    && (q == |s| || !IsLow(s[q]))
  }

  /** For a word of letters and digits the look-arounds say exactly that it is a maximal run. */
  lemma WordIsRun(s: string, w: string, p: nat)
    requires LowWord(w)
    ensures WordAt(s, w, p) <==> MaximalRun(s, p, p + |w|) && s[p..p + |w|] == w
  {
    if OccursAt(s, w, p) {
      forall k | p <= k < p + |w| ensures IsLow(s[k]) { assert s[p..p + |w|][k - p] == w[k - p]; }
    }
  }

  lemma RunsAreDisjoint(s: string, p: nat, q: nat, p': nat, q': nat)
    requires MaximalRun(s, p, q) && MaximalRun(s, p', q') && p <= p' < q
    ensures p == p' && q == q'
  {
  }

  ghost predicate InWord(s: string, words: seq<string>, k: nat) {
    exists p: nat, w :: w in words && WordAt(s, w, p) && p <= k < p + |w|
  }

  /** Word mode covers exactly the maximal runs that are a term. */
  lemma InWordIff(s: string, words: seq<string>, k: nat)
    requires LowWords(words)
    ensures InWord(s, words, k)
            <==> exists p: nat, q: nat :: MaximalRun(s, p, q) && p <= k < q && RunWord(s, p, q, words)
  {
    hide WordAt, MaximalRun;
    if InWord(s, words, k) {
      var p: nat, w :| w in words && WordAt(s, w, p) && p <= k < p + |w|;
      WordIsRun(s, w, p);
      RunWithin(s, p, p + |w|);
      assert MaximalRun(s, p, p + |w|) && RunWord(s, p, p + |w|, words);
    }
    if p: nat, q: nat :| MaximalRun(s, p, q) && p <= k < q && RunWord(s, p, q, words) {
      RunWithin(s, p, q);
      WordIsRun(s, s[p..q], p);
      assert WordAt(s, s[p..q], p);
    }
  }

  predicate RunWord(s: string, p: nat, q: nat, words: seq<string>) { p <= q <= |s| && s[p..q] in words }

  lemma RunWithin(s: string, p: nat, q: nat)
    requires MaximalRun(s, p, q)
    ensures p < q <= |s|
  {
  }

  /** The first word of the alternation that matches at p, or the empty string. */
  function WordStarting(s: string, words: seq<string>, p: nat): (w: string)
    ensures w != "" ==> w in words && WordAt(s, w, p)
  {
    if words == [] then "" else if words[0] != "" && WordAt(s, words[0], p) then words[0] else WordStarting(s, words[1..], p)
  }

  lemma {:induction false} WordStartingIs(s: string, words: seq<string>, p: nat, w: string)
    requires LowWords(words) && w in words && WordAt(s, w, p)
    ensures WordStarting(s, words, p) == w
  {
    hide WordAt;
    var i :| 0 <= i < |words| && words[i] == w;
    if words[0] != w {
      if WordAt(s, words[0], p) { SameStartSameWord(s, words[0], w, p); }
      assert words[1..][i - 1] == w;
      WordStartingIs(s, words[1..], p, w);
    }
  }

  lemma SameStartSameWord(s: string, v: string, w: string, p: nat)
    requires LowWord(v) && LowWord(w) && WordAt(s, v, p) && WordAt(s, w, p)
    ensures v == w
  {
    WordIsRun(s, v, p);
    WordIsRun(s, w, p);
    RunsAreDisjoint(s, p, p + |v|, p, p + |w|);
  }

  /** The next match of the regular expression from `from` on: its start, or the length. */
  function NextMatch(s: string, words: seq<string>, from: nat): (p: nat)
    requires from <= |s|
    ensures from <= p <= |s|
    ensures p < |s| ==> WordStarting(s, words, p) != ""
    ensures forall b :: from <= b < p ==> WordStarting(s, words, b) == ""
    decreases |s| - from
  {
    if from == |s| || WordStarting(s, words, from) != "" then from else NextMatch(s, words, from + 1)
  }

  ghost predicate WordHits(s: string, words: seq<string>, positions: seq<nat>, p: nat)
    requires |positions| == |s|
  {
    exists k: nat :: k < |s| && positions[k] == p && InWord(s, words, k)
  }

  /** w matches somewhere. */
  ghost predicate WordOccurs(s: string, w: string) { exists p: nat :: WordAt(s, w, p) }

  ghost predicate WordMarked(s: string, words: seq<string>, positions: seq<nat>, p: nat, k: nat, at: nat)
    requires |positions| == |s|
  {
    k < |s| && positions[k] == p && WordStarting(s, words, at) != "" && at <= k < at + |WordStarting(s, words, at)|
  }

  ghost predicate WordsMarkedBefore(marked: set<nat>, hits: set<string>, s: string, words: seq<string>, positions: seq<nat>, from: nat)
    requires |positions| == |s|
  {
    && (forall p :: p in marked <==> exists k: nat, at: nat :: WordMarked(s, words, positions, p, k, at) && at < from)
    && (forall w :: w in hits <==> w != "" && exists at: nat :: at < from && WordStarting(s, words, at) == w)
  }

  /** The matching loop of the regular expression, which goes on behind each match. */
  method MarkWords(s: string, words: seq<string>, positions: seq<nat>) returns (marked: set<nat>, hits: set<string>)
    requires |positions| == |s| && LowWords(words)
    ensures forall p :: p in marked <==> WordHits(s, words, positions, p)
    ensures forall w :: w in hits <==> w in words && WordOccurs(s, w)
  {
    hide WordsMarkedBefore, WordHits, WordOccurs, WordAt;
    marked, hits := {}, {};
    var lastIndex: nat := 0;
    WordsMarkNothing(s, words, positions);
    while true
      invariant lastIndex <= |s| && WordsMarkedBefore(marked, hits, s, words, positions, lastIndex)
      decreases |s| - lastIndex
    {
      var p := NextMatch(s, words, lastIndex);
      if p == |s| { break; }
      var w := WordStarting(s, words, p);
      WordWithin(s, w, p);
      MarkWord(s, words, positions, marked, hits, lastIndex, p);
      marked := marked + Places(positions, p, p + |w|);
      hits := hits + {w};
      lastIndex := p + |w|;
    }
    WordMarksAreHits(s, words, positions, marked, hits, lastIndex);
  }

  lemma WordsMarkNothing(s: string, words: seq<string>, positions: seq<nat>)
    requires |positions| == |s|
    ensures WordsMarkedBefore({}, {}, s, words, positions, 0)
  {
  }

  lemma WordWithin(s: string, w: string, p: nat)
    requires WordAt(s, w, p)
    ensures p + |w| <= |s|
  {
  }

  /** Behind the start of a match no other match starts before its end. */
  lemma NoMatchInside(s: string, words: seq<string>, p: nat, b: nat)
    requires LowWords(words) && WordStarting(s, words, p) != "" && p < b < p + |WordStarting(s, words, p)|
    ensures WordStarting(s, words, b) == ""
  {
    hide WordAt, WordStarting, MaximalRun;
    var v, w := WordStarting(s, words, p), WordStarting(s, words, b);
    if w != "" {
      LowWordIn(words, v);
      LowWordIn(words, w);
      WordIsRun(s, v, p);
      WordIsRun(s, w, b);
      RunsAreDisjoint(s, p, p + |v|, b, b + |w|);
    }
  }

  lemma LowWordIn(words: seq<string>, w: string)
    requires LowWords(words) && w in words
    ensures LowWord(w)
  {
  }

  lemma MarkWord(s: string, words: seq<string>, positions: seq<nat>, marked: set<nat>, hits: set<string>, from: nat, at: nat)
    requires |positions| == |s| && LowWords(words) && from <= at && WordsMarkedBefore(marked, hits, s, words, positions, from)
    requires WordStarting(s, words, at) != "" && at + |WordStarting(s, words, at)| <= |s|
    requires forall b :: from <= b < at ==> WordStarting(s, words, b) == ""
    ensures var w := WordStarting(s, words, at);
      WordsMarkedBefore(marked + Places(positions, at, at + |w|), hits + {w}, s, words, positions, at + |w|)
  {
    hide WordAt, WordStarting;
    var w := WordStarting(s, words, at);
    var places := Places(positions, at, at + |w|);
    forall b | from <= b < at + |w| && b != at ensures WordStarting(s, words, b) == "" {
      if b > at { NoMatchInside(s, words, at, b); }
    }
    forall p ensures p in places <==> exists k: nat :: WordMarked(s, words, positions, p, k, at) {
      if p in places {
        var k: nat :| at <= k < at + |w| && positions[k] == p;
        assert WordMarked(s, words, positions, p, k, at);
      }
    }
  }

  lemma WordMarksAreHits(s: string, words: seq<string>, positions: seq<nat>, marked: set<nat>, hits: set<string>,
                         from: nat)
    requires |positions| == |s| && LowWords(words) && WordsMarkedBefore(marked, hits, s, words, positions, from)
    requires forall b :: from <= b < |s| ==> WordStarting(s, words, b) == ""
    ensures forall p :: p in marked <==> WordHits(s, words, positions, p)
    ensures forall w :: w in hits <==> w in words && WordOccurs(s, w)
  {
    hide WordAt, WordStarting;
    forall w, at: nat | w in words && WordAt(s, w, at) ensures WordStarting(s, words, at) == w && at < |s| && w != "" {
      LowWordIn(words, w);
      WordStartingIs(s, words, at, w);
      WordWithin(s, w, at);
    }
    forall p ensures p in marked <==> WordHits(s, words, positions, p) {
      if p in marked {
        var k: nat, at: nat :| WordMarked(s, words, positions, p, k, at) && at < from;
        assert InWord(s, words, k);
      }
      if WordHits(s, words, positions, p) {
        var k: nat :| k < |s| && positions[k] == p && InWord(s, words, k);
        var at: nat, w :| w in words && WordAt(s, w, at) && at <= k < at + |w|;
        assert WordMarked(s, words, positions, p, k, at);
      }
    }
  }

  // ---- the matcher ----------------------------------------------------------------------------------------

  /** A row of the word list. */
  datatype Term = Term(term: string, wordMode: bool)

  function KeepLow(s: string): (r: string)
    ensures forall k :: 0 <= k < |r| ==> IsLow(r[k])
  {
    if s == "" then "" else if IsLow(s[0]) then [s[0]] + KeepLow(s[1..]) else KeepLow(s[1..])
  }

  function NormalizeTerm(term: string): string { KeepLow(Lower(term)) }

  lemma {:induction false} KeepLowConcat(a: string, b: string)
    ensures KeepLow(a + b) == KeepLow(a) + KeepLow(b)
  {
    if a == "" {
      assert a + b == b;
    } else {
      assert (a + b)[1..] == a[1..] + b;
      KeepLowConcat(a[1..], b);
    }
  }

  lemma {:induction false} KeepLowAll(s: string)
    requires forall k :: 0 <= k < |s| ==> IsLow(s[k])
    ensures KeepLow(s) == s
  {
    if s != "" { KeepLowAll(s[1..]); }
  }

  /** A normalised term is its letters and digits in lower case, in order: pieces are normalised one by one, a letter
      or digit becomes its lower case, and any other character nothing. */
  lemma NormalizeIs(a: string, c: char, b: string)
    ensures NormalizeTerm(a + [c] + b) == NormalizeTerm(a) + (if IsAlnum(c) then [LowerChar(c)] else "") + NormalizeTerm(b)
    ensures NormalizeTerm("") == ""
  {
    hide Lower, KeepLow;
    assert Lower(a + [c] + b) == Lower(a) + [LowerChar(c)] + Lower(b);
    KeepLowConcat(Lower(a) + [LowerChar(c)], Lower(b));
    KeepLowConcat(Lower(a), [LowerChar(c)]);
    KeepOne(LowerChar(c));
    assert Lower("") == "";
    KeepLowAll("");
  }

  lemma KeepOne(c: char)
    ensures KeepLow([c]) == if IsLow(c) then [c] else ""
  {
    assert [c][1..] == "";
  }

  /** The two lists of the matcher; terms with nothing left are dropped. */
  method BuildMatcher(terms: seq<Term>) returns (norm: seq<string>, word: seq<string>)
    ensures LowWords(norm) && LowWords(word)
    ensures forall w :: w in norm <==> w != "" && exists t :: t in terms && !t.wordMode && NormalizeTerm(t.term) == w
    ensures forall w :: w in word <==> w != "" && exists t :: t in terms && t.wordMode && NormalizeTerm(t.term) == w
  {
    hide Lower, KeepLow;
    norm, word := [], [];
    for i := 0 to |terms|
      invariant LowWords(norm) && LowWords(word)
      invariant forall w :: w in norm <==> w != "" && exists t :: t in terms[..i] && !t.wordMode && NormalizeTerm(t.term) == w
      invariant forall w :: w in word <==> w != "" && exists t :: t in terms[..i] && t.wordMode && NormalizeTerm(t.term) == w
    {
      assert terms[..i + 1] == terms[..i] + [terms[i]];
      var key := NormalizeTerm(terms[i].term);
      if key != "" {
        if terms[i].wordMode { word := word + [key]; } else { norm := norm + [key]; }
      }
    }
    assert terms[..|terms|] == terms;
  }

  function Norm(raw: string): string { LowerAt(raw, NormFrom(raw, 0)) }

  function Simp(raw: string): string { LowerAt(raw, KeptFrom(raw, 0)) }

  /** Position p of the name is a letter of a norm term in the stripped form, read literally or leet-folded. */
  ghost predicate NormOffends(raw: string, norm: seq<string>, p: nat) {
    || (exists t :: t in norm && TermHits(Norm(raw), t, NormFrom(raw, 0), p))
    || (exists t :: t in norm && TermHits(FoldLeet(Norm(raw)), t, NormFrom(raw, 0), p))
  }

  /** Position p is a letter of a whole word of the simplified form, read literally or leet-folded. */
  ghost predicate WordOffends(raw: string, word: seq<string>, p: nat) {
    WordHits(Simp(raw), word, KeptFrom(raw, 0), p) || WordHits(FoldLeet(Simp(raw)), word, KeptFrom(raw, 0), p)
  }

  ghost predicate Trips(raw: string, norm: seq<string>, word: seq<string>, t: string) {
    || (t in norm && (Occurs(Norm(raw), t) || Occurs(FoldLeet(Norm(raw)), t)))
    || (t in word && (WordOccurs(Simp(raw), t) || WordOccurs(FoldLeet(Simp(raw)), t)))
  }

  predicate NonEmptyTerms(terms: seq<string>) { forall i :: 0 <= i < |terms| ==> terms[i] != "" }

  /** The loop over the terms for one form of the name. */
  method MarkTerms(hay: string, terms: seq<string>, positions: seq<nat>) returns (marked: set<nat>, hits: set<string>)
    requires |positions| == |hay| && NonEmptyTerms(terms)
    ensures forall p :: p in marked <==> exists t :: t in terms && TermHits(hay, t, positions, p)
    ensures forall t :: t in hits <==> t in terms && Occurs(hay, t)
  {
    hide TermHits, Occurs;
    marked, hits := {}, {};
    for i := 0 to |terms|
      invariant forall p :: p in marked <==> exists t :: t in terms[..i] && TermHits(hay, t, positions, p)
      invariant forall t :: t in hits <==> t in terms[..i] && Occurs(hay, t)
    {
      assert terms[..i + 1] == terms[..i] + [terms[i]];
      var more, hit := MarkTerm(hay, terms[i], positions);
      marked := marked + more;
      if hit { hits := hits + {terms[i]}; }
    }
    assert terms[..|terms|] == terms;
  }

  method Collect(raw: string, norm: seq<string>, word: seq<string>) returns (toMask: set<nat>, hitTerms: set<string>)
    requires NonEmptyTerms(norm) && LowWords(word)
    ensures forall p :: p in toMask <==> NormOffends(raw, norm, p) || WordOffends(raw, word, p)
    ensures forall t :: t in hitTerms <==> Trips(raw, norm, word, t)
  {
    hide TermHits, Occurs, WordHits, WordOccurs, LowerAt, NormFrom, KeptFrom, FoldLeet;
    toMask, hitTerms := {}, {};
    if norm != [] {
      var n, places := NormIndex(raw);
      var marked, hits := MarkTerms(n, norm, places);
      toMask, hitTerms := marked, hits;
      if n != FoldLeet(n) {
        marked, hits := MarkTerms(FoldLeet(n), norm, places);
        toMask, hitTerms := toMask + marked, hitTerms + hits;
      }
    }
    label Words:
    if word != [] {
      var simp, places := SimpIndex(raw);
      var marked, hits := MarkWords(simp, word, places);
      var folded, foldedHits := MarkWords(FoldLeet(simp), word, places);
      toMask, hitTerms := toMask + marked + folded, hitTerms + hits + foldedHits;
    } else {
      NoWords(raw);
    }
  }

  lemma NoWords(raw: string)
    ensures forall p :: !WordOffends(raw, [], p)
  {
  }

  // ---- masking ----------------------------------------------------------------------------------------------

  function StarAt(raw: string, s: set<nat>): (r: string)
    ensures |r| == |raw|
  {
    seq(|raw|, i requires 0 <= i < |raw| => if i in s then '*' else raw[i])
  }

  method StarIndices(raw: string, s: set<nat>) returns (out: string)
    ensures out == StarAt(raw, s)
  {
    out := "";
    for i: nat := 0 to |raw|
      invariant out == StarAt(raw, s)[..i]
    {
      out := out + [if i in s then '*' else raw[i]];
    }
  }

  /** The name with a star exactly at each offending position. */
  ghost function Masked(raw: string, norm: seq<string>, word: seq<string>): (r: string)
    ensures |r| == |raw|
  {
    seq(|raw|, p requires 0 <= p < |raw| => if NormOffends(raw, norm, p) || WordOffends(raw, word, p) then '*' else raw[p])
  }

  method Mask(raw: string, norm: seq<string>, word: seq<string>) returns (name: string, hit: bool)
    requires NonEmptyTerms(norm) && LowWords(word)
    ensures name == Masked(raw, norm, word)
    ensures hit <==> exists p: nat :: NormOffends(raw, norm, p) || WordOffends(raw, word, p)
  {
    hide NormOffends, WordOffends;
    var toMask, hitTerms := Collect(raw, norm, word);
    if toMask == {} {
      assert raw == Masked(raw, norm, word);
      return raw, false;
    }
    name := StarIndices(raw, toMask);
    assert name == Masked(raw, norm, word);
    hit := true;
    var p :| p in toMask;
    assert NormOffends(raw, norm, p) || WordOffends(raw, word, p);
  }

  /** Only letters and digits outside colour codes offend. */
  lemma OffendersAreLetters(raw: string, norm: seq<string>, word: seq<string>, p: nat)
    requires LowWords(word) && (NormOffends(raw, norm, p) || WordOffends(raw, word, p))
    ensures p in NormFrom(raw, 0)
  {
    hide WordOffends, NormFrom, InTerm, LowerAt;
    if NormOffends(raw, norm, p) {
      assert exists k: nat :: k < |NormFrom(raw, 0)| && NormFrom(raw, 0)[k] == p;
    } else {
      WordOffendersAreLetters(raw, word, p);
    }
  }

  lemma WordOffendersAreLetters(raw: string, word: seq<string>, p: nat)
    requires LowWords(word) && WordOffends(raw, word, p)
    ensures p in NormFrom(raw, 0)
  {
    hide InWord, KeptFrom, NormFrom, FoldLeet, LowerAt;
    var m := KeptFrom(raw, 0);
    var k: nat :| k < |m| && m[k] == p && (InWord(Simp(raw), word, k) || InWord(FoldLeet(Simp(raw)), word, k));
    if InWord(Simp(raw), word, k) { InWordIsLow(Simp(raw), word, k); } else { InWordIsLow(FoldLeet(Simp(raw)), word, k); }
    assert Simp(raw)[k] == LowerChar(raw[p]);
    NormIsKeptAlnum(raw, 0, p);
  }

  lemma InWordIsLow(s: string, words: seq<string>, k: nat)
    requires LowWords(words) && InWord(s, words, k)
    ensures k < |s| && IsLow(s[k])
  {
    hide WordAt;
    var p: nat, w :| w in words && WordAt(s, w, p) && p <= k < p + |w|;
    LowWordIn(words, w);
    WordIsRun(s, w, p);
  }

  lemma TripMarks(hay: string, t: string, positions: seq<nat>) returns (p: nat)
    requires |positions| == |hay| && t != "" && Occurs(hay, t)
    ensures TermHits(hay, t, positions, p)
  {
    var at: nat :| OccursAt(hay, t, at);
    p := positions[at];
    assert InTerm(hay, t, at);
  }

  lemma WordTripMarks(s: string, words: seq<string>, w: string, positions: seq<nat>) returns (p: nat)
    requires |positions| == |s| && LowWords(words) && w in words && WordOccurs(s, w)
    ensures WordHits(s, words, positions, p)
  {
    hide WordAt;
    var at: nat :| WordAt(s, w, at);
    LowWordIn(words, w);
    WordWithin(s, w, at);
    p := positions[at];
    assert InWord(s, words, at);
  }

  /** A term that trips has an offending position. */
  lemma TripOffends(raw: string, norm: seq<string>, word: seq<string>, t: string) returns (p: nat)
    requires NonEmptyTerms(norm) && LowWords(word) && Trips(raw, norm, word, t)
    ensures NormOffends(raw, norm, p) || WordOffends(raw, word, p)
  {
    hide Norm, Simp, KeptFrom, NormFrom, FoldLeet, Occurs, WordOccurs, TermHits, WordHits;
    FormsMatch(raw);
    if t in norm && Occurs(Norm(raw), t) { p := TripMarks(Norm(raw), t, NormFrom(raw, 0)); }
    else if t in norm && Occurs(FoldLeet(Norm(raw)), t) { p := TripMarks(FoldLeet(Norm(raw)), t, NormFrom(raw, 0)); }
    else if WordOccurs(Simp(raw), t) { p := WordTripMarks(Simp(raw), word, t, KeptFrom(raw, 0)); }
    else { p := WordTripMarks(FoldLeet(Simp(raw)), word, t, KeptFrom(raw, 0)); }
  }

  lemma FormsMatch(raw: string)
    ensures |Norm(raw)| == |NormFrom(raw, 0)| && |Simp(raw)| == |KeptFrom(raw, 0)|
  {
  }

  /** An offending position is in a term that trips. */
  lemma OffenderTrips(raw: string, norm: seq<string>, word: seq<string>, p: nat)
    requires NormOffends(raw, norm, p) || WordOffends(raw, word, p)
    ensures exists t :: Trips(raw, norm, word, t)
  {
    hide Norm, Simp, KeptFrom, NormFrom, FoldLeet, OccursAt, WordAt;
    if NormOffends(raw, norm, p) {
      var t :| t in norm && (Occurs(Norm(raw), t) || Occurs(FoldLeet(Norm(raw)), t));
      assert Trips(raw, norm, word, t);
    } else {
      var t :| t in word && (WordOccurs(Simp(raw), t) || WordOccurs(FoldLeet(Simp(raw)), t));
      assert Trips(raw, norm, word, t);
    }
  }

  /** Masking leaves a name alone exactly when no term trips on it. */
  lemma MaskIsStableIff(name: string, norm: seq<string>, word: seq<string>)
    requires NonEmptyTerms(norm) && LowWords(word)
    ensures Masked(name, norm, word) == name <==> forall t :: !Trips(name, norm, word, t)
  {
    hide Trips, NormOffends, WordOffends, NormFrom, KeptFrom;
    var out := Masked(name, norm, word);
    if t :| Trips(name, norm, word, t) {
      var p := TripOffends(name, norm, word, t);
      OffendersAreLetters(name, norm, word, p);
      NormIsKeptAlnum(name, 0, p);
      assert out[p] == '*' != name[p];
    } else {
      forall p: nat | p < |name| ensures out[p] == name[p] {
        if NormOffends(name, norm, p) || WordOffends(name, word, p) { OffenderTrips(name, norm, word, p); }
      }
    }
  }

  /** The digit of a colour code is never kept. */
  lemma {:induction false} CodeIsNotKept(raw: string, from: nat, i: nat)
    requires from <= i && ColourAt(raw, i)
    ensures i + 1 !in KeptFrom(raw, from)
    decreases i - from
  {
    if from < i {
      if ColourAt(raw, from) {
        assert i != from + 1;
        CodeIsNotKept(raw, from + 2, i);
      } else {
        CodeIsNotKept(raw, from + 1, i);
      }
    }
  }

  lemma {:induction false} SameCodesSameKept(a: string, b: string, i: nat)
    requires |a| == |b| && i <= |a| && forall k: nat :: ColourAt(a, k) <==> ColourAt(b, k)
    ensures KeptFrom(a, i) == KeptFrom(b, i)
    decreases |a| - i
  {
    if i < |a| {
      if ColourAt(a, i) { SameCodesSameKept(a, b, i + 2); } else { SameCodesSameKept(a, b, i + 1); }
    }
  }

  /** Starring letters and digits outside colour codes keeps the length and every colour code, and makes none. */
  lemma StarsKeepCodes(raw: string, s: set<nat>)
    requires forall p :: p in s ==> p in NormFrom(raw, 0)
    ensures |StarAt(raw, s)| == |raw|
    ensures forall i: nat :: ColourAt(StarAt(raw, s), i) <==> ColourAt(raw, i)
    ensures KeptFrom(StarAt(raw, s), 0) == KeptFrom(raw, 0)
  {
    hide KeptFrom, NormFrom;
    var out := StarAt(raw, s);
    forall i: nat ensures ColourAt(out, i) <==> ColourAt(raw, i) {
      if ColourAt(raw, i) {
        NormIsKeptAlnum(raw, 0, i);
        NormIsKeptAlnum(raw, 0, i + 1);
        CodeIsNotKept(raw, 0, i);
        assert i !in s && i + 1 !in s;
      }
    }
    SameCodesSameKept(out, raw, 0);
  }

  /** Masking and simplifying commute: simplifying the masked name stars the same letters of the simplified one. */
  lemma SimplifyCommutes(raw: string, s: set<nat>)
    requires forall p :: p in s ==> p in NormFrom(raw, 0)
    ensures var m := KeptFrom(raw, 0);
      StripColours(StarAt(raw, s)) == StarAt(StripColours(raw), set k: nat | k < |m| && m[k] in s)
  {
    hide KeptFrom, NormFrom, StripColours;
    StarsKeepCodes(raw, s);
    var out := StarAt(raw, s);
    assert raw[0..] == raw && out[0..] == out;
    StripIsKept(raw, 0);
    StripIsKept(out, 0);
  }

  // ---- letter case ---------------------------------------------------------------------------------------------

  lemma CodesOfLower(raw: string, i: nat)
    ensures ColourAt(Lower(raw), i) <==> ColourAt(raw, i)
  {
  }

  lemma {:induction false} LowerKeepsForms(raw: string, i: nat)
    requires i <= |raw|
    ensures NormFrom(Lower(raw), i) == NormFrom(raw, i) && KeptFrom(Lower(raw), i) == KeptFrom(raw, i)
    decreases |raw| - i
  {
    hide ColourAt, Lower;
    if i < |raw| {
      CodesOfLower(raw, i);
      assert IsAlnum(Lower(raw)[i]) <==> IsAlnum(raw[i]);
      if ColourAt(raw, i) { CodeFits(raw, i); CodeFits(Lower(raw), i); LowerKeepsForms(raw, i + 2); } else { LowerKeepsForms(raw, i + 1); }
    }
  }

  /** Letter case makes no difference: the same positions are starred, and the same terms trip. */
  lemma CaseIsIgnored(raw: string, norm: seq<string>, word: seq<string>, t: string)
    ensures Offenders(Lower(raw), norm, word) == Offenders(raw, norm, word)
    ensures Trips(Lower(raw), norm, word, t) <==> Trips(raw, norm, word, t)
  {
    hide NormFrom, KeptFrom, Lower, FoldLeet, TermHits, WordHits, Occurs, WordOccurs;
    LowerKeepsForms(raw, 0);
    assert Norm(Lower(raw)) == Norm(raw);
    assert Simp(Lower(raw)) == Simp(raw);
  }

  // ---- masking everything -------------------------------------------------------------------------------------

  /** Every letter and digit outside colour codes. */
  function Letters(raw: string): (s: set<nat>)
    ensures forall p :: p in s <==> p in NormFrom(raw, 0)
  {
    set p | p in NormFrom(raw, 0)
  }

  method MaskAll(raw: string) returns (out: string)
    ensures out == StarAt(raw, Letters(raw))
  {
    hide NormFrom;
    ghost var all := StarAt(raw, Letters(raw));
    out := "";
    var i: nat := 0;
    while i < |raw|
      invariant i <= |raw| && out == all[..i]
      invariant forall p: nat :: p >= i ==> (p in NormFrom(raw, 0) <==> p in NormFrom(raw, i))
      decreases |raw| - i
    {
      NormAt(raw, i);
      if ColourAt(raw, i) {
        out := out + [raw[i]] + [raw[i + 1]];
        i := i + 2;
      } else {
        out := out + [if IsAlnum(raw[i]) then '*' else raw[i]];
        i := i + 1;
      }
    }
  }

  lemma NormAt(raw: string, i: nat)
    requires i < |raw|
    ensures ColourAt(raw, i) ==> i !in NormFrom(raw, i) && i + 1 !in NormFrom(raw, i)
    ensures ColourAt(raw, i) ==> forall p: nat :: p >= i + 2 ==> (p in NormFrom(raw, i) <==> p in NormFrom(raw, i + 2))
    ensures !ColourAt(raw, i) ==> (i in NormFrom(raw, i) <==> IsAlnum(raw[i]))
    ensures !ColourAt(raw, i) ==> forall p: nat :: p >= i + 1 ==> (p in NormFrom(raw, i) <==> p in NormFrom(raw, i + 1))
  {
    NormStep(raw, i);
  }

  /** A fully masked name has no letter or digit left outside its colour codes. */
  lemma MaskedAllHasNoLetters(raw: string)
    ensures var out := StarAt(raw, Letters(raw)); forall p :: p in KeptFrom(out, 0) ==> !IsAlnum(out[p])
  {
    hide KeptFrom, NormFrom;
    StarsKeepCodes(raw, Letters(raw));
    var out := StarAt(raw, Letters(raw));
    forall p | p in KeptFrom(out, 0) ensures !IsAlnum(out[p]) { NormIsKeptAlnum(raw, 0, p); }
  }

  /** Whatever the name and the word list, a fully masked name trips no term of either mode. */
  lemma MaskAllTripsNothing(raw: string, norm: seq<string>, word: seq<string>, t: string)
    requires NonEmptyTerms(norm) && LowWords(word)
    ensures !Trips(StarAt(raw, Letters(raw)), norm, word, t)
  {
    hide KeptFrom, NormFrom, WordAt, OccursAt;
    var out := StarAt(raw, Letters(raw));
    MaskedAllHasNoLetters(raw);
    forall p ensures p !in NormFrom(out, 0) {
      if p in NormFrom(out, 0) { NormIsKeptAlnum(out, 0, p); }
    }
    assert NormFrom(out, 0) == [] by { if NormFrom(out, 0) != [] { assert NormFrom(out, 0)[0] in NormFrom(out, 0); } }
    if t in norm {
      NothingOccurs(Norm(out), t);
      NothingOccurs(FoldLeet(Norm(out)), t);
    }
    if t in word {
      LowWordIn(word, t);
      forall k: nat | k < |Simp(out)| ensures !IsLow(Simp(out)[k]) && !IsLow(FoldLeet(Simp(out))[k]) {
        assert KeptFrom(out, 0)[k] in KeptFrom(out, 0);
      }
      NoWordOccurs(Simp(out), t);
      NoWordOccurs(FoldLeet(Simp(out)), t);
    }
  }

  lemma NothingOccurs(hay: string, t: string)
    requires hay == "" && t != ""
    ensures !Occurs(hay, t)
  {
  }

  lemma NoWordOccurs(s: string, w: string)
    requires LowWord(w) && forall k :: 0 <= k < |s| ==> !IsLow(s[k])
    ensures !WordOccurs(s, w)
  {
    hide WordAt;
    forall p: nat ensures !WordAt(s, w, p) {
      if WordAt(s, w, p) {
        WordStartsLow(s, w, p);
      }
    }
  }

  lemma WordStartsLow(s: string, w: string, p: nat)
    requires LowWord(w) && WordAt(s, w, p)
    ensures p < |s| && IsLow(s[p])
  {
    WordIsRun(s, w, p);
  }

  // ---- masking twice ------------------------------------------------------------------------------------------

  /** The positions that masking stars. */
  ghost function Offenders(raw: string, norm: seq<string>, word: seq<string>): set<nat> {
    set p | p in NormFrom(raw, 0) && (NormOffends(raw, norm, p) || WordOffends(raw, word, p))
  }

  /** The positions of m outside s, in order. */
  function Without(m: seq<nat>, s: set<nat>): (r: seq<nat>)
    ensures forall k :: 0 <= k < |r| ==> r[k] in m && r[k] !in s
  {
    if m == [] then [] else if m[0] in s then Without(m[1..], s) else [m[0]] + Without(m[1..], s)
  }

  /** The letters and digits a set of stars leaves over, read together. */
  function Rest(raw: string, s: set<nat>): string {
    LowerAt(raw, Without(NormFrom(raw, 0), s))
  }

  /** Character k of the simplified form is a letter or digit without a star. */
  predicate FreeLetter(raw: string, s: set<nat>, k: nat) {
    k < |Simp(raw)| && IsLow(Simp(raw)[k]) && KeptFrom(raw, 0)[k] !in s
  }

  /** [p..q) is a longest stretch of the simplified form without stars and separators. */
  predicate FreeRun(raw: string, s: set<nat>, p: nat, q: nat) {
    && p < q <= |Simp(raw)|
    && (forall k: nat :: p <= k < q ==> FreeLetter(raw, s, k))
    && (p == 0 || !FreeLetter(raw, s, p - 1))
    && !FreeLetter(raw, s, q)
  }

  /** A norm term stands in the letters left over. */
  ghost predicate RestSpells(raw: string, norm: seq<string>, s: set<nat>) {
    exists t :: t in norm && (Occurs(Rest(raw, s), t) || Occurs(FoldLeet(Rest(raw, s)), t))
  }

  /** A longest stretch left over is a whole-word term. */
  ghost predicate RunSpells(raw: string, word: seq<string>, s: set<nat>) {
    exists p: nat, q: nat ::
      FreeRun(raw, s, p, q) && (RunWord(Simp(raw), p, q, word) || RunWord(FoldLeet(Simp(raw)), p, q, word))
  }

  lemma MaskedIsStarred(raw: string, norm: seq<string>, word: seq<string>)
    requires LowWords(word)
    ensures Masked(raw, norm, word) == StarAt(raw, Offenders(raw, norm, word))
  {
    hide NormOffends, WordOffends, NormFrom;
    forall p: nat | p < |raw| && (NormOffends(raw, norm, p) || WordOffends(raw, word, p)) ensures p in NormFrom(raw, 0) {
      OffendersAreLetters(raw, norm, word, p);
    }
  }

  lemma {:induction false} NormOfStars(raw: string, s: set<nat>, i: nat)
    requires i <= |raw| && forall k: nat :: ColourAt(StarAt(raw, s), k) <==> ColourAt(raw, k)
    ensures NormFrom(StarAt(raw, s), i) == Without(NormFrom(raw, i), s)
    decreases |raw| - i
  {
    hide ColourAt;
    if i < |raw| {
      assert StarAt(raw, s)[i] == if i in s then '*' else raw[i];
      if ColourAt(raw, i) { CodeFits(raw, i); NormOfStars(raw, s, i + 2); } else { NormOfStars(raw, s, i + 1); }
    }
  }

  lemma CodeFits(raw: string, i: nat)
    requires ColourAt(raw, i)
    ensures i + 2 <= |raw|
  {
  }

  /** Reading the starred name gives the letters left over, and the simplified form with stars. */
  lemma StarredForms(raw: string, s: set<nat>)
    requires forall p :: p in s ==> p in NormFrom(raw, 0)
    ensures var out := StarAt(raw, s); var m := KeptFrom(raw, 0);
      && Norm(out) == Rest(raw, s)
      && |Simp(out)| == |Simp(raw)| == |m|
      && forall k :: 0 <= k < |m| ==> Simp(out)[k] == if m[k] in s then '*' else Simp(raw)[k]
  {
    StarsKeepCodes(raw, s);
    NormOfStars(raw, s, 0);
    hide KeptFrom, NormFrom, Without;
  }

  lemma StarredRuns(raw: string, s: set<nat>, p: nat, q: nat)
    requires forall p :: p in s ==> p in NormFrom(raw, 0)
    ensures MaximalRun(Simp(StarAt(raw, s)), p, q) <==> FreeRun(raw, s, p, q)
    ensures MaximalRun(FoldLeet(Simp(StarAt(raw, s))), p, q) <==> FreeRun(raw, s, p, q)
  {
    hide NormFrom, KeptFrom, StarAt, Simp;
    StarredForms(raw, s);
    var out := Simp(StarAt(raw, s));
    forall k: nat ensures FreeLetter(raw, s, k) <==> k < |out| && IsLow(out[k]) {}
    LeetKeepsRuns(out, p, q);
  }

  lemma LeetKeepsRuns(s: string, p: nat, q: nat)
    ensures MaximalRun(FoldLeet(s), p, q) <==> MaximalRun(s, p, q)
  {
    hide FoldLeet, Leet, IsLow;
    var folded := FoldLeet(s);
    forall k: nat | k < |s| ensures IsLow(folded[k]) <==> IsLow(s[k]) { LeetKeepsLow(s[k]); }
  }

  lemma LeetKeepsLow(c: char)
    ensures IsLow(Leet(c)) <==> IsLow(c)
  {
  }

  /** A free run reads the same with and without the stars. */
  lemma FreeRunReads(raw: string, s: set<nat>, p: nat, q: nat)
    requires (forall p :: p in s ==> p in NormFrom(raw, 0)) && FreeRun(raw, s, p, q)
    ensures q <= |Simp(StarAt(raw, s))| == |Simp(raw)|
    ensures Simp(StarAt(raw, s))[p..q] == Simp(raw)[p..q]
    ensures FoldLeet(Simp(StarAt(raw, s)))[p..q] == FoldLeet(Simp(raw))[p..q]
  {
    hide NormFrom, KeptFrom, StarAt, Simp;
    StarredForms(raw, s);
    var out := Simp(StarAt(raw, s));
    forall k: nat | p <= k < q ensures out[k] == Simp(raw)[k] { assert FreeLetter(raw, s, k); }
  }

  lemma RunIsWord(s: string, word: seq<string>, p: nat, q: nat)
    requires LowWords(word) && MaximalRun(s, p, q) && RunWord(s, p, q, word)
    ensures s[p..q] in word && WordOccurs(s, s[p..q])
  {
    hide MaximalRun, WordAt;
    RunWithin(s, p, q);
    WordIsRun(s, s[p..q], p);
  }

  lemma WordIsARun(s: string, word: seq<string>, w: string) returns (p: nat, q: nat)
    requires LowWords(word) && w in word && WordOccurs(s, w)
    ensures MaximalRun(s, p, q) && RunWord(s, p, q, word)
  {
    hide MaximalRun, WordAt;
    p :| WordAt(s, w, p);
    q := p + |w|;
    LowWordIn(word, w);
    WordIsRun(s, w, p);
    RunWithin(s, p, q);
  }

  lemma StarredTripsIff(raw: string, norm: seq<string>, word: seq<string>, s: set<nat>)
    requires LowWords(word) && forall p :: p in s ==> p in NormFrom(raw, 0)
    ensures (exists t :: Trips(StarAt(raw, s), norm, word, t)) <==> RestSpells(raw, norm, s) || RunSpells(raw, word, s)
  {
    hide NormFrom, KeptFrom, StarAt, Simp, Norm, Rest, FoldLeet, FreeRun, MaximalRun, Occurs, WordOccurs;
    var out := StarAt(raw, s);
    StarredForms(raw, s);
    if t :| Trips(out, norm, word, t) {
      if t in word && WordOccurs(Simp(out), t) {
        var p, q := WordIsARun(Simp(out), word, t);
        StarredRuns(raw, s, p, q);
        FreeRunReads(raw, s, p, q);
        assert FreeRun(raw, s, p, q) && RunWord(Simp(raw), p, q, word);
      } else if t in word && WordOccurs(FoldLeet(Simp(out)), t) {
        var p, q := WordIsARun(FoldLeet(Simp(out)), word, t);
        StarredRuns(raw, s, p, q);
        FreeRunReads(raw, s, p, q);
        assert FreeRun(raw, s, p, q) && RunWord(FoldLeet(Simp(raw)), p, q, word);
      }
    }
    if t :| t in norm && (Occurs(Rest(raw, s), t) || Occurs(FoldLeet(Rest(raw, s)), t)) {
      assert Trips(out, norm, word, t);
    }
    if RunSpells(raw, word, s) {
      var t := RunTrips(raw, norm, word, s);
      assert Trips(out, norm, word, t);
    }
  }

  lemma RunTrips(raw: string, norm: seq<string>, word: seq<string>, s: set<nat>) returns (t: string)
    requires LowWords(word) && (forall p :: p in s ==> p in NormFrom(raw, 0)) && RunSpells(raw, word, s)
    ensures Trips(StarAt(raw, s), norm, word, t)
  {
    hide NormFrom, KeptFrom, StarAt, Simp, Norm, FoldLeet, FreeRun, MaximalRun, Occurs, WordOccurs;
    var out := StarAt(raw, s);
    var p: nat, q: nat :| FreeRun(raw, s, p, q) && (RunWord(Simp(raw), p, q, word) || RunWord(FoldLeet(Simp(raw)), p, q, word));
    StarredRuns(raw, s, p, q);
    FreeRunReads(raw, s, p, q);
    if RunWord(Simp(raw), p, q, word) {
      RunIsWord(Simp(out), word, p, q);
      t := Simp(out)[p..q];
    } else {
      RunIsWord(FoldLeet(Simp(out)), word, p, q);
      t := FoldLeet(Simp(out))[p..q];
    }
  }

  /** Masking a masked name again changes nothing exactly when the first mask's leftovers spell no term: no norm
      term in the unstarred letters read together, and no stretch of unstarred letters that is a whole-word term. */
  lemma MaskTwiceIff(raw: string, norm: seq<string>, word: seq<string>)
    requires NonEmptyTerms(norm) && LowWords(word)
    ensures var s := Offenders(raw, norm, word);
      Masked(Masked(raw, norm, word), norm, word) == Masked(raw, norm, word)
      <==> !RestSpells(raw, norm, s) && !RunSpells(raw, word, s)
  {
    hide Trips, RestSpells, RunSpells, Masked, StarAt, NormFrom, NormOffends, WordOffends;
    MaskedIsStarred(raw, norm, word);
    MaskIsStableIff(Masked(raw, norm, word), norm, word);
    StarredTripsIff(raw, norm, word, Offenders(raw, norm, word));
  }

  /** Masking once may spell the term anew: with the term `ab`, `aabb` becomes `a**b`, which offends again. */
  lemma MaskIsNotIdempotent()
    ensures Masked("aabb", ["ab"], []) == "a**b"
    ensures Masked(Masked("aabb", ["ab"], []), ["ab"], []) != Masked("aabb", ["ab"], [])
  {
    hide NormFrom, StarAt, Masked, NormOffends, WordOffends;
    MaskOfFourLetters();
    NormOfStarred();
    assert StarAt("aabb", {1, 2}) == "a**b" by { StarsOfFourLetters(); }
    assert OccursAt("ab", "ab", 0) && "ab" in ["ab"];
    assert Trips("a**b", ["ab"], [], "ab");
    MaskIsStableIff("a**b", ["ab"], []);
  }

  lemma StarsOfFourLetters()
    ensures StarAt("aabb", {1, 2}) == "a**b"
  {
  }

  lemma MaskOfFourLetters()
    ensures Masked("aabb", ["ab"], []) == "a**b"
  {
    hide NormFrom, NormOffends, WordOffends;
    NoWords("aabb");
    forall p: nat | p < 4 ensures NormOffends("aabb", ["ab"], p) <==> p == 1 || p == 2 { OffendsFourLetters(p); }
  }

  lemma OffendsFourLetters(p: nat)
    requires p < 4
    ensures NormOffends("aabb", ["ab"], p) <==> p == 1 || p == 2
  {
    hide NormFrom, Norm, InTerm;
    NormOfFourLetters();
    assert FoldLeet("aabb") == "aabb";
    InTermOfFour(p);
    assert "ab" in ["ab"];
    assert TermHits("aabb", "ab", [0, 1, 2, 3], p) <==> InTerm("aabb", "ab", p) by {
      if InTerm("aabb", "ab", p) { assert [0, 1, 2, 3][p] == p; }
    }
  }

  lemma InTermOfFour(k: nat)
    requires k < 4
    ensures InTerm("aabb", "ab", k) <==> k == 1 || k == 2
  {
    assert OccursAt("aabb", "ab", 1);
    forall at: nat | OccursAt("aabb", "ab", at) ensures at == 1 {
      assert "aabb"[at..at + 2][0] == 'a' && "aabb"[at..at + 2][1] == 'b';
    }
  }

  lemma NormOfFourLetters()
    ensures NormFrom("aabb", 0) == [0, 1, 2, 3] && Norm("aabb") == "aabb"
  {
    hide NormFrom;
    var raw := "aabb";
    NormStep(raw, 0);
    NormStep(raw, 1);
    NormStep(raw, 2);
    NormStep(raw, 3);
    NormEnd(raw);
  }

  lemma NormEnd(raw: string)
    ensures NormFrom(raw, |raw|) == []
  {
  }

  lemma NormOfStarred()
    ensures var out := StarAt("aabb", {1, 2}); NormFrom(out, 0) == [0, 3] && Norm(out) == "ab"
  {
    var out := StarAt("aabb", {1, 2});
    assert out == "a**b";
    assert NormFrom(out, 4) == [] && NormFrom(out, 3) == [3] && NormFrom(out, 2) == [3] && NormFrom(out, 1) == [3];
  }
}
