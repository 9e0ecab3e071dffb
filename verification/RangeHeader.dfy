/** The Range header of a download (web/mappack.js, `handle`), against the range sets of sections 14.1.1 and
    14.1.2 of RFC 9110. */
module RangeHeader {
  import opened Extrema
  import opened Wrappers
  import opened Text
  import opened Numbers

  /** One parsed range, `first-last`, `first-` or `-length`, or something else. */
  datatype Spec = Span(first: nat, last: Option<nat>) | Suffix(length: nat) | Malformed

  const BYTES_PREFIX := "bytes="

  /** The part of the regular expression of `handle` behind the prefix, and the readings of its groups. */
  function ParseSpec(s: string): Spec {
    var a := DigitRun(s);
    if a == |s| || s[a] != '-' then Malformed else
    var tail := s[a + 1..];
    var b := DigitRun(tail);
    if b != |tail| || (a == 0 && b == 0) then Malformed
    else if a == 0 then Suffix(DecValue(tail[..b]))
    else Span(DecValue(s[..a]), if b == 0 then None else Some(DecValue(tail[..b])))
  }

  /** The regular expression of `handle` on the trimmed header. */
  function ParseRange(header: string): Spec {
    var h := Trim(header);
    if BYTES_PREFIX <= h then ParseSpec(h[6..]) else Malformed
  }

  /** The digits in front of and behind the dash. */
  function Before(spec: Spec): string { if spec.Span? then ToDec(spec.first) else "" }

  function After(spec: Spec): string {
    match spec
    case Span(first, last) => if last.Some? then ToDec(last.value) else ""
    case Suffix(n) => ToDec(n)
    case Malformed => ""
  }

  /** A client's request for one range. */
  function ShowRange(spec: Spec): string { BYTES_PREFIX + (Before(spec) + "-" + After(spec)) }

  predicate Digits(s: string) { forall i :: 0 <= i < |s| ==> IsDigit(s[i]) }

  lemma {:induction false} DigitsRun(a: string, rest: string)
    requires Digits(a) && (rest == "" || !IsDigit(rest[0]))
    ensures DigitRun(a + rest) == |a|
  {
    if a != "" {
      assert (a + rest)[1..] == a[1..] + rest;
      DigitsRun(a[1..], rest);
    } else {
      assert a + rest == rest;
    }
  }

  lemma SpecReads(a: string, b: string)
    requires Digits(a) && Digits(b) && (a != "" || b != "")
    ensures ParseSpec(a + "-" + b) ==
      if a == "" then Suffix(DecValue(b)) else Span(DecValue(a), if b == "" then None else Some(DecValue(b)))
  {
    hide DigitRun, DecValue;
    var s := a + "-" + b;
    assert s == a + ("-" + b);
    DigitsRun(a, "-" + b);
    assert s[|a|] == '-' && s[..|a|] == a && s[|a| + 1..] == b;
    assert b == b + "";
    DigitsRun(b, "");
    assert b[..|b|] == b;
  }

  lemma SpecShape(s: string) returns (a: string, b: string)
    requires !ParseSpec(s).Malformed?
    ensures s == a + "-" + b && Digits(a) && Digits(b) && (a != "" || b != "")
  {
    hide DecValue;
    var k := DigitRun(s);
    a, b := s[..k], s[k + 1..];
  }

  lemma TrimNothing(s: string)
    requires s != "" ==> !IsSpace(s[0]) && !IsSpace(s[|s| - 1])
    ensures Trim(s) == s
  {
  }

  lemma {:induction false} TrimRightEnds(s: string)
    ensures TrimRight(s) != "" ==> !IsSpace(TrimRight(s)[|TrimRight(s)| - 1])
  {
    if s != "" && IsSpace(s[|s| - 1]) { TrimRightEnds(s[..|s| - 1]); }
  }

  lemma {:induction false} TrimLeftStarts(s: string)
    ensures TrimLeft(s) != "" ==> !IsSpace(TrimLeft(s)[0]) && TrimLeft(s)[|TrimLeft(s)| - 1] == s[|s| - 1]
  {
    if s != "" && IsSpace(s[0]) { TrimLeftStarts(s[1..]); }
  }

  lemma TrimEnds(s: string)
    ensures Trim(s) != "" ==> !IsSpace(Trim(s)[0]) && !IsSpace(Trim(s)[|Trim(s)| - 1])
  {
    hide TrimLeft, TrimRight;
    TrimRightEnds(s);
    TrimLeftStarts(TrimRight(s));
    if TrimRight(s) == "" { TrimOfEmpty(); }
  }

  lemma TrimOfEmpty()
    ensures TrimLeft("") == ""
  {
  }

  /** A printed range reads back. */
  lemma RangeRoundTrip(spec: Spec)
    requires !spec.Malformed?
    ensures ParseRange(ShowRange(spec)) == spec
  {
    hide ToDec, ParseSpec, DecValue, Trim;
    var a, b := Before(spec), After(spec);
    match spec {
      case Span(first, last) =>
        ReadToDec(first);
        if last.Some? { ReadToDec(last.value); }
      case Suffix(n) =>
        ReadToDec(n);
    }
    SpecReads(a, b);
    PrintedIsTrim(a, b);
    assert (BYTES_PREFIX + (a + "-" + b))[6..] == a + "-" + b;
  }

  lemma PrintedIsTrim(a: string, b: string)
    requires Digits(a) && Digits(b)
    ensures Trim(BYTES_PREFIX + (a + "-" + b)) == BYTES_PREFIX + (a + "-" + b)
  {
    var s := BYTES_PREFIX + (a + "-" + b);
    assert s[|s| - 1] == if b == "" then '-' else b[|b| - 1];
    TrimNothing(s);
  }

  /** What the handler accepts: one range with a digit in it, and nothing else but white space around it. */
  ghost predicate SingleRange(header: string, a: string, b: string) {
    Digits(a) && Digits(b) && (a != "" || b != "") && Trim(header) == BYTES_PREFIX + (a + "-" + b)
  }

  lemma AcceptedIff(header: string)
    ensures !ParseRange(header).Malformed? <==> exists a, b :: SingleRange(header, a, b)
  {
    hide Trim, ParseSpec;
    var h := Trim(header);
    if !ParseRange(header).Malformed? {
      var a, b := SpecShape(h[6..]);
      assert h == BYTES_PREFIX + h[6..];
      assert SingleRange(header, a, b);
    }
    if a, b :| SingleRange(header, a, b) {
      SpecReads(a, b);
      assert h[6..] == a + "-" + b;
    }
  }

  // ---- the standard's reading --------------------------------------------------------------------

  /** The byte positions a range selects of a representation of this length. */
  predicate Selects(spec: Spec, size: nat, p: nat) {
    match spec
    case Span(first, last) => first <= p < size && (last.None? || p <= last.value)
    case Suffix(n) => size - n <= p < size
    case Malformed => false
  }

  /** A range whose last position is before its first is invalid. */
  predicate ValidSpec(spec: Spec) {
    !spec.Malformed? && (spec.Span? && spec.last.Some? ==> spec.first <= spec.last.value)
  }

  /** The elements of a list, with white space around them; empty ones are skipped, and an invalid one
      invalidates the set. */
  function Listed(items: seq<string>): Option<seq<Spec>> {
    if items == [] then Some([]) else
    var rest := Listed(items[1..]);
    var item := Trim(items[0]);
    if item == "" || rest.None? then rest
    else if ValidSpec(ParseSpec(item)) then Some([ParseSpec(item)] + rest.value)
    else None
  }

  /** The ranges of a header: `bytes` in any letter case, `=`, and a list with at least one range. No white space
      may stand between the equals sign and a first range. */
  function RangeSet(header: string): Option<seq<Spec>> {
    var f := SplitOn(Trim(header), '=');
    if |f| != 2 || Lower(f[0]) != "bytes" then None else
    var items := SplitOn(f[1], ',');
    if items[0] != "" && IsSpace(items[0][0]) && Trim(items[0]) != "" then None else
    var specs := Listed(items);
    if specs == Some([]) then None else specs
  }

  /** The positions the header asks for. */
  ghost predicate Selected(header: string, size: nat, p: nat) {
    RangeSet(header).Some? && exists i :: 0 <= i < |RangeSet(header).value| && Selects(RangeSet(header).value[i], size, p)
  }

  /** Section 14.1.2: the range overlaps a representation of this length. */
  predicate Satisfiable(spec: Spec, size: nat) {
    match spec
    case Span(first, last) => first < size
    case Suffix(n) => n > 0 && size > 0
    case Malformed => false
  }

  ghost predicate SomeSatisfiable(header: string, size: nat) {
    RangeSet(header).Some? && exists i :: 0 <= i < |RangeSet(header).value| && Satisfiable(RangeSet(header).value[i], size)
  }

  lemma SatisfiableSelects(spec: Spec, size: nat) returns (p: nat)
    requires ValidSpec(spec)
    ensures Satisfiable(spec, size) <==> Selects(spec, size, p)
    ensures !Satisfiable(spec, size) ==> forall q: nat :: !Selects(spec, size, q)
  {
    p := match spec case Span(first, _) => first case Suffix(n) => if size > 0 then size - 1 else 0;
  }

  lemma {:induction false} ListedAreValid(items: seq<string>, i: nat)
    requires Listed(items).Some? && i < |Listed(items).value|
    ensures ValidSpec(Listed(items).value[i])
  {
    hide Trim, ParseSpec, ValidSpec;
    if items != [] {
      var rest := Listed(items[1..]).value;
      if Trim(items[0]) == "" { ListedAreValid(items[1..], i); }
      else if i > 0 { ListedAreValid(items[1..], i - 1); }
    }
  }

  lemma SelectedIffSatisfiable(header: string, size: nat)
    ensures (exists p: nat :: Selected(header, size, p)) <==> SomeSatisfiable(header, size)
  {
    hide Trim, ParseSpec, SplitOn, Lower, Listed, Selects, Satisfiable, ValidSpec;
    if p: nat :| Selected(header, size, p) {
      var i :| 0 <= i < |RangeSet(header).value| && Selects(RangeSet(header).value[i], size, p);
      SpecIsValid(header, i);
      var q := SatisfiableSelects(RangeSet(header).value[i], size);
      assert Satisfiable(RangeSet(header).value[i], size);
    }
    if SomeSatisfiable(header, size) {
      var i :| 0 <= i < |RangeSet(header).value| && Satisfiable(RangeSet(header).value[i], size);
      SpecIsValid(header, i);
      var q := SatisfiableSelects(RangeSet(header).value[i], size);
      assert Selected(header, size, q);
    }
  }

  lemma SpecIsValid(header: string, i: nat)
    requires RangeSet(header).Some? && i < |RangeSet(header).value|
    ensures ValidSpec(RangeSet(header).value[i])
  {
    hide Trim, ParseSpec, SplitOn, Lower, Listed, ValidSpec;
    ListedAreValid(SplitOn(SplitOn(Trim(header), '=')[1], ','), i);
  }

  lemma SetIs(header: string, unit: string, text: string)
    requires Trim(header) == unit + "=" + text && Free(unit, '=') && Free(text, '=')
    requires Lower(unit) == "bytes" && (text == "" || !IsSpace(text[0]))
    ensures var specs := Listed(SplitOn(text, ',')); RangeSet(header) == if specs == Some([]) then None else specs
  {
    hide Trim, SplitOn, Lower, Listed;
    SplitFree(unit, '=');
    SplitFree(text, '=');
    SplitConcat(unit, text, '=');
    assert SplitOn(Trim(header), '=') == [unit, text];
    FirstItem(text);
  }

  lemma FirstItem(text: string)
    ensures SplitOn(text, ',')[0] != "" ==> text != "" && SplitOn(text, ',')[0][0] == text[0]
  {
  }

  lemma SingleIs(header: string, a: string, b: string)
    requires SingleRange(header, a, b)
    ensures var spec := ParseSpec(a + "-" + b);
      RangeSet(header) == if ValidSpec(spec) then Some([spec]) else None
  {
    hide Trim, ParseSpec, SplitOn, RangeSet, Listed, Lower, ValidSpec;
    var text := a + "-" + b;
    assert BYTES_PREFIX + text == "bytes" + "=" + text;
    assert Lower("bytes") == "bytes" by { LowerBytes(); }
    DigitsApart(a, b);
    SetIs(header, "bytes", text);
    SplitFree(text, ',');
    TrimNothing(text);
    OneItem(text);
  }

  lemma LowerBytes()
    ensures Lower("bytes") == "bytes" && Lower("Bytes") == "bytes"
  {
  }

  lemma DigitsApart(a: string, b: string)
    requires Digits(a) && Digits(b)
    ensures var text := a + "-" + b;
      Free(text, '=') && Free(text, ',') && !IsSpace(text[0]) && !IsSpace(text[|text| - 1])
  {
    var text := a + "-" + b;
    assert text[0] == (if a == "" then '-' else a[0]) && text[|text| - 1] == if b == "" then '-' else b[|b| - 1];
  }

  /** On a header the handler accepts, the standard reads the same single range, or none when it is backwards. */
  lemma AcceptedSet(header: string)
    requires !ParseRange(header).Malformed?
    ensures var spec := ParseRange(header);
      RangeSet(header) == if ValidSpec(spec) then Some([spec]) else None
  {
    hide Trim, ParseSpec, RangeSet, ValidSpec;
    var a, b := SpecShape(Trim(header)[6..]);
    assert Trim(header) == BYTES_PREFIX + Trim(header)[6..];
    SingleIs(header, a, b);
  }

  /** A valid header is refused by the handler exactly when it lists, or does not write the unit in lower case. */
  lemma RefusedIff(header: string)
    requires RangeSet(header).Some?
    ensures ParseRange(header).Malformed? <==> ',' in Trim(header) || !(BYTES_PREFIX <= Trim(header))
  {
    hide Trim, ParseSpec, SplitOn, Listed;
    var h := Trim(header);
    if !ParseRange(header).Malformed? {
      var a, b := SpecShape(h[6..]);
      assert h == BYTES_PREFIX + (a + "-" + b);
    } else if ',' !in h && BYTES_PREFIX <= h {
      var f := SplitOn(h, '=');
      JoinSplit(h, '=');
      assert h == f[0] + ['='] + f[1] by { TwoFields(f); }
      assert f[1] == h[6..] && forall k :: 0 <= k < |f[1]| ==> f[1][k] == h[6 + k];
      SplitFree(f[1], ',');
      OneItem(f[1]);
      if f[1] == "" { TrimNothing(""); }
      TrimEnds(header);
      TrimNothing(f[1]);
    }
  }

  lemma TwoFields(f: seq<string>)
    requires |f| == 2
    ensures JoinWith(f, '=') == f[0] + ['='] + f[1]
  {
    assert JoinWith(f[1..], '=') == f[1];
  }

  lemma OneItem(item: string)
    ensures Listed([item]) == if Trim(item) == "" then Some([]) else if ValidSpec(ParseSpec(Trim(item))) then Some([ParseSpec(Trim(item))]) else None
  {
    hide Trim, ParseSpec, ValidSpec;
    assert [item][1..] == [] && Listed([]) == Some([]);
    assert [ParseSpec(Trim(item))] + [] == [ParseSpec(Trim(item))];
  }

  // ---- what the handler serves -------------------------------------------------------------------

  datatype Served = Serve(start: nat, end: nat) | Refused

  /** The range arithmetic of `handle`. */
  function Bounds(spec: Spec, size: nat): Served {
    match spec
    case Malformed => Refused
    case Suffix(n) => if n == 0 || size == 0 then Refused else Serve(Max(0, size - n), size - 1)
    case Span(first, last) =>
      var end := if last.Some? then Min(size - 1, last.value) else size - 1;
      if first > end || first >= size then Refused else Serve(first, end)
  }

  predicate Covers(served: Served, p: nat) { served.Serve? && served.start <= p <= served.end }

  /** One parsed range is served exactly when it selects a byte, and then [start..end] is what it selects. */
  lemma BoundsAreSelection(spec: Spec, size: nat)
    ensures Bounds(spec, size).Serve? ==> Bounds(spec, size).start <= Bounds(spec, size).end < size
    ensures forall p: nat :: Covers(Bounds(spec, size), p) <==> Selects(spec, size, p)
  {
  }

  /** The handler serves other bytes than the standard selects. */
  ghost predicate Departs(header: string, size: nat) {
    exists p: nat :: Covers(Bounds(ParseRange(header), size), p) != Selected(header, size, p)
  }

  /** Where it departs it serves nothing: the header is valid and satisfiable, and either lists several elements or
      spells the unit with a capital. Every other header gets exactly the bytes it selects. */
  lemma DepartsIff(header: string, size: nat)
    ensures Departs(header, size)
      <==> SomeSatisfiable(header, size) && (',' in Trim(header) || !(BYTES_PREFIX <= Trim(header)))
    ensures Departs(header, size) ==> Bounds(ParseRange(header), size).Refused?
  {
    hide Trim, ParseRange, RangeSet, Bounds, Satisfiable, Selects;
    var spec := ParseRange(header);
    BoundsAreSelection(spec, size);
    SelectedIffSatisfiable(header, size);
    if !spec.Malformed? {
      AcceptedSet(header);
      if ValidSpec(spec) {
        assert RangeSet(header).value[0] == spec;
        forall p: nat ensures Selected(header, size, p) <==> Selects(spec, size, p) {}
      } else {
        BackwardsSelectsNothing(spec, size);
      }
    } else {
      MalformedSelectsNothing(spec, size);
    }
    if RangeSet(header).Some? { RefusedIff(header); }
    if SomeSatisfiable(header, size) && spec.Malformed? {
      var p: nat :| Selected(header, size, p);
      assert Covers(Bounds(spec, size), p) != Selected(header, size, p);
    }
  }

  lemma BackwardsSelectsNothing(spec: Spec, size: nat)
    requires !ValidSpec(spec)
    ensures forall p: nat :: !Selects(spec, size, p)
  {
  }

  lemma MalformedSelectsNothing(spec: Spec, size: nat)
    requires spec.Malformed?
    ensures Bounds(spec, size).Refused? && forall p: nat :: !Selects(spec, size, p)
  {
  }

  /** Two headers that ask for bytes of a ten-byte archive and are refused. */
  lemma ListAndCapitalAreRefused()
    ensures Departs("bytes=0-1,4-5", 10) && RangeSet("bytes=0-1,4-5") == Some([Span(0, Some(1)), Span(4, Some(5))])
    ensures Departs("Bytes=0-1", 10) && RangeSet("Bytes=0-1") == Some([Span(0, Some(1))])
  {
    hide Trim, ParseRange, RangeSet, Departs;
    SetOf("bytes", "0-1,4-5", ["0-1", "4-5"], [Span(0, Some(1)), Span(4, Some(5))]);
    SetOf("Bytes", "0-1", ["0-1"], [Span(0, Some(1))]);
    var two, one := "bytes=0-1,4-5", "Bytes=0-1";
    TrimNothing(two);
    TrimNothing(one);
    assert "bytes" + "=" + "0-1,4-5" == two && "Bytes" + "=" + "0-1" == one;
    assert Satisfiable(RangeSet(two).value[0], 10) && Satisfiable(RangeSet(one).value[0], 10);
    assert two[9] == ',' && one[0] == 'B';
    DepartsIff(two, 10);
    DepartsIff(one, 10);
  }

  lemma SetOf(unit: string, text: string, items: seq<string>, specs: seq<Spec>)
    requires unit in ["bytes", "Bytes"]
    requires (text == "0-1" && items == ["0-1"] && specs == [Span(0, Some(1))])
             || (text == "0-1,4-5" && items == ["0-1", "4-5"] && specs == [Span(0, Some(1)), Span(4, Some(5))])
    ensures RangeSet(unit + "=" + text) == Some(specs)
  {
    hide Trim, ParseSpec, SplitOn, Listed, RangeSet, Lower;
    TrimNothing(unit + "=" + text);
    LowerBytes();
    SetIs(unit + "=" + text, unit, text);
    SplitFree("0-1", ',');
    SplitFree("4-5", ',');
    SplitConcat("0-1", "4-5", ',');
    assert "0-1" + [','] + "4-5" == "0-1,4-5" && ["0-1"] + ["4-5"] == ["0-1", "4-5"];
    assert [Span(0, Some(1))] + [Span(4, Some(5))] == [Span(0, Some(1)), Span(4, Some(5))];
    OneItem("0-1");
    OneItem("4-5");
    TrimNothing("0-1");
    TrimNothing("4-5");
    SmallSpecs();
    TwoItems("0-1", "4-5");
  }

  lemma TwoItems(a: string, b: string)
    requires Trim(a) != "" && Listed([b]).Some? && ValidSpec(ParseSpec(Trim(a)))
    ensures Listed([a, b]) == Some([ParseSpec(Trim(a))] + Listed([b]).value)
  {
    hide Trim, ParseSpec, ValidSpec;
    assert [a, b][1..] == [b];
  }

  lemma SmallSpecs()
    ensures ParseSpec("0-1") == Span(0, Some(1)) && ParseSpec("4-5") == Span(4, Some(5))
  {
    hide ParseSpec;
    SpecReads("0", "1");
    SpecReads("4", "5");
    assert "0" + "-" + "1" == "0-1" && "4" + "-" + "5" == "4-5";
  }
}
