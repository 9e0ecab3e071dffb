/** What a coloured name is read as: by `simplifyName` and the identity keys (web/db.js), where `^0` to `^9` are
    colours, and by the seeder (web/seed-topscores.js, `cleanName`), where `^^` is a caret besides. A name is
    laid out in parts, and each reader is characterised by what it makes of the parts. */
module ColouredNames {
  import opened Text
  import opened SeedMerge
  import Canon = Canonical

  datatype Part = Colour(digit: char) | Caret | Plain(c: char)

  function Write(p: Part): string {
    match p case Colour(d) => ['^', d] case Caret => "^^" case Plain(c) => [c]
  }

  function Spell(ps: seq<Part>): string { if ps == [] then "" else Write(ps[0]) + Spell(ps[1..]) }

  /** The text without its colours. */
  function Shown(ps: seq<Part>): string {
    if ps == [] then "" else
    (match ps[0] case Colour(_) => "" case Caret => "^" case Plain(c) => [c]) + Shown(ps[1..])
  }

  predicate IsColour(c: char) { '0' <= c <= '9' }

  /** Colours are digits, and a plain caret does not run into a digit. */
  predicate Laid(ps: seq<Part>) {
    && (forall i :: 0 <= i < |ps| ==> !ps[i].Caret? && (ps[i].Colour? ==> IsColour(ps[i].digit)))
    && forall i :: 0 <= i < |ps| - 1 ==> MayFollow(ps[i], ps[i + 1])
  }

  predicate MayFollow(p: Part, q: Part) { p == Plain('^') && q.Plain? ==> !IsColour(q.c) }

  /** The seeder's layout: a plain caret does not run into a caret either. */
  predicate LaidForSeeder(ps: seq<Part>) {
    && (forall i :: 0 <= i < |ps| ==> (ps[i].Colour? ==> IsColour(ps[i].digit)) && ps[i] != Plain('\0'))
    && forall i :: 0 <= i < |ps| - 1 ==> SeederMayFollow(ps[i], ps[i + 1])
  }

  predicate SeederMayFollow(p: Part, q: Part) { p == Plain('^') ==> q.Plain? && q.c != '^' && !IsColour(q.c) }

  lemma LaidCons(p: Part, rest: seq<Part>)
    requires !p.Caret? && (p.Colour? ==> IsColour(p.digit)) && Laid(rest) && (rest != [] ==> MayFollow(p, rest[0]))
    ensures var ps := [p] + rest; Laid(ps) && ps[1..] == rest
  {
    hide MayFollow;
  }

  lemma SeederCons(p: Part, rest: seq<Part>)
    requires (p.Colour? ==> IsColour(p.digit)) && p != Plain('\0') && LaidForSeeder(rest)
    requires rest != [] ==> SeederMayFollow(p, rest[0])
    ensures var ps := [p] + rest; LaidForSeeder(ps) && ps[1..] == rest
  {
    hide SeederMayFollow;
  }

  lemma {:induction false} StripIs(ps: seq<Part>)
    requires Laid(ps)
    ensures StripColours(Spell(ps)) == Shown(ps)
  {
    if ps != [] {
      StripIs(ps[1..]);
      var s, rest := Spell(ps), Spell(ps[1..]);
      if ps[0].Colour? {
        assert s[2..] == rest;
      } else {
        assert s[1..] == rest;
        if |ps| > 1 && s[0] == '^' { assert rest[0] == Write(ps[1])[0]; }
      }
    }
  }

  /** Every name is laid out in one of these ways. */
  lemma {:induction false} NameIsLaid(s: string) returns (ps: seq<Part>)
    ensures Laid(ps) && Spell(ps) == s
    decreases |s|
  {
    if s == "" { return []; }
    var n, first := 1, Plain(s[0]);
    if |s| > 1 && s[0] == '^' && IsColour(s[1]) { n, first := 2, Colour(s[1]); }
    var rest := NameIsLaid(s[n..]);
    if rest != [] { assert s[n] == Spell(rest)[0] == Write(rest[0])[0]; }
    hide Laid;
    LaidCons(first, rest);
    ps := [first] + rest;
  }

  function Hidden(ps: seq<Part>): (r: seq<Part>)
    ensures |r| == |ps| && forall i :: 0 <= i < |ps| ==> r[i] == if ps[i].Caret? then Plain('\0') else ps[i]
  {
    if ps == [] then [] else [if ps[0].Caret? then Plain('\0') else ps[0]] + Hidden(ps[1..])
  }

  lemma HideStep(s: string)
    requires s != ""
    ensures |s| > 1 && s[0] == s[1] == '^' ==> HideCarets(s) == ['\0'] + HideCarets(s[2..])
    ensures !(|s| > 1 && s[0] == s[1] == '^') ==> HideCarets(s) == [s[0]] + HideCarets(s[1..])
  {
  }

  lemma {:induction false} HideIs(ps: seq<Part>)
    requires LaidForSeeder(ps)
    ensures HideCarets(Spell(ps)) == Spell(Hidden(ps))
  {
    hide HideCarets;
    if ps != [] {
      HideIs(ps[1..]);
      var s, rest := Spell(ps), Spell(ps[1..]);
      assert Hidden(ps)[1..] == Hidden(ps[1..]);
      HideStep(s);
      match ps[0]
      case Colour(d) =>
        assert s[1..] == [d] + rest && s[1..][1..] == rest;
        HideStep(s[1..]);
      case Caret => assert s[2..] == rest;
      case Plain(c) =>
        assert s[1..] == rest;
        if |ps| > 1 && c == '^' { assert SeederMayFollow(ps[0], ps[1]) && rest[0] == Write(ps[1])[0]; }
    } else {
      HideNothing();
    }
  }

  lemma HideNothing()
    ensures HideCarets("") == ""
  {
  }

  lemma {:induction false} ShowIs(ps: seq<Part>)
    requires LaidForSeeder(ps)
    ensures ShowCarets(Shown(Hidden(ps))) == Shown(ps)
  {
    if ps != [] {
      ShowIs(ps[1..]);
      assert Hidden(ps)[1..] == Hidden(ps[1..]);
      var rest := Shown(Hidden(ps[1..]));
      match ps[0]
      case Colour(_) => assert "" + rest == rest && "" + Shown(ps[1..]) == Shown(ps[1..]);
      case Caret => assert (['\0'] + rest)[1..] == rest;
      case Plain(c) => assert ([c] + rest)[1..] == rest;
    }
  }

  lemma {:induction false} NickIsLaid(s: string) returns (ps: seq<Part>)
    requires forall i :: 0 <= i < |s| ==> s[i] != '\0'
    ensures LaidForSeeder(ps) && Spell(ps) == s
    decreases |s|
  {
    if s == "" { return []; }
    var n, first := 1, Plain(s[0]);
    if |s| > 1 && s[0] == '^' && (s[1] == '^' || IsColour(s[1])) { n, first := 2, if s[1] == '^' then Caret else Colour(s[1]); }
    var rest := NickIsLaid(s[n..]);
    if rest != [] { assert s[n] == Spell(rest)[0] == Write(rest[0])[0]; }
    hide LaidForSeeder;
    SeederCons(first, rest);
    ps := [first] + rest;
  }

  /** The seeder's nick of a laid out name: its plain letters and carets in lower case, no colours. */
  lemma NickIs(ps: seq<Part>)
    requires LaidForSeeder(ps)
    ensures CleanName(Spell(ps)) == Lower(Shown(ps))
  {
    hide HideCarets, ShowCarets, StripColours, Shown, Spell;
    HideIs(ps);
    StripIs(Hidden(ps));
    ShowIs(ps);
  }

  /** The grouping key reads a name twice, so colours that show up once others are gone go too; login plays no part, and
      a name with nothing left has a key of its own. */
  lemma KeyIs(ps: seq<Part>, qs: seq<Part>, login: string)
    requires Laid(ps) && Laid(qs) && Shown(ps) == Spell(qs)
    ensures var k := Trim(Canon.DropSuffix(Lower(Shown(qs))));
      Canon.KeyOf(Canon.Who(Spell(ps), login)) == if k == "" then "?empty?" else k
  {
    hide Shown, Spell, StripColours, Trim, Canon.DropSuffix;
    StripIs(ps);
    StripIs(qs);
  }
}
