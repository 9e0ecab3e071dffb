/** Player rows and their canonical grouping (web/db.js, `_resolvePlayer` and `rebuildCanonical`).
    A group is every player row whose colour-stripped, lower-cased nick agrees once a trailing
    "(N)" collision suffix is dropped; one row of each group represents it. */
module Canonical {
  import opened Wrappers
  import opened Text

  /** The unique (name, login) pair of a player row. */
  datatype Who = Who(name: string, login: string)

  /** `key` is the grouping key of the row's `simplified` column, which never changes after insertion. */
  datatype Player = Player(who: Who, key: string, canonicalId: Option<nat>)

  /** The `player` table with its identity sequence and its unique index, and the `canonical` table. */
  datatype People = People(next: nat, rows: map<nat, Player>, byWho: map<Who, nat>, reps: map<string, nat>)

  const NO_PEOPLE := People(1, map[], map[], map[])

  /** Drops `\s*\(\d+\)\s*` from the end of s, when it is there. */
  function DropSuffix(s: string): string {
    var t := TrimRight(s);
    if t == "" || t[|t| - 1] != ')' then s else
    var body := t[..|t| - 1];
    var n := DigitTail(body);
    var open := body[..|body| - n];
    if n == 0 || open == "" || open[|open| - 1] != '(' then s
    else TrimRight(open[..|open| - 1])
  }

  function IdentKey(name: string): string {
    Trim(DropSuffix(Lower(StripColours(name))))
  }

  /** The grouping key; login plays no part in it. */
  function CanonKey(simplified: string): string {
    var k := IdentKey(simplified);
    if k == "" then "?empty?" else k
  }

  lemma {:induction false} DigitTailOf(t: string, d: string)
    requires forall i :: 0 <= i < |d| ==> IsDigit(d[i])
    ensures DigitTail(t + "(" + d) == |d|
    decreases |d|
  {
    if d != "" {
      var n := |d| - 1;
      assert (t + "(" + d)[..|t| + 1 + n] == t + "(" + d[..n];
      DigitTailOf(t, d[..n]);
    }
  }

  predicate Digits(d: string) { d != "" && forall i :: 0 <= i < |d| ==> IsDigit(d[i]) }

  function Suffix(d: string): string { "(" + d + ")" }

  /** One collision suffix "(N)", with the white space around it, is dropped. */
  lemma SuffixIsDropped(t: string, d: string)
    requires Digits(d)
    ensures DropSuffix(t + Suffix(d)) == TrimRight(t)
  {
    hide DropSuffix, TrimRight;
    DropsAppended(t, d);
    assert t + Suffix(d) == t + "(" + d + ")";
  }

  lemma DropsAppended(t: string, d: string)
    requires d != "" && forall i :: 0 <= i < |d| ==> IsDigit(d[i])
    ensures DropSuffix(t + "(" + d + ")") == TrimRight(t)
  {
    hide DigitTail;
    var s := t + "(" + d + ")";
    DigitTailOf(t, d);
    assert s[|s| - 1] == ')' && TrimRight(s) == s;
    assert s[..|s| - 1] == t + "(" + d;
    assert (t + "(" + d)[..|t| + 1] == t + "(" && (t + "(")[..|t|] == t;
  }

  /** s ends with a collision suffix, but for white space. */
  ghost predicate Suffixed(s: string) { exists p, d :: SplitsAs(TrimRight(s), p, d) }

  predicate SplitsAs(t: string, p: string, d: string) { Digits(d) && t == p + Suffix(d) }

  lemma {:induction false} TrimRightTwice(s: string)
    ensures TrimRight(TrimRight(s)) == TrimRight(s)
  {
    if s != "" && IsSpace(s[|s| - 1]) { TrimRightTwice(s[..|s| - 1]); }
  }

  lemma DropOfTrimmed(s: string)
    ensures TrimRight(DropSuffix(s)) == TrimRight(DropSuffix(TrimRight(s)))
  {
    hide TrimRight, DigitTail;
    TrimRightTwice(s);
  }

  /** What the suffix rule leaves: the text before the suffix if there is one, else the text itself. */
  lemma DropSuffixIs(s: string)
    ensures Suffixed(s) ==> exists p, d :: SplitsAs(TrimRight(s), p, d) && TrimRight(DropSuffix(s)) == TrimRight(p)
    ensures !Suffixed(s) ==> DropSuffix(s) == s
  {
    hide TrimRight;
    if Suffixed(s) {
      var p, d :| SplitsAs(TrimRight(s), p, d);
      DropOfTrimmed(s);
      SuffixIsDropped(p, d);
      TrimRightTwice(p);
    } else if DropSuffix(s) != s {
      var p, d := GuardIsSuffix(TrimRight(s));
    }
  }

  /** The branch that drops something is taken on a suffix only. */
  lemma GuardIsSuffix(t: string) returns (p: string, d: string)
    requires t != "" && t[|t| - 1] == ')'
    requires var body := t[..|t| - 1]; var n := DigitTail(body); var open := body[..|body| - n];
      n > 0 && open != "" && open[|open| - 1] == '('
    ensures SplitsAs(t, p, d)
  {
    var body := t[..|t| - 1];
    var n := DigitTail(body);
    DigitTailDigits(body);
    hide DigitTail;
    var at := |body| - n - 1;
    p, d := body[..at], body[at + 1..];
    assert body[at] == body[..|body| - n][at] == '(';
    Reassembled(t, at);
    assert forall i :: 0 <= i < n ==> d[i] == body[at + 1 + i];
  }

  lemma Reassembled(t: string, at: nat)
    requires at + 1 < |t| && t[at] == '(' && t[|t| - 1] == ')'
    ensures t == t[..|t| - 1][..at] + Suffix(t[..|t| - 1][at + 1..])
  {
  }

  lemma {:induction false} DigitTailDigits(s: string)
    ensures forall i :: |s| - DigitTail(s) <= i < |s| ==> IsDigit(s[i])
  {
    if s != "" && IsDigit(s[|s| - 1]) { DigitTailDigits(s[..|s| - 1]); }
  }

  // ---- what a suffix does to the identity -------------------------------------------------------

  lemma {:induction false} StripConcat(a: string, b: string)
    requires b == "" || !IsDigit(b[0])
    ensures StripColours(a + b) == StripColours(a) + StripColours(b)
    decreases |a|
  {
    if a == "" {
      assert a + b == b;
    } else {
      assert ColourAt(a + b, 0) <==> ColourAt(a, 0);
      if ColourAt(a, 0) {
        assert (a + b)[2..] == a[2..] + b;
        StripConcat(a[2..], b);
      } else {
        assert (a + b)[1..] == a[1..] + b;
        StripConcat(a[1..], b);
      }
    }
  }

  lemma {:induction false} StripPlain(s: string)
    requires forall i :: 0 <= i < |s| ==> s[i] != '^'
    ensures StripColours(s) == s
  {
    if s != "" { StripPlain(s[1..]); }
  }

  lemma {:induction false} StripOfLower(s: string)
    ensures StripColours(Lower(s)) == Lower(StripColours(s))
    decreases |s|
  {
    hide Lower;
    if s != "" {
      assert ColourAt(Lower(s), 0) <==> ColourAt(s, 0);
      if ColourAt(s, 0) {
        assert Lower(s)[2..] == Lower(s[2..]);
        StripOfLower(s[2..]);
      } else {
        assert Lower(s)[1..] == Lower(s[1..]);
        StripOfLower(s[1..]);
        assert Lower([s[0]] + StripColours(s[1..])) == [LowerChar(s[0])] + Lower(StripColours(s[1..]));
      }
    } else {
      assert Lower("") == "";
    }
  }

  /** Letter case makes no difference to an identity. */
  lemma IdentityIgnoresCase(name: string)
    ensures IdentKey(Lower(name)) == IdentKey(name) && CanonKey(Lower(name)) == CanonKey(name)
  {
    hide StripColours, Lower, DropSuffix, Trim;
    StripOfLower(name);
    var t := StripColours(name);
    assert Lower(Lower(t)) == Lower(t);
  }

  lemma LowerConcat(a: string, b: string)
    ensures Lower(a + b) == Lower(a) + Lower(b)
  {
    hide Lower;
  }

  lemma LowerSuffix(d: string)
    requires Digits(d)
    ensures Lower(Suffix(d)) == Suffix(d)
  {
    hide Lower;
    assert forall i :: 0 <= i < |Suffix(d)| ==> LowerChar(Suffix(d)[i]) == Suffix(d)[i];
  }

  /** The form of a name that identities are cut from. */
  function Plain(name: string): string { Lower(StripColours(name)) }

  lemma PlainSuffix(t: string, d: string)
    requires Digits(d)
    ensures Plain(t + Suffix(d)) == Plain(t) + Suffix(d)
  {
    hide StripColours, Lower;
    StripConcat(t, Suffix(d));
    assert forall i :: 0 <= i < |Suffix(d)| ==> Suffix(d)[i] != '^';
    StripPlain(Suffix(d));
    LowerConcat(StripColours(t), Suffix(d));
    LowerSuffix(d);
  }

  /** A name with a collision suffix has the identity of its plain form without that suffix, and no other. */
  lemma SuffixedIdentity(t: string, d: string)
    requires Digits(d)
    ensures IdentKey(t + Suffix(d)) == Trim(Plain(t))
  {
    hide Plain, DropSuffix, Suffix;
    IdentIs(t + Suffix(d));
    PlainSuffix(t, d);
    SuffixIsDropped(Plain(t), d);
    TrimRightTwice(Plain(t));
  }

  lemma IdentIs(name: string)
    ensures IdentKey(name) == Trim(DropSuffix(Plain(name)))
  {
  }

  /** White space before a text is white space before all that follows it. */
  lemma {:induction false} TrimLeftShorter(p: string, rest: string)
    requires rest != "" && !IsSpace(rest[|rest| - 1])
    ensures |TrimLeft(p)| < |TrimLeft(p + rest)|
    decreases |p|
  {
    if p == "" {
      assert p + rest == rest;
      TrimLeftKeeps(rest);
    } else {
      assert (p + rest)[1..] == p[1..] + rest;
      if IsSpace(p[0]) { TrimLeftShorter(p[1..], rest); }
    }
  }

  lemma {:induction false} TrimLeftKeeps(s: string)
    requires s != "" && !IsSpace(s[|s| - 1])
    ensures TrimLeft(s) != ""
  {
    if IsSpace(s[0]) { TrimLeftKeeps(s[1..]); }
  }

  lemma {:induction false} TrimRightIsPrefix(s: string)
    ensures |TrimRight(s)| <= |s| && TrimRight(s) == s[..|TrimRight(s)|]
  {
    if s != "" && IsSpace(s[|s| - 1]) { TrimRightIsPrefix(s[..|s| - 1]); }
  }

  /** Dropping a suffix really shortens a trimmed text. */
  lemma DropShortens(u: string)
    requires Suffixed(u)
    ensures |Trim(DropSuffix(u))| < |Trim(u)|
  {
    hide TrimLeft, TrimRight, DropSuffix, Suffix;
    DropSuffixIs(u);
    var p, d :| SplitsAs(TrimRight(u), p, d) && TrimRight(DropSuffix(u)) == TrimRight(p);
    TrimRightIsPrefix(p);
    var q := TrimRight(p);
    var rest := p[|q|..] + Suffix(d);
    SuffixEnds(d);
    assert TrimRight(u) == q + rest;
    TrimLeftShorter(q, rest);
  }

  lemma SuffixEnds(d: string)
    ensures Suffix(d) != "" && !IsSpace(Suffix(d)[|Suffix(d)| - 1])
  {
  }

  /** A collision suffix leaves the identity as it was exactly when the name had none of its own: only the last of
      several suffixes is dropped. */
  lemma SuffixKeepsIdentityIff(t: string, d: string)
    requires Digits(d)
    ensures IdentKey(t + Suffix(d)) == IdentKey(t) <==> !Suffixed(Plain(t))
  {
    hide Plain, DropSuffix, Suffix, Trim, Suffixed;
    SuffixedIdentity(t, d);
    IdentIs(t);
    DropSuffixIs(Plain(t));
    if Suffixed(Plain(t)) { DropShortens(Plain(t)); }
  }

  /** "b (2)" and "b (2)(3)" are two identities. */
  lemma TwoSuffixesDiffer()
    ensures IdentKey("b (2)" + Suffix("3")) != IdentKey("b (2)")
  {
    hide StripColours, Lower, DropSuffix, Trim, TrimRight, IdentKey;
    var t := "b (2)";
    assert t == "b " + Suffix("2");
    PlainSuffix("b ", "2");
    SuffixEnds("2");
    TrimRightKeeps(Plain("b ") + Suffix("2"));
    assert SplitsAs(TrimRight(Plain(t)), Plain("b "), "2");
    SuffixKeepsIdentityIff(t, "3");
  }

  lemma TrimRightKeeps(s: string)
    requires s != "" && !IsSpace(s[|s| - 1])
    ensures TrimRight(s) == s
  {
  }

  function KeyOf(w: Who): string { CanonKey(StripColours(w.name)) }

  /** The unique index agrees with the rows, and the sequence is ahead of every id. */
  ghost predicate Indexed(p: People) {
    && (forall id :: id in p.rows ==> 0 < id < p.next && p.rows[id].who in p.byWho && p.byWho[p.rows[id].who] == id)
    && (forall w :: w in p.byWho ==> p.byWho[w] in p.rows && p.rows[p.byWho[w]].who == w)
  }

  ghost predicate Keyed(p: People) {
    forall id :: id in p.rows ==> p.rows[id].key == KeyOf(p.rows[id].who)
  }

  /** Every row points at the representative of its key, and representatives have that key themselves. */
  ghost predicate Grouped(p: People) {
    && (forall k :: k in p.reps ==> p.reps[k] in p.rows && p.rows[p.reps[k]].key == k)
    && (forall id :: id in p.rows ==> p.rows[id].key in p.reps && p.rows[id].canonicalId == Some(p.reps[p.rows[id].key]))
  }

  ghost predicate Valid(p: People) { 0 < p.next && Indexed(p) && Keyed(p) && Grouped(p) }

  /** `INSERT .. ON CONFLICT (name, login) DO UPDATE .. RETURNING id`; the sequence moves either way. */
  function GetOrCreate(p: People, w: Who, key: string): (People, nat) {
    if w in p.byWho then (p.(next := p.next + 1), p.byWho[w])
    else (p.(next := p.next + 1, rows := p.rows[p.next := Player(w, key, None)], byWho := p.byWho[w := p.next]), p.next)
  }

  function SetCanonical(p: People, id: nat, rep: nat): People {
    if id in p.rows then p.(rows := p.rows[id := p.rows[id].(canonicalId := Some(rep))]) else p
  }

  /** What `_resolvePlayer` leaves behind, and the id it returns. */
  function ResolveAs(p: People, w: Who, key: string): (People, nat) {
    var (q, id) := GetOrCreate(p, w, key);
    if key !in q.reps then
      var q1 := SetCanonical(q, id, id);
      (q1.(reps := q1.reps[key := id]), id)
    else if q.reps[key] == id then (q, id)
    else (SetCanonical(q, id, q.reps[key]), id)
  }

  function Resolve(p: People, w: Who): (People, nat) { ResolveAs(p, w, KeyOf(w)) }

  /** q extends p: no row of p is changed and no representative of p is moved. */
  ghost predicate Extends(p: People, q: People) {
    && (forall k :: k in p.reps ==> k in q.reps && q.reps[k] == p.reps[k])
    && (forall i :: i in p.rows ==> i in q.rows && q.rows[i] == p.rows[i])
  }

  /** Resolving a known player changes no table row. */
  lemma ResolveKnown(p: People, w: Who, key: string)
    requires Indexed(p) && Grouped(p) && w in p.byWho && p.rows[p.byWho[w]].key == key
    ensures ResolveAs(p, w, key) == (p.(next := p.next + 1), p.byWho[w])
  {
    var id := p.byWho[w];
    assert p.rows[id].key in p.reps && p.rows[id].canonicalId == Some(p.reps[key]);
    assert p.rows[id := p.rows[id].(canonicalId := Some(p.reps[key]))] == p.rows;
  }

  /** Resolving a new player adds one row, which joins its group or founds it. */
  lemma ResolveNew(p: People, w: Who, key: string)
    requires w !in p.byWho
    ensures var id := p.next; var rep := if key in p.reps then p.reps[key] else id;
      (key in p.reps ==> p.reps[key] != id) ==>
      ResolveAs(p, w, key) == (People(id + 1, p.rows[id := Player(w, key, Some(rep))], p.byWho[w := id],
        if key in p.reps then p.reps else p.reps[key := id]), id)
  {
    var id := p.next;
    var rep := if key in p.reps then p.reps[key] else id;
    assert p.rows[id := Player(w, key, None)][id := Player(w, key, Some(rep))] == p.rows[id := Player(w, key, Some(rep))];
  }

  lemma AddRowKeepsGrouping(p: People, q: People, w: Who, key: string, rep: nat)
    requires 0 < p.next && Indexed(p) && Grouped(p) && w !in p.byWho
    requires rep == if key in p.reps then p.reps[key] else p.next
    requires q == People(p.next + 1, p.rows[p.next := Player(w, key, Some(rep))], p.byWho[w := p.next],
                         if key in p.reps then p.reps else p.reps[key := p.next])
    ensures Indexed(q) && Grouped(q)
  {
    assert p.next !in p.rows;
    forall i | i in q.rows
      ensures 0 < i < q.next && q.rows[i].who in q.byWho && q.byWho[q.rows[i].who] == i
      ensures q.rows[i].key in q.reps && q.rows[i].canonicalId == Some(q.reps[q.rows[i].key])
    {
      if i != p.next { assert i in p.rows && q.rows[i] == p.rows[i]; }
    }
    forall v | v in q.byWho ensures q.byWho[v] in q.rows && q.rows[q.byWho[v]].who == v {
      if v != w { assert v in p.byWho && p.byWho[v] in p.rows; }
    }
    forall k | k in q.reps ensures q.reps[k] in q.rows && q.rows[q.reps[k]].key == k {
      if k in p.reps { assert p.reps[k] in p.rows; }
    }
  }

  lemma IndexFacts(p: People, w: Who, key: string)
    requires 0 < p.next && Indexed(p) && Grouped(p)
    ensures p.next !in p.rows && (key in p.reps ==> p.reps[key] in p.rows)
    ensures w in p.byWho ==> p.byWho[w] in p.rows && p.rows[p.byWho[w]].who == w
    ensures Indexed(p.(next := p.next + 1)) && Grouped(p.(next := p.next + 1))
  {
  }

  lemma ResolveAsKeepsGrouping(p: People, w: Who, key: string)
    requires 0 < p.next && Indexed(p) && Grouped(p)
    requires w in p.byWho ==> p.rows[p.byWho[w]].key == key
    ensures var (q, id) := ResolveAs(p, w, key);
      && 0 < q.next && Indexed(q) && Grouped(q) && Extends(p, q)
      && id in q.rows && q.rows[id].who == w && q.rows[id].key == key
      && q.rows.Keys == p.rows.Keys + {id}
  {
    IndexFacts(p, w, key);
    hide ResolveAs, Indexed, Grouped, Extends;
    if w in p.byWho {
      ResolveKnown(p, w, key);
      SameRowsExtend(p, p.(next := p.next + 1), p.byWho[w]);
    } else {
      ResolveNew(p, w, key);
      var rep := if key in p.reps then p.reps[key] else p.next;
      var q := ResolveAs(p, w, key).0;
      AddRowKeepsGrouping(p, q, w, key, rep);
      NewRowExtends(p, q, Player(w, key, Some(rep)), key);
    }
  }

  lemma SameRowsExtend(p: People, q: People, id: nat)
    requires q.rows == p.rows && q.reps == p.reps && id in p.rows
    ensures Extends(p, q) && q.rows.Keys == p.rows.Keys + {id}
  {
  }

  lemma NewRowExtends(p: People, q: People, r: Player, key: string)
    requires p.next !in p.rows && q.rows == p.rows[p.next := r]
    requires q.reps == if key in p.reps then p.reps else p.reps[key := p.next]
    ensures Extends(p, q) && q.rows.Keys == p.rows.Keys + {p.next}
  {
  }

  /** Resolving keeps the grouping, changes no other row, and never moves a representative. */
  lemma ResolveKeepsGrouping(p: People, w: Who)
    requires Valid(p)
    ensures var (q, id) := Resolve(p, w);
      && Valid(q) && Extends(p, q)
      && id in q.rows && q.rows[id].who == w
      && q.rows.Keys == p.rows.Keys + {id}
  {
    var key := KeyOf(w);
    ResolveAsKeepsGrouping(p, w, key);
    var q := Resolve(p, w).0;
    forall i | i in q.rows ensures q.rows[i].key == KeyOf(q.rows[i].who) {
      if i in p.rows { assert q.rows[i] == p.rows[i]; }
    }
  }

  /** The name index gains at most the resolved pair, and resolves it to the returned id. */
  lemma ResolveIndex(p: People, w: Who)
    ensures var (q, id) := Resolve(p, w); q.byWho == p.byWho[w := id]
  {
    if w in p.byWho { assert p.byWho == p.byWho[w := p.byWho[w]]; }
  }

  lemma ExtendsTransitive(p: People, q: People, r: People)
    requires Extends(p, q) && Extends(q, r)
    ensures Extends(p, r)
  {
  }

  /** In consistent tables two rows are in one group exactly when the keys of their nicks agree, and
      every representative represents itself. */
  lemma GroupsAreKeys(p: People, a: nat, b: nat)
    requires Valid(p) && a in p.rows && b in p.rows
    ensures p.rows[a].canonicalId == p.rows[b].canonicalId <==> KeyOf(p.rows[a].who) == KeyOf(p.rows[b].who)
    ensures p.rows[a].canonicalId.Some? && p.rows[a].canonicalId.value in p.rows
    ensures p.rows[p.rows[a].canonicalId.value].canonicalId == p.rows[a].canonicalId
  {
    assert p.rows[a].key == KeyOf(p.rows[a].who) && p.rows[b].key == KeyOf(p.rows[b].who);
    assert p.rows[p.reps[p.rows[a].key]].key == p.rows[a].key;
    assert p.rows[p.reps[p.rows[b].key]].key == p.rows[b].key;
  }

  // ---- rebuildCanonical -------------------------------------------------------------------

  /** A player's score: the latest race id (-1 without one), ties broken by the player id. */
  function LatestOf(latest: map<nat, nat>, id: nat): int {
    if id in latest then latest[id] else -1
  }

  predicate Better(latest: map<nat, nat>, a: nat, b: nat) {
    LatestOf(latest, a) > LatestOf(latest, b) || (LatestOf(latest, a) == LatestOf(latest, b) && a > b)
  }

  /** r is the best of the rows `ids` that have this key. */
  ghost predicate IsBest(rows: map<nat, Player>, latest: map<nat, nat>, ids: seq<nat>, key: string, r: nat)
    requires AllIn(rows, ids)
  {
    && r in ids && rows[r].key == key
    && forall i :: i in ids && rows[i].key == key ==> i == r || Better(latest, r, i)
  }

  predicate AllIn(rows: map<nat, Player>, ids: seq<nat>) { forall n :: 0 <= n < |ids| ==> ids[n] in rows }

  /** `ids` is every row of the table, in some order. */
  predicate Lists(rows: map<nat, Player>, ids: seq<nat>) {
    AllIn(rows, ids) && forall i :: i in rows ==> i in ids
  }

  predicate AllWon(rows: map<nat, Player>, winners: map<string, nat>, ids: seq<nat>)
    requires AllIn(rows, ids)
  {
    forall n :: 0 <= n < |ids| ==> rows[ids[n]].key in winners
  }

  /** The first loop: the best row of each key among `ids`, read left to right. */
  function Winners(rows: map<nat, Player>, latest: map<nat, nat>, ids: seq<nat>): map<string, nat>
    requires AllIn(rows, ids)
    decreases |ids|
  {
    if ids == [] then map[] else
    var g := Winners(rows, latest, ids[..|ids| - 1]);
    var p := ids[|ids| - 1];
    if rows[p].key !in g || Better(latest, p, g[rows[p].key]) then g[rows[p].key := p] else g
  }

  /** The second loop: every row read is pointed at the winner of its key. */
  function Assigned(rows: map<nat, Player>, winners: map<string, nat>, ids: seq<nat>): (r: map<nat, Player>)
    requires AllIn(rows, ids) && AllWon(rows, winners, ids)
    ensures r.Keys == rows.Keys && forall i :: i in r ==> r[i].who == rows[i].who && r[i].key == rows[i].key
    decreases |ids|
  {
    if ids == [] then rows else
    var f, p := Assigned(rows, winners, ids[..|ids| - 1]), ids[|ids| - 1];
    f[p := f[p].(canonicalId := Some(winners[f[p].key]))]
  }

  lemma {:induction false} AssignedAt(rows: map<nat, Player>, winners: map<string, nat>, ids: seq<nat>, i: nat)
    requires AllIn(rows, ids) && AllWon(rows, winners, ids)
    requires i in rows
    ensures Assigned(rows, winners, ids)[i] == if i in ids then rows[i].(canonicalId := Some(winners[rows[i].key])) else rows[i]
    decreases |ids|
  {
    if ids != [] {
      var front := ids[..|ids| - 1];
      assert ids == front + [ids[|ids| - 1]];
      AssignedAt(rows, winners, front, i);
    }
  }

  lemma {:induction false} WinnersAreBest(rows: map<nat, Player>, latest: map<nat, nat>, ids: seq<nat>)
    requires AllIn(rows, ids)
    ensures var g := Winners(rows, latest, ids);
      && AllWon(rows, g, ids)
      && (forall k :: k in g ==> IsBest(rows, latest, ids, k, g[k]))
    decreases |ids|
  {
    if ids != [] {
      var front, p := ids[..|ids| - 1], ids[|ids| - 1];
      assert ids == front + [p];
      WinnersAreBest(rows, latest, front);
      var f, g := Winners(rows, latest, front), Winners(rows, latest, ids);
      forall k | k in g ensures IsBest(rows, latest, ids, k, g[k]) {
        if k in f { assert IsBest(rows, latest, front, k, f[k]); }
      }
    }
  }

  /** The best row of a key does not depend on the order in which the rows were read. */
  lemma BestIsUnique(rows: map<nat, Player>, latest: map<nat, nat>, ids: seq<nat>, jds: seq<nat>, key: string, r: nat, s: nat)
    requires Lists(rows, ids) && Lists(rows, jds)
    requires IsBest(rows, latest, ids, key, r) && IsBest(rows, latest, jds, key, s)
    ensures r == s
  {
    assert r in jds && s in ids;
    assert r == s || Better(latest, r, s);
  }

  /** The tables after `rebuildCanonical` has read the rows in the order `ids`. */
  ghost function Rebuilt(p: People, latest: map<nat, nat>, ids: seq<nat>): People
    requires AllIn(p.rows, ids)
  {
    WinnersAreBest(p.rows, latest, ids);
    var g := Winners(p.rows, latest, ids);
    p.(rows := Assigned(p.rows, g, ids), reps := g)
  }

  /** Rebuilding restores the invariants whatever the grouping was, keeps every key (so the partition),
      and makes the unique maximum of each key by (latest race, player id) its representative. */
  lemma RebuildGroups(p: People, latest: map<nat, nat>, ids: seq<nat>)
    requires 0 < p.next && Indexed(p) && Keyed(p)
    requires Lists(p.rows, ids)
    ensures var q := Rebuilt(p, latest, ids);
      && Valid(q) && q.rows.Keys == p.rows.Keys
      && (forall i :: i in p.rows ==> q.rows[i].who == p.rows[i].who && q.rows[i].key == p.rows[i].key)
      && (forall k :: k in q.reps ==> IsBest(p.rows, latest, ids, k, q.reps[k]))
  {
    WinnersAreBest(p.rows, latest, ids);
    var g := Winners(p.rows, latest, ids);
    var q := Rebuilt(p, latest, ids);
    forall i | i in q.rows ensures q.rows[i].key in g && q.rows[i].canonicalId == Some(g[q.rows[i].key]) {
      AssignedAt(p.rows, g, ids, i);
    }
    forall k | k in g ensures g[k] in q.rows && q.rows[g[k]].key == k {
      assert IsBest(p.rows, latest, ids, k, g[k]);
    }
    assert Keyed(q) && Indexed(q);
  }

  /** After the rebuild a row's representative has its key and, among the rows of that key, the latest race; of several
      with that race, or with none, the highest id. */
  lemma RepresentativeIsLatest(p: People, latest: map<nat, nat>, ids: seq<nat>, i: nat)
    requires 0 < p.next && Indexed(p) && Keyed(p)
    requires Lists(p.rows, ids) && i in p.rows
    ensures var c := Rebuilt(p, latest, ids).rows[i].canonicalId;
      && c.Some? && c.value in p.rows && p.rows[c.value].key == p.rows[i].key
      && (if i in latest then c.value in latest && latest[i] <= latest[c.value] && (latest[i] == latest[c.value] ==> i <= c.value)
          else c.value in latest || i <= c.value)
  {
    hide Winners, Assigned, Indexed, Keyed;
    RebuildGroups(p, latest, ids);
    var r := Rebuilt(p, latest, ids).reps[p.rows[i].key];
    assert IsBest(p.rows, latest, ids, p.rows[i].key, r);
  }

  lemma WinnersAreOrderFree(rows: map<nat, Player>, latest: map<nat, nat>, ids: seq<nat>, jds: seq<nat>)
    requires Lists(rows, ids) && Lists(rows, jds)
    ensures Winners(rows, latest, ids) == Winners(rows, latest, jds)
  {
    WinnersAreBest(rows, latest, ids);
    WinnersAreBest(rows, latest, jds);
    var g, h := Winners(rows, latest, ids), Winners(rows, latest, jds);
    assert g.Keys == h.Keys by {
      forall k ensures k in g <==> k in h {
        if k in g { assert IsBest(rows, latest, ids, k, g[k]); }
        if k in h { assert IsBest(rows, latest, jds, k, h[k]); }
      }
    }
    forall k | k in g ensures g[k] == h[k] {
      BestIsUnique(rows, latest, ids, jds, k, g[k], h[k]);
    }
  }

  /** Reading the player table in another order changes nothing. */
  lemma RebuildIsOrderFree(p: People, latest: map<nat, nat>, ids: seq<nat>, jds: seq<nat>)
    requires Lists(p.rows, ids) && Lists(p.rows, jds)
    ensures Rebuilt(p, latest, ids) == Rebuilt(p, latest, jds)
  {
    hide Winners, Assigned, IsBest;
    WinnersAreOrderFree(p.rows, latest, ids, jds);
    WinnersAreBest(p.rows, latest, ids);
    WinnersAreBest(p.rows, latest, jds);
    var g := Winners(p.rows, latest, ids);
    var r, t := Assigned(p.rows, g, ids), Assigned(p.rows, g, jds);
    forall i | i in r ensures r[i] == t[i] {
      AssignedAt(p.rows, g, ids, i);
      AssignedAt(p.rows, g, jds, i);
    }
    assert r == t;
  }

  method FindWinners(rows: map<nat, Player>, latest: map<nat, nat>, ids: seq<nat>) returns (groups: map<string, nat>)
    requires AllIn(rows, ids)
    ensures groups == Winners(rows, latest, ids)
  {
    groups := map[];
    for n := 0 to |ids|
      invariant groups == Winners(rows, latest, ids[..n])
    {
      assert ids[..n + 1][..n] == ids[..n];
      var p := ids[n];
      if rows[p].key !in groups || Better(latest, p, groups[rows[p].key]) {
        groups := groups[rows[p].key := p];
      }
    }
    assert ids[..|ids|] == ids;
  }

  method AssignAll(before: map<nat, Player>, groups: map<string, nat>, ids: seq<nat>) returns (rows: map<nat, Player>)
    requires AllIn(before, ids) && AllWon(before, groups, ids)
    ensures rows == Assigned(before, groups, ids)
  {
    rows := before;
    for n := 0 to |ids|
      invariant rows == Assigned(before, groups, ids[..n])
    {
      assert ids[..n + 1][..n] == ids[..n];
      var p := ids[n];
      rows := rows[p := rows[p].(canonicalId := Some(groups[rows[p].key]))];
    }
    assert ids[..|ids|] == ids;
  }

  /** The player and canonical tables as the store updates them in place. */
  class PeopleStore {
    var next: nat
    var rows: map<nat, Player>
    var byWho: map<Who, nat>
    var reps: map<string, nat>

    ghost function View(): People reads this { People(next, rows, byWho, reps) }

    constructor ()
      ensures View() == NO_PEOPLE && Valid(View())
    {
      next, rows, byWho, reps := 1, map[], map[], map[];
    }

    method ResolvePlayer(w: Who) returns (id: nat)
      modifies this
      ensures (View(), id) == Resolve(old(View()), w)
    {
      hide CanonKey, StripColours;
      var key := CanonKey(StripColours(w.name));
      if w in byWho {
        id := byWho[w];
      } else {
        id := next;
        rows, byWho := rows[id := Player(w, key, None)], byWho[w := id];
      }
      next := next + 1;
      if key !in reps {
        if id in rows { rows := rows[id := rows[id].(canonicalId := Some(id))]; }
        reps := reps[key := id];
        return;
      }
      if reps[key] == id { return; }
      if id in rows { rows := rows[id := rows[id].(canonicalId := Some(reps[key]))]; }
    }

    /** `ids` is the player table in whatever order the database returned it. */
    method RebuildCanonical(ids: seq<nat>, latest: map<nat, nat>)
      requires Lists(rows, ids)
      modifies this
      ensures View() == Rebuilt(old(View()), latest, ids)
    {
      var groups := FindWinners(rows, latest, ids);
      WinnersAreBest(rows, latest, ids);
      rows := AssignAll(rows, groups, ids);
      reps := groups;
    }
  }
}
