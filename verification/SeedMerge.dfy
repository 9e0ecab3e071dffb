/** The seeding run (web/seed-topscores.js): database bests and on-disk entries merged per nick, sorted, cut
    and printed. */
module SeedMerge {
  import opened Extrema
  import opened Wrappers
  import opened Text
  import opened Numbers
  import opened Topscores
  import opened TopscoresFeed

  const MAX_RECORDS := 50

  // ---- nicks -----------------------------------------------------------------------------------

  /** `replace(/\^\^/g, "\0")` */
  function HideCarets(s: string): string {
    if s == "" then ""
    else if |s| > 1 && s[0] == '^' && s[1] == '^' then ['\0'] + HideCarets(s[2..])
    else [s[0]] + HideCarets(s[1..])
  }

  function ShowCarets(s: string): string {
    if s == "" then "" else [if s[0] == '\0' then '^' else s[0]] + ShowCarets(s[1..])
  }

  /** The identity of a name: without colour codes, in lower case. */
  function CleanName(name: string): string { Lower(ShowCarets(StripColours(HideCarets(name)))) }

  function Nick(e: Entry): string { CleanName(e.name) }

  // ---- the merge ----------------------------------------------------------------------------------

  /** The values of the Map in insertion order; the key of each is its nick. */
  type Nicks = seq<Entry>

  function IndexOf(m: Nicks, nick: string): (i: nat)
    ensures i <= |m| && (i < |m| ==> Nick(m[i]) == nick) && forall k :: 0 <= k < i ==> Nick(m[k]) != nick
  {
    if m == [] || Nick(m[0]) == nick then 0 else 1 + IndexOf(m[1..], nick)
  }

  function Put(m: Nicks, e: Entry): Nicks {
    if Nick(e) == "" then m else
    var i := IndexOf(m, Nick(e));
    if i == |m| then m + [e] else if e.time < m[i].time then m[i := e] else m
  }

  function Merge(m: Nicks, es: seq<Entry>): Nicks {
    if es == [] then m else Put(Merge(m, es[..|es| - 1]), es[|es| - 1])
  }

  /** The merging loop over a Map, here its keys in order and its values. */
  method MergeAll(es: seq<Entry>) returns (entries: seq<Entry>)
    ensures entries == Merge([], es)
  {
    hide CleanName, Put, Merge;
    var nicks: seq<string> := [];
    var byNick: map<string, Entry> := map[];
    ghost var m: Nicks := [];
    MergeNothing([]);
    assert es[..0] == [];
    for k := 0 to |es|
      invariant m == Merge([], es[..k]) && MapIs(nicks, byNick, m)
    {
      var e := es[k];
      MergeStep([], es[..k], e);
      assert es[..k + 1] == es[..k] + [e];
      var key := CleanName(e.name);
      PutInMap(nicks, byNick, m, e);
      m := Put(m, e);
      if key != "" {
        if key !in byNick { nicks := nicks + [key]; }
        if key !in byNick || e.time < byNick[key].time { byNick := byNick[key := e]; }
      }
    }
    assert es[..|es|] == es;
    entries := seq(|nicks|, i requires 0 <= i < |nicks| && nicks[i] in byNick => byNick[nicks[i]]);
  }

  ghost predicate MapIs(nicks: seq<string>, byNick: map<string, Entry>, m: Nicks) {
    && |nicks| == |m|
    && (forall i :: 0 <= i < |m| ==> nicks[i] == Nick(m[i]) && nicks[i] in byNick && byNick[nicks[i]] == m[i])
    && (forall key :: key in byNick ==> key in nicks)
    && Distinct(m)
  }

  lemma PutInMap(nicks: seq<string>, byNick: map<string, Entry>, m: Nicks, e: Entry)
    requires MapIs(nicks, byNick, m)
    ensures var key := CleanName(e.name);
      var t := Put(m, e);
      if key == "" then t == m
      else if key !in byNick then MapIs(nicks + [key], byNick[key := e], t)
      else if e.time < byNick[key].time then MapIs(nicks, byNick[key := e], t)
      else t == m
  {
    hide CleanName, MapIs;
    var key := CleanName(e.name);
    if key != "" {
      KeyIsKnown(nicks, byNick, m, key);
      if key !in byNick {
        PutFresh(nicks, byNick, m, e);
      } else if e.time < byNick[key].time {
        PutFaster(nicks, byNick, m, e);
      }
    }
  }

  lemma KeyIsKnown(nicks: seq<string>, byNick: map<string, Entry>, m: Nicks, key: string)
    requires MapIs(nicks, byNick, m)
    ensures var i := IndexOf(m, key);
      (key in byNick <==> i < |m|) && (key in byNick ==> byNick[key] == m[i])
  {
    hide CleanName;
    assert forall k :: 0 <= k < |m| ==> nicks[k] in byNick;
  }

  lemma PutFresh(nicks: seq<string>, byNick: map<string, Entry>, m: Nicks, e: Entry)
    requires MapIs(nicks, byNick, m) && IndexOf(m, Nick(e)) == |m|
    ensures MapIs(nicks + [Nick(e)], byNick[Nick(e) := e], m + [e])
  {
    hide CleanName;
    var t := m + [e];
    forall i, j | 0 <= i < j < |t| ensures Nick(t[i]) != Nick(t[j]) { assert t[i] == m[i]; }
  }

  lemma SameNicksDistinct(m: Nicks, t: Nicks)
    requires Distinct(m) && |t| == |m| && forall i :: 0 <= i < |m| ==> Nick(t[i]) == Nick(m[i])
    ensures Distinct(t)
  {
    hide CleanName;
  }

  lemma PutFaster(nicks: seq<string>, byNick: map<string, Entry>, m: Nicks, e: Entry)
    requires MapIs(nicks, byNick, m) && IndexOf(m, Nick(e)) < |m|
    ensures MapIs(nicks, byNick[Nick(e) := e], m[IndexOf(m, Nick(e)) := e])
  {
    hide CleanName, IndexOf, Distinct;
    var t := m[IndexOf(m, Nick(e)) := e];
    SameNicksDistinct(m, t);
    forall i | 0 <= i < |m| && i != IndexOf(m, Nick(e)) ensures nicks[i] != Nick(e) { NickIsAt(m, i); }
  }

  lemma MergeStep(m: Nicks, es: seq<Entry>, e: Entry)
    ensures Merge(m, es + [e]) == Put(Merge(m, es), e)
  {
    assert (es + [e])[..|es|] == es;
  }

  lemma MergeNothing(m: Nicks)
    ensures Merge(m, []) == m
  {
  }

  ghost predicate Distinct(m: Nicks) { forall i, j :: 0 <= i < j < |m| ==> Nick(m[i]) != Nick(m[j]) }

  predicate Named(m: Nicks) { forall i :: 0 <= i < |m| ==> Nick(m[i]) != "" }

  lemma NickIsAt(m: Nicks, i: nat)
    requires Distinct(m) && i < |m|
    ensures IndexOf(m, Nick(m[i])) == i
  {
    hide CleanName;
    var k := IndexOf(m, Nick(m[i]));
    assert k <= i;
  }

  lemma SameNickSame(m: Nicks, a: Entry, b: Entry)
    requires Distinct(m) && a in m && b in m && Nick(a) == Nick(b)
    ensures a == b
  {
    hide CleanName;
  }

  /** The merge of es into m: every nick of m keeps its place and its entry, unless es has a faster one. */
  ghost predicate Improves(m: Nicks, t: Nicks) {
    |m| <= |t| && forall i :: 0 <= i < |m| ==> Nick(t[i]) == Nick(m[i]) && (t[i] == m[i] || t[i].time < m[i].time)
  }

  lemma PutFacts(m: Nicks, e: Entry)
    requires Distinct(m) && Named(m)
    ensures var t := Put(m, e);
      && Distinct(t) && Named(t) && Improves(m, t)
      && (forall i :: 0 <= i < |t| ==> t[i] == e || (i < |m| && t[i] == m[i]))
      && (Nick(e) != "" ==> IndexOf(t, Nick(e)) < |t| && t[IndexOf(t, Nick(e))].time <= e.time)
      && (forall nick :: IndexOf(m, nick) < |m| ==> IndexOf(t, nick) == IndexOf(m, nick))
  {
    hide CleanName;
    var t := Put(m, e);
    var i := IndexOf(m, Nick(e));
    assert Distinct(t);
    if Nick(e) != "" {
      assert Nick(t[i]) == Nick(e);
      NickIsAt(t, i);
    }
    forall nick | IndexOf(m, nick) < |m| ensures IndexOf(t, nick) == IndexOf(m, nick) {
      assert Nick(t[IndexOf(m, nick)]) == nick;
      NickIsAt(t, IndexOf(m, nick));
    }
  }

  /** Each entry merged is represented by one at least as fast. */
  ghost predicate Represents(t: Nicks, es: seq<Entry>) {
    forall e :: e in es && Nick(e) != "" ==> IndexOf(t, Nick(e)) < |t| && t[IndexOf(t, Nick(e))].time <= e.time
  }

  ghost predicate ComesFrom(t: Nicks, m: Nicks, es: seq<Entry>) {
    forall i :: 0 <= i < |t| ==> t[i] in es || (i < |m| && t[i] == m[i])
  }

  /** The merge keeps one entry per nick, the fastest of m's and of es's, and invents none. */
  lemma {:induction false} MergeKeepsBest(m: Nicks, es: seq<Entry>)
    requires Distinct(m) && Named(m)
    ensures var t := Merge(m, es);
      Distinct(t) && Named(t) && Improves(m, t) && Represents(t, es) && ComesFrom(t, m, es)
  {
    hide CleanName, Put, Distinct, Named, Represents, Improves, ComesFrom;
    if es != [] {
      var rest, e := es[..|es| - 1], es[|es| - 1];
      MergeKeepsBest(m, rest);
      var s := Merge(m, rest);
      PutFacts(s, e);
      var t := Put(s, e);
      ImprovesTransitive(m, s, t);
      RepresentsStep(s, t, es);
      ComesFromStep(m, s, t, es);
    } else {
      MergeNothing(m);
      NothingMerged(m);
    }
  }

  lemma NothingMerged(m: Nicks)
    ensures Improves(m, m) && Represents(m, []) && ComesFrom(m, m, [])
  {
    hide CleanName;
  }

  lemma ImprovesTransitive(m: Nicks, s: Nicks, t: Nicks)
    requires Improves(m, s) && Improves(s, t)
    ensures Improves(m, t)
  {
    hide CleanName;
  }

  lemma RepresentsStep(s: Nicks, t: Nicks, es: seq<Entry>)
    requires es != [] && Represents(s, es[..|es| - 1]) && Improves(s, t)
    requires forall nick :: IndexOf(s, nick) < |s| ==> IndexOf(t, nick) == IndexOf(s, nick)
    requires var e := es[|es| - 1]; Nick(e) != "" ==> IndexOf(t, Nick(e)) < |t| && t[IndexOf(t, Nick(e))].time <= e.time
    ensures Represents(t, es)
  {
    hide CleanName, IndexOf;
    forall x | x in es && Nick(x) != "" ensures IndexOf(t, Nick(x)) < |t| && t[IndexOf(t, Nick(x))].time <= x.time {
      if x in es[..|es| - 1] { assert IndexOf(s, Nick(x)) < |s|; }
    }
  }

  lemma ComesFromStep(m: Nicks, s: Nicks, t: Nicks, es: seq<Entry>)
    requires es != [] && ComesFrom(s, m, es[..|es| - 1])
    requires forall i :: 0 <= i < |t| ==> t[i] == es[|es| - 1] || (i < |s| && t[i] == s[i])
    ensures ComesFrom(t, m, es)
  {
  }

  lemma {:induction false} MergeSplits(m: Nicks, a: seq<Entry>, b: seq<Entry>)
    ensures Merge(m, a + b) == Merge(Merge(m, a), b)
  {
    hide Put;
    if b == [] {
      assert a + b == a;
    } else {
      MergeSplits(m, a, b[..|b| - 1]);
      assert a + b == (a + b[..|b| - 1]) + [b[|b| - 1]];
      MergeStep(m, a + b[..|b| - 1], b[|b| - 1]);
    }
  }

  /** New nicks join in the order of the entries that bring them. */
  lemma {:induction false} NewNicksInOrder(m: Nicks, es: seq<Entry>, i: nat, j: nat)
    requires Distinct(m) && Named(m) && Distinct(es) && Named(es) && i < j < |es|
    requires IndexOf(m, Nick(es[i])) == |m| && IndexOf(m, Nick(es[j])) == |m|
    ensures var t := Merge(m, es); IndexOf(t, Nick(es[i])) < IndexOf(t, Nick(es[j])) < |t|
    decreases |es|
  {
    hide CleanName, Put, Merge, IndexOf, Improves, ComesFrom;
    var rest, e := es[..|es| - 1], es[|es| - 1];
    MergeStep(m, rest, e);
    assert es == rest + [e];
    MergeKeepsBest(m, rest);
    var s := Merge(m, rest);
    PutKeepsPlaces(s, e);
    assert rest[i] == es[i] && rest[i] in rest;
    assert IndexOf(s, Nick(es[i])) < |s|;
    if j < |es| - 1 {
      assert rest[j] == es[j] && rest[j] in rest;
      NewNicksInOrder(m, rest, i, j);
    } else {
      LastNickIsNew(m, rest, s, e);
      LastNickAppended(s, e);
    }
  }

  lemma PutKeepsPlaces(m: Nicks, e: Entry)
    requires Distinct(m) && Named(m)
    ensures |m| <= |Put(m, e)|
    ensures forall nick :: IndexOf(m, nick) < |m| ==> IndexOf(Put(m, e), nick) == IndexOf(m, nick)
  {
    hide CleanName;
    PutFacts(m, e);
  }

  lemma LastNickIsNew(m: Nicks, rest: seq<Entry>, s: Nicks, e: Entry)
    requires ComesFrom(s, m, rest) && IndexOf(m, Nick(e)) == |m|
    requires forall k :: 0 <= k < |rest| ==> Nick(rest[k]) != Nick(e)
    ensures IndexOf(s, Nick(e)) == |s|
  {
    hide CleanName;
    var k := IndexOf(s, Nick(e));
  }

  lemma LastNickAppended(s: Nicks, e: Entry)
    requires Nick(e) != "" && IndexOf(s, Nick(e)) == |s| && Distinct(s)
    ensures IndexOf(Put(s, e), Nick(e)) == |s| < |Put(s, e)|
  {
    hide CleanName;
    var t := Put(s, e);
    assert Nick(t[|s|]) == Nick(e);
    assert forall k :: 0 <= k < |s| ==> t[k] == s[k];
  }

  // ---- the sort and the cut -------------------------------------------------------------------------

  /** A stable insertion: behind every entry that is not slower. */
  function InsertByTime(s: seq<Entry>, e: Entry): seq<Entry> {
    if s == [] || s[|s| - 1].time <= e.time then s + [e]
    else InsertByTime(s[..|s| - 1], e) + [s[|s| - 1]]
  }

  /** `sort((a, b) => a.time - b.time)`, which is stable. */
  function SortByTime(m: Nicks): seq<Entry> {
    if m == [] then [] else InsertByTime(SortByTime(m[..|m| - 1]), m[|m| - 1])
  }

  function Top(m: Nicks): (r: seq<Entry>)
    ensures |r| <= MAX_RECORDS
  {
    var s := SortByTime(m);
    if |s| > MAX_RECORDS then s[..MAX_RECORDS] else s
  }

  /** The order of the sort: by time, and for equal times by place in the Map. */
  predicate Before(m: Nicks, a: Entry, b: Entry) {
    a.time < b.time || (a.time == b.time && IndexOf(m, Nick(a)) < IndexOf(m, Nick(b)))
  }

  ghost predicate InOrder(m: Nicks, s: seq<Entry>) { forall i, j :: 0 <= i < j < |s| ==> Before(m, s[i], s[j]) }

  lemma {:induction false} InsertKeepsOrder(m: Nicks, s: seq<Entry>, e: Entry)
    requires InOrder(m, s) && forall k :: 0 <= k < |s| ==> IndexOf(m, Nick(s[k])) < IndexOf(m, Nick(e))
    ensures InOrder(m, InsertByTime(s, e)) && |InsertByTime(s, e)| == |s| + 1
    ensures forall x :: x in InsertByTime(s, e) <==> x in s || x == e
  {
    hide CleanName, IndexOf;
    if s == [] || s[|s| - 1].time <= e.time {
      forall k | 0 <= k < |s| ensures Before(m, s[k], e) {
        if k < |s| - 1 { assert Before(m, s[k], s[|s| - 1]); }
      }
    } else {
      var init, last := s[..|s| - 1], s[|s| - 1];
      InsertKeepsOrder(m, init, e);
      var t := InsertByTime(init, e);
      forall k | 0 <= k < |t| ensures Before(m, t[k], last) {
        assert t[k] in t;
        if t[k] != e {
          var i :| 0 <= i < |init| && init[i] == t[k];
          assert Before(m, s[i], last);
        }
      }
      assert forall x :: x in s <==> x in init || x == last;
    }
  }

  lemma {:induction false} SortIsOrdered(m: Nicks)
    requires Distinct(m)
    ensures InOrder(m, SortByTime(m)) && |SortByTime(m)| == |m|
    ensures forall x :: x in SortByTime(m) <==> x in m
  {
    hide CleanName, InsertByTime, Before;
    if m != [] {
      var init, e := m[..|m| - 1], m[|m| - 1];
      SortIsOrdered(init);
      var s := SortByTime(init);
      NickIsAt(m, |m| - 1);
      forall k | 0 <= k < |s| ensures IndexOf(m, Nick(s[k])) < |m| - 1 && IndexOf(m, Nick(s[k])) == IndexOf(init, Nick(s[k])) {
        assert s[k] in s;
        var i :| 0 <= i < |init| && init[i] == s[k];
        assert m[i] == s[k];
        NickIsAt(m, i);
        NickIsAt(init, i);
      }
      OrderExtends(init, m, s);
      InsertKeepsOrder(m, s, e);
      assert forall x :: x in m <==> x in init || x == e;
    }
  }

  lemma OrderExtends(init: Nicks, m: Nicks, s: seq<Entry>)
    requires InOrder(init, s) && forall k :: 0 <= k < |s| ==> IndexOf(m, Nick(s[k])) == IndexOf(init, Nick(s[k]))
    ensures InOrder(m, s)
  {
    hide CleanName, IndexOf;
    forall i, j | 0 <= i < j < |s| ensures Before(m, s[i], s[j]) { assert Before(init, s[i], s[j]); }
  }

  /** t is the ordered list of the first MAX_RECORDS entries of m. */
  ghost predicate IsTop(m: Nicks, t: seq<Entry>) {
    && |t| <= MAX_RECORDS
    && (forall e :: e in t ==> e in m)
    && InOrder(m, t)
    && (forall e :: e in m && e !in t ==> Outranked(m, t, e))
  }

  /** The list is full and all of it comes before e. */
  ghost predicate Outranked(m: Nicks, t: seq<Entry>, e: Entry) {
    |t| == MAX_RECORDS && forall x :: x in t ==> Before(m, x, e)
  }

  lemma TopIsTop(m: Nicks)
    requires Distinct(m)
    ensures IsTop(m, Top(m))
  {
    hide CleanName, Before;
    SortIsOrdered(m);
    var s, t := SortByTime(m), Top(m);
    forall e | e in t ensures e in m { assert e in s; }
    forall e | e in m && e !in t ensures Outranked(m, t, e) {
      assert e in s;
      var j :| 0 <= j < |s| && s[j] == e;
      assert |t| == MAX_RECORDS && t == s[..MAX_RECORDS];
      assert forall k :: 0 <= k < |t| ==> t[k] == s[k] && t[k] in t;
      forall x | x in t ensures Before(m, x, e) {
        var i :| 0 <= i < |t| && t[i] == x;
        assert Before(m, s[i], s[j]);
      }
    }
  }

  lemma InOrderDistinct(m: Nicks, t: seq<Entry>, i: nat, j: nat)
    requires InOrder(m, t) && i < j < |t|
    ensures t[i] != t[j]
  {
    hide CleanName, IndexOf;
    assert Before(m, t[i], t[j]);
  }

  /** From a common prefix on, the next entry of one list is in or outranked by the other. */
  lemma TopStep(m: Nicks, t: seq<Entry>, u: seq<Entry>, i: nat)
    requires IsTop(m, t) && IsTop(m, u) && i < |u| && i <= |t| && t[..i] == u[..i]
    ensures i < |t| && (t[i] == u[i] || Before(m, t[i], u[i]))
  {
    hide CleanName, Before;
    assert u[i] in u;
    if u[i] in t {
      var j :| 0 <= j < |t| && t[j] == u[i];
      assert j >= i by {
        if j < i {
          assert t[j] == t[..i][j] == u[..i][j] == u[j];
          InOrderDistinct(m, u, j, i);
        }
      }
      if j > i { assert Before(m, t[i], t[j]); }
    } else {
      assert Outranked(m, t, u[i]);
      assert t[i] in t;
    }
  }

  lemma BeforeIsStrict(m: Nicks, a: Entry, b: Entry)
    requires Before(m, a, b)
    ensures !Before(m, b, a)
  {
  }

  /** There is only one such list. */
  lemma {:induction false} TopIsUnique(m: Nicks, t: seq<Entry>, u: seq<Entry>, i: nat)
    requires IsTop(m, t) && IsTop(m, u) && i <= |t| && i <= |u| && t[..i] == u[..i]
    ensures t == u
    decreases |t| - i
  {
    hide CleanName, Before, IsTop;
    if i < |t| || i < |u| {
      if i < |u| { TopStep(m, t, u, i); }
      if i < |t| { TopStep(m, u, t, i); }
      if t[i] != u[i] {
        TopStep(m, t, u, i);
        BeforeIsStrict(m, t[i], u[i]);
      }
      assert t[..i + 1] == t[..i] + [t[i]] && u[..i + 1] == u[..i] + [u[i]];
      TopIsUnique(m, t, u, i + 1);
    } else {
      assert t[..i] == t && u[..i] == u;
    }
  }

  // ---- the second run ---------------------------------------------------------------------------------

  /** The database's own list is p, the first run's list is Top(Merge(p, f)). The second run reads back a part
      `again` of that list which holds at least every entry that is not the database's. */
  ghost predicate ReadBack(p: Nicks, first: seq<Entry>, again: seq<Entry>) {
    && again <= first
    && forall i :: |again| <= i < |first| ==> first[i] in p
  }

  lemma FirstFacts(p: Nicks, f: seq<Entry>)
    requires Distinct(p) && Named(p)
    ensures var m, first := Merge(p, f), Top(Merge(p, f));
      IsTop(m, first) && Distinct(m) && Named(m) && Improves(p, m)
  {
    MergeKeepsBest(p, f);
    TopIsTop(Merge(p, f));
  }

  lemma AgainIsDistinct(m: Nicks, first: seq<Entry>, again: seq<Entry>)
    requires Distinct(m) && Named(m) && IsTop(m, first) && again <= first
    ensures Distinct(again) && Named(again)
  {
    hide CleanName, IndexOf, Before;
    forall i, j | 0 <= i < j < |again| ensures Nick(again[i]) != Nick(again[j]) {
      assert again[i] == first[i] && again[j] == first[j];
      assert first[i] in first && first[j] in first;
      InOrderDistinct(m, first, i, j);
      if Nick(first[i]) == Nick(first[j]) { SameNickSame(m, first[i], first[j]); }
    }
    forall i | 0 <= i < |again| ensures Nick(again[i]) != "" { assert again[i] == first[i] && first[i] in first; }
  }

  /** Everything listed first is in the second merge, unchanged. */
  lemma FirstIsMerged(p: Nicks, f: seq<Entry>, again: seq<Entry>, e: Entry)
    requires Distinct(p) && Named(p) && e in Top(Merge(p, f)) && ReadBack(p, Top(Merge(p, f)), again)
    ensures e in Merge(p, again)
  {
    hide CleanName, Before, Merge, Top, Distinct, Named, InOrder;
    var m, first, t := Merge(p, f), Top(Merge(p, f)), Merge(p, again);
    FirstFacts(p, f);
    MergeKeepsBest(p, again);
    assert e in m;
    InMergeIsNamed(m, e);
    if e in again {
      var i := IndexOf(t, Nick(e));
      SameOrFaster(p, m, first, again, t, e, i);
    } else {
      assert e in p;
      var i :| 0 <= i < |p| && p[i] == e;
      if t[i] != e {
        assert t[i] in again;
        assert t[i] in first;
        SameNickSame(m, t[i], e);
      }
    }
  }

  lemma InMergeIsNamed(m: Nicks, e: Entry)
    requires Named(m) && e in m
    ensures Nick(e) != ""
  {
  }

  lemma SameOrFaster(p: Nicks, m: Nicks, first: seq<Entry>, again: seq<Entry>, t: Nicks, e: Entry, i: nat)
    requires Distinct(m) && Improves(p, m) && ComesFrom(t, p, again) && again <= first
    requires (forall x :: x in first ==> x in m) && e in m && i < |t| && Nick(t[i]) == Nick(e) && t[i].time <= e.time
    ensures t[i] == e
  {
    hide CleanName;
    if t[i] in again {
      assert t[i] in first;
      SameNickSame(m, t[i], e);
    } else {
      assert m[i] in m;
      SameNickSame(m, m[i], e);
    }
  }

  /** Places in the second merge order the first list as places in the first merge did. */
  lemma FirstStaysInOrder(p: Nicks, f: seq<Entry>, again: seq<Entry>, i: nat, j: nat)
    requires Distinct(p) && Named(p) && ReadBack(p, Top(Merge(p, f)), again) && i < j < |Top(Merge(p, f))|
    ensures Before(Merge(p, again), Top(Merge(p, f))[i], Top(Merge(p, f))[j])
  {
    hide CleanName, Merge, Top, Distinct, Named, IndexOf, ReadBack;
    var m, first, t := Merge(p, f), Top(Merge(p, f)), Merge(p, again);
    FirstFacts(p, f);
    var a, b := first[i], first[j];
    assert Before(m, a, b);
    if a.time == b.time {
      MergeKeepsBest(p, again);
      AgainIsDistinct(m, first, again) by { ReadBackIsPrefix(p, first, again); }
      PlaceOf(p, m, a);
      PlaceOf(p, m, b);
      PlaceOf(p, t, a);
      PlaceOf(p, t, b);
      FirstIsMerged(p, f, again, b);
      PlaceExists(t, b);
      if IndexOf(p, Nick(a)) == |p| && IndexOf(p, Nick(b)) == |p| {
        BothAreRead(p, first, again, i, j);
        NewNicksInOrder(p, again, i, j);
      }
    }
  }

  lemma ReadBackIsPrefix(p: Nicks, first: seq<Entry>, again: seq<Entry>)
    requires ReadBack(p, first, again)
    ensures again <= first
  {
  }

  lemma BothAreRead(p: Nicks, first: seq<Entry>, again: seq<Entry>, i: nat, j: nat)
    requires ReadBack(p, first, again) && i < j < |first|
    requires IndexOf(p, Nick(first[i])) == |p| && IndexOf(p, Nick(first[j])) == |p|
    ensures j < |again| && again[i] == first[i] && again[j] == first[j]
  {
    hide CleanName;
  }

  lemma PlaceExists(t: Nicks, e: Entry)
    requires e in t
    ensures IndexOf(t, Nick(e)) < |t|
  {
    hide CleanName;
  }

  /** The nicks of p keep their places; all others come after. */
  lemma PlaceOf(p: Nicks, m: Nicks, e: Entry)
    requires Improves(p, m) && Distinct(m)
    ensures if IndexOf(p, Nick(e)) < |p| then IndexOf(m, Nick(e)) == IndexOf(p, Nick(e)) else IndexOf(m, Nick(e)) >= |p|
  {
    hide CleanName;
    var i := IndexOf(p, Nick(e));
    if i < |p| {
      assert Nick(m[i]) == Nick(e);
      NickIsAt(m, i);
    } else {
      assert forall k :: 0 <= k < |p| ==> Nick(m[k]) == Nick(p[k]);
    }
  }

  /** What the first run cut off stays behind everything it listed. */
  lemma CutStaysCut(p: Nicks, f: seq<Entry>, again: seq<Entry>, e: Entry)
    requires Distinct(p) && Named(p) && ReadBack(p, Top(Merge(p, f)), again)
    requires e in Merge(p, again) && e !in Top(Merge(p, f))
    ensures Outranked(Merge(p, again), Top(Merge(p, f)), e)
  {
    hide CleanName, Merge, Top, Named, IndexOf, InOrder, Before;
    var m, first, t := Merge(p, f), Top(Merge(p, f)), Merge(p, again);
    FirstFacts(p, f);
    MergeKeepsBest(p, again);
    var i :| 0 <= i < |t| && t[i] == e;
    assert e !in again;
    var v := m[i];
    assert v in m;
    if v in first {
      FirstIsMerged(p, f, again, v);
      SameNickSame(t, v, e);
    }
    assert Outranked(m, first, v);
    forall x | x in first ensures Before(t, x, e) {
      assert Before(m, x, v);
      OutrankedLater(p, m, t, x, v, e, i);
    }
  }

  lemma OutrankedLater(p: Nicks, m: Nicks, t: Nicks, x: Entry, v: Entry, e: Entry, i: nat)
    requires Improves(p, m) && Improves(p, t) && Distinct(m) && Distinct(t)
    requires i < |p| && m[i] == v && t[i] == e && v.time <= e.time && Before(m, x, v)
    ensures Before(t, x, e)
  {
    hide CleanName, IndexOf;
    NickIsAt(m, i);
    NickIsAt(t, i);
    PlaceOf(p, m, x);
    PlaceOf(p, t, x);
  }

  /** The second run lists exactly what the first one did. */
  lemma SecondRunSame(p: Nicks, f: seq<Entry>, again: seq<Entry>)
    requires Distinct(p) && Named(p) && ReadBack(p, Top(Merge(p, f)), again)
    ensures Top(Merge(p, again)) == Top(Merge(p, f))
  {
    hide CleanName, Merge, Top, Distinct, Named, Before, ReadBack, Outranked;
    var first, t := Top(Merge(p, f)), Merge(p, again);
    MergeKeepsBest(p, again);
    forall e | e in first ensures e in t { FirstIsMerged(p, f, again, e); }
    forall i, j | 0 <= i < j < |first| ensures Before(t, first[i], first[j]) { FirstStaysInOrder(p, f, again, i, j); }
    forall e | e in t && e !in first ensures Outranked(t, first, e) { CutStaysCut(p, f, again, e); }
    assert IsTop(t, first);
    TopIsTop(t);
    assert first[..0] == Top(t)[..0];
    TopIsUnique(t, Top(t), first, 0);
  }

  /** An entry that was not read back and is not the database's is lost. */
  lemma UnreadIsLost(p: Nicks, f: seq<Entry>, again: seq<Entry>, i: nat)
    requires Distinct(p) && Named(p) && again <= Top(Merge(p, f)) && |again| <= i < |Top(Merge(p, f))|
    requires Top(Merge(p, f))[i] !in p
    ensures Top(Merge(p, again)) != Top(Merge(p, f))
  {
    hide CleanName, Merge, Top, Distinct, Named, Before;
    var m, first, t := Merge(p, f), Top(Merge(p, f)), Merge(p, again);
    FirstFacts(p, f);
    MergeKeepsBest(p, again);
    TopIsTop(t);
    var e := first[i];
    forall k: nat | k < |again| ensures again[k] != e {
      assert again[k] == first[k];
      InOrderDistinct(m, first, k, i);
    }
    assert e !in t;
    assert e in first && e !in Top(t);
  }

  // ---- whole runs over files --------------------------------------------------------------------------

  /** A row of the query: the best race of a canonical player. */
  function FromDb(rows: seq<Row>): (r: seq<Entry>)
    ensures |r| == |rows|
    ensures forall i :: 0 <= i < |r| ==> r[i] == Entry(rows[i].time, SanitizeName(rows[i].name), rows[i].checkpoints)
  {
    if rows == [] then []
    else [Entry(rows[0].time, SanitizeName(rows[0].name), rows[0].checkpoints)] + FromDb(rows[1..])
  }

  /** The list one run writes, given what is on disk. */
  function Seeded(rows: seq<Row>, existing: seq<Entry>): seq<Entry> { Top(Merge([], FromDb(rows) + existing)) }

  /** One run over one map: the file's new text, or its text as it was when there is nothing to write. */
  method SeedMap(course: string, rows: seq<Row>, file: string) returns (text: string)
    ensures var entries := Seeded(rows, ParseExisting(file)); text == if entries == [] then file else Body(course, entries)
  {
    hide Body, ParseExisting, Merge, SanitizeName, InsertByTime;
    var fromDb: seq<Entry> := [];
    for k := 0 to |rows|
      invariant fromDb == FromDb(rows)[..k]
    {
      fromDb := fromDb + [Entry(rows[k].time, SanitizeName(rows[k].name), rows[k].checkpoints)];
    }
    assert FromDb(rows)[..|rows|] == FromDb(rows);
    var existing := ParseExistingText(file);
    var merged := MergeAll(fromDb + existing);
    var entries := Top(merged);
    if entries == [] { return file; }
    text := Body(course, entries);
  }

  /** How much of a printed list the seeder reads back: up to the first entry with too many sectors. */
  function ReadLength(es: seq<Entry>): (n: nat)
    ensures n <= |es| && (forall i :: 0 <= i < n ==> |es[i].sectors| <= MAX_SECTORS)
    ensures n < |es| ==> |es[n].sectors| > MAX_SECTORS
  {
    if es == [] || |es[0].sectors| > MAX_SECTORS then 0 else 1 + ReadLength(es[1..])
  }

  lemma {:induction false} KeptIsPrefix(es: seq<Entry>)
    requires forall i :: 0 <= i < |es| ==> es[i].time > 0 && es[i].name != ""
    ensures Kept(es) == es[..ReadLength(es)]
  {
    if es != [] && |es[0].sectors| <= MAX_SECTORS {
      KeptIsPrefix(es[1..]);
      assert es[..ReadLength(es)] == [es[0]] + es[1..][..ReadLength(es[1..])];
    }
  }

  predicate AllTimed(es: seq<Entry>) { forall i :: 0 <= i < |es| ==> es[i].time > 0 }

  lemma NamelessNick()
    ensures CleanName("") == ""
  {
  }

  /** What holds of every list a run writes. */
  lemma SeededIsPrintable(rows: seq<Row>, existing: seq<Entry>)
    requires AllTimed(FromDb(rows)) && AllTimed(existing) && NamesQuoteFree(existing)
    ensures var es := Seeded(rows, existing);
      NamesQuoteFree(es) && forall i :: 0 <= i < |es| ==> es[i].time > 0 && es[i].name != ""
  {
    hide CleanName, Merge, Top, QuoteFree, SanitizeName;
    var all := FromDb(rows) + existing;
    var es := Seeded(rows, existing);
    FirstFacts([], all);
    MergeKeepsBest([], all);
    NamelessNick();
    var m := Merge([], all);
    forall i | 0 <= i < |es| ensures QuoteFree(es[i].name) && es[i].time > 0 && es[i].name != "" {
      assert es[i] in es;
      InMergeIsNamed(m, es[i]);
      var k :| 0 <= k < |m| && m[k] == es[i];
      assert m[k] in all;
    }
  }

  /** Running again on an unchanged database writes the same text exactly when every entry from the first one
      with more than 64 sectors on is the database's own. */
  lemma SecondRunSameIff(course: string, rows: seq<Row>, existing: seq<Entry>)
    requires OneLine(course) && AllTimed(FromDb(rows)) && AllTimed(existing) && NamesQuoteFree(existing)
    ensures var first := Seeded(rows, existing);
      var second := Seeded(rows, ParseExisting(Body(course, first)));
      Body(course, second) == Body(course, first)
      <==> forall i :: ReadLength(first) <= i < |first| ==> first[i] in Merge([], FromDb(rows))
  {
    hide CleanName, Merge, Top, Body, ParseExisting, Kept, ReadLength, AllTimed, NamesQuoteFree;
    var d := FromDb(rows);
    var p := Merge([], d);
    var first := Seeded(rows, existing);
    SeededIsPrintable(rows, existing);
    SeederReadsBack(course, first);
    KeptIsPrefix(first);
    var again := first[..ReadLength(first)];
    var second := Seeded(rows, again);
    MergeSplits([], d, existing);
    MergeSplits([], d, again);
    MergeKeepsBest([], d);
    if forall i :: ReadLength(first) <= i < |first| ==> first[i] in p {
      SecondRunSame(p, existing, again);
    } else {
      var i: nat :| ReadLength(first) <= i < |first| && first[i] !in p;
      UnreadIsLost(p, existing, again, i);
      PrefixPrintable(first, again);
      SeededIsPrintable(rows, again);
      if Body(course, second) == Body(course, first) { BodyIsInjective(course, second, first); }
    }
  }

  lemma PrefixPrintable(es: seq<Entry>, again: seq<Entry>)
    requires again <= es && NamesQuoteFree(es) && forall i :: 0 <= i < |es| ==> es[i].time > 0
    ensures NamesQuoteFree(again) && AllTimed(again)
  {
    assert forall i :: 0 <= i < |again| ==> again[i] == es[i];
  }

  /** A printed list determines its entries. */
  lemma BodyIsInjective(course: string, a: seq<Entry>, b: seq<Entry>)
    requires OneLine(course) && NamesQuoteFree(a) && NamesQuoteFree(b) && Body(course, a) == Body(course, b)
    ensures a == b
  {
    hide Body, TokensFrom, Lines;
    var s := Body(course, a);
    HeaderIsSkipped(course, a);
    HeaderIsSkipped(course, b);
    LinesAreTokens(s, |course| + 15, a);
    LinesAreTokens(s, |course| + 15, b);
    TokensAreInjective(a, b);
  }

  lemma {:induction false} TokensAreInjective(a: seq<Entry>, b: seq<Entry>)
    requires AllTokens(a) == AllTokens(b)
    ensures a == b
  {
    hide ShowInt, LineTokens;
    if a == [] || b == [] {
      if a != [] { LineHasTokens(a[0]); }
      if b != [] { LineHasTokens(b[0]); }
    } else {
      LineIsInjective(a[0], b[0], AllTokens(a[1..]), AllTokens(b[1..]));
      TokensAreInjective(a[1..], b[1..]);
      assert a == [a[0]] + a[1..] && b == [b[0]] + b[1..];
    }
  }

  lemma LineHasTokens(e: Entry)
    ensures |LineTokens(e)| == 3 + |e.sectors|
  {
  }

  lemma LineIsInjective(x: Entry, y: Entry, u: seq<string>, v: seq<string>)
    requires LineTokens(x) + u == LineTokens(y) + v
    ensures x == y && u == v
  {
    hide ShowInt, ParseInt;
    var s, t := LineTokens(x) + u, LineTokens(y) + v;
    assert s[0] == ShowInt(x.time) && t[0] == ShowInt(y.time);
    assert s[1] == x.name && t[1] == y.name;
    assert s[2] == ShowInt(|x.sectors|) && t[2] == ShowInt(|y.sectors|);
    ParseShown(x.time);
    ParseShown(y.time);
    ParseShown(|x.sectors|);
    ParseShown(|y.sectors|);
    var n := |x.sectors|;
    assert s[3..3 + n] == Shown(x.sectors) && t[3..3 + n] == Shown(y.sectors);
    SectorsReadBack(x.sectors);
    SectorsReadBack(y.sectors);
    assert s[3 + n..] == u && t[3 + n..] == v;
  }

  lemma {:induction false} ParsedIsReadable(tokens: seq<string>, i: nat)
    requires i <= |tokens|
    ensures forall k :: 0 <= k < |EntriesFrom(tokens, i)| ==> Readable(EntriesFrom(tokens, i)[k])
    decreases |tokens| - i
  {
    hide ParseInt, BeforePipe, EntriesFrom;
    EntriesStep(tokens, i);
    if i + 2 < |tokens| {
      var n := ParseInt(tokens[i + 2]);
      if n.Some? && 0 <= n.value <= MAX_SECTORS { ParsedIsReadable(tokens, Min(i + 3 + n.value, |tokens|)); }
    }
  }

  lemma AllRead(es: seq<Entry>)
    requires forall i :: 0 <= i < |es| ==> |es[i].sectors| <= MAX_SECTORS
    ensures ReadLength(es) == |es|
  {
  }

  lemma AllAreTimed(rows: seq<Row>, existing: seq<Entry>)
    requires forall i :: 0 <= i < |rows| ==> rows[i].time > 0
    requires forall i :: 0 <= i < |existing| ==> Readable(existing[i])
    ensures AllTimed(FromDb(rows)) && AllTimed(existing)
  {
  }

  /** Only entries of the database or the file are listed. */
  lemma SeededSectors(rows: seq<Row>, existing: seq<Entry>)
    requires forall i :: 0 <= i < |rows| ==> |rows[i].checkpoints| <= MAX_SECTORS
    requires forall i :: 0 <= i < |existing| ==> |existing[i].sectors| <= MAX_SECTORS
    ensures forall i :: 0 <= i < |Seeded(rows, existing)| ==> |Seeded(rows, existing)[i].sectors| <= MAX_SECTORS
  {
    hide CleanName, Merge, Top, SanitizeName;
    var all := FromDb(rows) + existing;
    var first := Seeded(rows, existing);
    FirstFacts([], all);
    MergeKeepsBest([], all);
    forall i | 0 <= i < |first| ensures |first[i].sectors| <= MAX_SECTORS {
      assert first[i] in first;
      var k :| 0 <= k < |Merge([], all)| && Merge([], all)[k] == first[i];
      assert Merge([], all)[k] in all;
    }
  }

  /** With at most 64 sectors per database race, seeding is a fixpoint from the first run on: for every file, ties
      and the cut included, a second run writes the same text. */
  lemma SeedingIsAFixpoint(course: string, rows: seq<Row>, file: string)
    requires OneLine(course) && NamesQuoteFree(ParseExisting(file))
    requires forall i :: 0 <= i < |rows| ==> rows[i].time > 0 && |rows[i].checkpoints| <= MAX_SECTORS
    ensures var first := Seeded(rows, ParseExisting(file));
      Body(course, Seeded(rows, ParseExisting(Body(course, first)))) == Body(course, first)
  {
    hide CleanName, Merge, Top, Body, TokensFrom, EntriesFrom, NamesQuoteFree, SanitizeName;
    var existing := ParseExisting(file);
    ParsedIsReadable(TokensFrom(file, 0), 0);
    SeededSectors(rows, existing);
    hide Seeded, ReadLength;
    AllRead(Seeded(rows, existing));
    AllAreTimed(rows, existing);
    SecondRunSameIff(course, rows, existing);
  }

  // ---- the input that loses a record --------------------------------------------------------------------

  lemma OneLetterNick(c: char)
    requires IsLower(c)
    ensures CleanName([c]) == [c]
  {
    assert [c][1..] == "";
    assert ShowCarets("") == "" && c != '\0';
    assert ShowCarets([c]) == [c] + ShowCarets([c][1..]);
    assert Lower("") == "" && LowerChar(c) == c && Lower([c]) == [LowerChar([c][0])] + Lower([c][1..]);
    assert !ColourAt([c], 0) && StripColours("") == "" && StripColours([c]) == [[c][0]] + StripColours([c][1..]);
    assert StripColours([c]) == [c];
    assert HideCarets([c]) == [c] && ShowCarets([c]) == [c] && Lower([c]) == [c];
  }

  lemma TwoNicksMerge(a: Entry, b: Entry)
    requires Nick(a) != "" && Nick(b) != "" && Nick(a) != Nick(b) && a.time < b.time
    ensures Merge([], [a]) == [a] && Top(Merge([], [a, b])) == [a, b]
  {
    hide CleanName;
    MergeNothing([]);
    MergeStep([], [], a);
    MergeStep([], [a], b);
    assert [] + [a] == [a] && [a] + [b] == [a, b];
    assert Put([], a) == [a] && Put([a], b) == [a, b];
    assert [a, b][..1] == [a] && [a][..0] == [];
    assert SortByTime([]) == [] && SortByTime([a]) == [a] && SortByTime([a, b]) == [a, b];
  }

  /** A database race with 65 sectors stops the second run's reader: the record on disk behind it is lost. */
  lemma LongRaceLosesRecord(course: string, sectors: seq<int>)
    requires OneLine(course) && |sectors| == 65
    ensures var rows, existing := [Row(10, "a", sectors)], [Entry(20, "b", [])];
      var first := Seeded(rows, existing);
      first[1..] == existing && Body(course, Seeded(rows, ParseExisting(Body(course, first)))) != Body(course, first)
  {
    hide CleanName, Merge, Top, Body, ParseExisting;
    var rows, existing := [Row(10, "a", sectors)], [Entry(20, "b", [])];
    var a, b := Entry(10, "a", sectors), existing[0];
    assert DropUnquotable("a") == "a" by { assert "a"[1..] == ""; }
    assert rows[1..] == [] && FromDb(rows) == [a];
    OneLetterNick('a');
    OneLetterNick('b');
    TwoNicksMerge(a, b);
    assert [a] + [b] == [a, b];
    SecondRunSameIff(course, rows, existing);
    assert ReadLength([a, b]) == 0;
    assert b !in [a];
  }
}
