/** The Monthly Cup generator as it runs on any number of web replicas at once (web/db.js,
    `scheduleMonthlyEdition`, `recordAutoPeriod`, `forceMonthlyPeriod`; the tables of
    web/migrations/20260803120000000_tournament_auto_period.sql and
    20260801140000000_tournament_single_window.sql). Every statement is one step; a transaction is one
    step; operators and crashes come in between as they please. */
module MonthlyCup {
  import opened Wrappers

  /** A month, named by the second its window opens; the window is a week long. */
  type Month = int

  const WEEK := 604800

  /** The primary key of a decision row. */
  datatype Slot = Slot(series: string, month: Month)

  datatype Decision = Scheduled | SkippedOverlap | SkippedThin | Cancelled | Blocked | Forced

  /** `requested` is the force request carried in the row's detail. */
  datatype Row = Row(decision: Decision, cup: Option<nat>, requested: bool)

  /** A slug is a month's own or anything else. */
  datatype Slug = CupSlug(month: Month) | OtherSlug(text: string)

  datatype Status = Draft | Published | Finalized | CalledOff

  datatype Cup = Cup(slug: Slug, series: Option<string>, starts: int, ends: int, status: Status, pool: seq<nat>)

  /** `tournament_auto_period`, `tournament`, and the identity sequence of the latter. */
  datatype Tables = Tables(rows: map<Slot, Row>, cups: map<nat, Cup>, next: nat)

  predicate IsSkip(d: Decision) { d.SkippedOverlap? || d.SkippedThin? }

  /** MONTHLY_TERMINAL. */
  predicate Terminal(d: Decision) { d.Scheduled? || IsSkip(d) || d.Cancelled? }

  predicate DecidedIn(t: Tables, s: Slot) { s in t.rows && Terminal(t.rows[s].decision) }

  // ---- the calendar ----------------------------------------------------------------------------

  predicate Overlap(a: Cup, b: Cup) { a.starts < b.ends && b.starts < a.ends }

  /** The UNIQUE slug and the exclusion constraint would both accept this row under this id. */
  predicate Fits(cups: map<nat, Cup>, id: nat, c: Cup) {
    && c.starts < c.ends
    && (forall i :: i in cups && i != id ==> cups[i].slug != c.slug)
    && (c.status != CalledOff ==>
        forall i :: i in cups && i != id && cups[i].status != CalledOff ==> !Overlap(cups[i], c))
  }

  predicate HasSlug(cups: map<nat, Cup>, slug: Slug, id: nat) { id in cups && cups[id].slug == slug }

  predicate IsOurs(c: Cup, s: Slot) {
    c.series == Some(s.series) && c.starts == s.month && c.ends == s.month + WEEK
  }

  /** A row of `overlappingTournaments` for the slot's window. */
  predicate Blocks(cups: map<nat, Cup>, s: Slot, id: nat) {
    id in cups && cups[id].status != CalledOff && cups[id].starts < s.month + WEEK && cups[id].ends > s.month
  }

  // ---- one pass --------------------------------------------------------------------------------

  /** Where a replica's pass stands, with the locals it still needs. */
  datatype Pass =
    | Idle
    | AtSlug(slot: Slot, forced: bool, carry: bool)
    | AtCalendar(slot: Slot, forced: bool, carry: bool)
    | AtDecide(slot: Slot, forced: bool, carry: bool)
    | AtPrior(slot: Slot, decision: Decision, carry: bool, adopt: Option<nat>)
    | AtUpsert(slot: Slot, decision: Decision, carry: bool, adopt: Option<nat>, changed: bool)
    | AtLink(slot: Slot, cup: nat)
    | AtClaim(slot: Slot, carry: bool, pool: seq<nat>)

  /** What the pool rule came to: its inputs are not part of this model. */
  datatype Choice = Thin | Collides | Pool(maps: seq<nat>)

  /** Adopting an edition already on the calendar. */
  function Adopt(s: Slot, carry: bool, id: nat, status: Status): Pass {
    AtPrior(s, if status == CalledOff then Cancelled else Scheduled, carry, Some(id))
  }

  function ReadDecision(t: Tables, s: Slot): Pass {
    if DecidedIn(t, s) then Idle else
    var requested := s in t.rows && t.rows[s].requested;
    AtSlug(s, requested || (s in t.rows && t.rows[s].decision == Forced), requested)
  }

  ghost function ReadSlug(t: Tables, p: Pass): Pass
    requires p.AtSlug?
  {
    if id :| HasSlug(t.cups, CupSlug(p.slot.month), id) then
      if IsOurs(t.cups[id], p.slot) then Adopt(p.slot, p.carry, id, t.cups[id].status) else Idle
    else AtCalendar(p.slot, p.forced, p.carry)
  }

  ghost function ReadCalendar(t: Tables, p: Pass): Pass
    requires p.AtCalendar?
  {
    if id :| Blocks(t.cups, p.slot, id) && IsOurs(t.cups[id], p.slot) then Adopt(p.slot, p.carry, id, t.cups[id].status)
    else if exists id :: Blocks(t.cups, p.slot, id) then AtPrior(p.slot, Blocked, p.carry, None)
    else AtDecide(p.slot, p.forced, p.carry)
  }

  /** `forced` bypasses the collision rule; a pool is never empty. */
  function Decide(p: Pass, choice: Choice): Pass
    requires p.AtDecide?
  {
    match choice
    case Thin => AtPrior(p.slot, SkippedThin, p.carry, None)
    case Collides => if p.forced then p else AtPrior(p.slot, SkippedOverlap, p.carry, None)
    case Pool(maps) => if maps == [] then p else AtClaim(p.slot, p.carry, maps)
  }

  /** recordAutoPeriod, first statement. */
  function ReadPrior(t: Tables, p: Pass): Pass
    requires p.AtPrior?
  {
    if DecidedIn(t, p.slot) then Idle
    else AtUpsert(p.slot, p.decision, p.carry, p.adopt, p.slot !in t.rows || t.rows[p.slot].decision != p.decision)
  }

  /** recordAutoPeriod, second statement: the upsert is guarded again, by the terminal decisions. */
  function Upsert(t: Tables, s: Slot, d: Decision, carry: bool): Tables {
    if DecidedIn(t, s) then t
    else t.(rows := t.rows[s := Row(d, if s in t.rows then t.rows[s].cup else None, carry)])
  }

  function AfterUpsert(p: Pass): Pass
    requires p.AtUpsert?
  {
    if p.changed && p.adopt.Some? then AtLink(p.slot, p.adopt.value) else Idle
  }

  /** `UPDATE .. SET tournament_id`, refused by the foreign key when the tournament is gone. */
  function Link(t: Tables, s: Slot, id: nat): Tables {
    if s in t.rows && id in t.cups then t.(rows := t.rows[s := t.rows[s].(cup := Some(id))]) else t
  }

  function NewCup(s: Slot, pool: seq<nat>): Cup {
    Cup(CupSlug(s.month), Some(s.series), s.month, s.month + WEEK, Published, pool)
  }

  predicate Claimable(t: Tables, s: Slot) { s in t.rows ==> t.rows[s].decision == Blocked || t.rows[s].decision == Forced }

  /** The transaction commits: the claim won, and neither unique constraint objected. */
  predicate Commits(t: Tables, s: Slot, pool: seq<nat>) { Claimable(t, s) && Fits(t.cups, t.next, NewCup(s, pool)) }

  /** Claim, tournament, pool and link in one transaction; identity values are spent either way. */
  function Claim(t: Tables, s: Slot, carry: bool, pool: seq<nat>): Tables {
    if Commits(t, s, pool) then
      Tables(t.rows[s := Row(Scheduled, Some(t.next), carry)], t.cups[t.next := NewCup(s, pool)], t.next + 1)
    else t.(next := t.next + 1)
  }

  // ---- operators -------------------------------------------------------------------------------

  /** `forceMonthlyPeriod`: only a skip can be forced, and only before the window opens. */
  function Force(t: Tables, s: Slot, now: int): Tables {
    if now < s.month && s in t.rows && IsSkip(t.rows[s].decision) then t.(rows := t.rows[s := t.rows[s].(decision := Forced, requested := true)])
    else t
  }

  function CreateCup(t: Tables, c: Cup): Tables {
    if Fits(t.cups, t.next, c) then t.(cups := t.cups[t.next := c], next := t.next + 1) else t.(next := t.next + 1)
  }

  /** An edit or status change; finalized tournaments and the series are left alone. */
  function EditCup(t: Tables, id: nat, c: Cup): Tables {
    if id in t.cups && t.cups[id].status != Finalized && Fits(t.cups, id, c.(series := t.cups[id].series))
    then t.(cups := t.cups[id := c.(series := t.cups[id].series)]) else t
  }

  /** Deleting a tournament leaves its decision row, with a null reference. */
  function DeleteCup(t: Tables, id: nat): Tables {
    Tables(map s | s in t.rows :: if t.rows[s].cup == Some(id) then t.rows[s].(cup := None) else t.rows[s], t.cups - {id}, t.next)
  }

  // ---- the whole system ------------------------------------------------------------------------

  /** `made` lists, in order, the slots the generator has created an edition for. */
  datatype World = World(tables: Tables, passes: map<nat, Pass>, made: seq<Slot>)

  datatype Event =
    | Start(replica: nat, slot: Slot, now: int)
    | Advance(replica: nat, choice: Choice)
    | Crash(replica: nat)
    | ForceEvent(slot: Slot, now: int)
    | CreateEvent(cup: Cup)
    | EditEvent(id: nat, cup: Cup)
    | DeleteEvent(id: nat)

  function PassOf(w: World, r: nat): Pass { if r in w.passes then w.passes[r] else Idle }

  /** The next statement of a replica's pass. */
  ghost function AdvancePass(w: World, r: nat, choice: Choice): World {
    var t, p := w.tables, PassOf(w, r);
    match p
    case Idle => w
    case AtSlug(_, _, _) => w.(passes := w.passes[r := ReadSlug(t, p)])
    case AtCalendar(_, _, _) => w.(passes := w.passes[r := ReadCalendar(t, p)])
    case AtDecide(_, _, _) => w.(passes := w.passes[r := Decide(p, choice)])
    case AtPrior(_, _, _, _) => w.(passes := w.passes[r := ReadPrior(t, p)])
    case AtUpsert(s, d, carry, _, _) => w.(tables := Upsert(t, s, d, carry), passes := w.passes[r := AfterUpsert(p)])
    case AtLink(s, id) => w.(tables := Link(t, s, id), passes := w.passes[r := Idle])
    case AtClaim(s, carry, pool) =>
      World(Claim(t, s, carry, pool), w.passes[r := Idle], if Commits(t, s, pool) then w.made + [s] else w.made)
  }

  ghost function Step(w: World, e: Event): World {
    match e
    case Start(r, s, now) =>
      if PassOf(w, r).Idle? && now < s.month then w.(passes := w.passes[r := ReadDecision(w.tables, s)]) else w
    case Advance(r, choice) => AdvancePass(w, r, choice)
    case Crash(r) => w.(passes := w.passes[r := Idle])
    case ForceEvent(s, now) => w.(tables := Force(w.tables, s, now))
    case CreateEvent(c) => w.(tables := CreateCup(w.tables, c))
    case EditEvent(id, c) => w.(tables := EditCup(w.tables, id, c))
    case DeleteEvent(id) => w.(tables := DeleteCup(w.tables, id))
  }

  ghost function Run(w: World, es: seq<Event>): World {
    if es == [] then w else Step(Run(w, es[..|es| - 1]), es[|es| - 1])
  }

  const EMPTY_WORLD := World(Tables(map[], map[], 1), map[], [])

  // ---- decisions -------------------------------------------------------------------------------

  /** What a step may do to a slot's decision: nothing to a decided one, except that a force turns a
      skip into `Forced`; rows never disappear. */
  ghost predicate DecisionMoves(t: Tables, u: Tables, s: Slot, forced: bool) {
    s in t.rows ==>
      && s in u.rows
      && (Terminal(t.rows[s].decision) ==>
          u.rows[s].decision == t.rows[s].decision || (forced && IsSkip(t.rows[s].decision) && u.rows[s].decision == Forced))
  }

  predicate Forces(e: Event, s: Slot) { e.ForceEvent? && e.slot == s }

  lemma StepMoves(w: World, e: Event, s: Slot)
    ensures DecisionMoves(w.tables, Step(w, e).tables, s, Forces(e, s))
  {
    hide ReadSlug, ReadCalendar, ReadDecision, ReadPrior, Decide, AfterUpsert, Fits;
  }

  /** A scheduled or cancelled month stays that way over every run, and a skipped month stays skipped
      until an operator forces it. */
  lemma {:induction false} DecisionsLast(w: World, es: seq<Event>, s: Slot)
    requires DecidedIn(w.tables, s)
    requires w.tables.rows[s].decision.Scheduled? || w.tables.rows[s].decision.Cancelled? || forall i :: 0 <= i < |es| ==> !Forces(es[i], s)
    ensures s in Run(w, es).tables.rows && Run(w, es).tables.rows[s].decision == w.tables.rows[s].decision
    decreases |es|
  {
    hide Step;
    if es != [] {
      var n := |es| - 1;
      DecisionsLast(w, es[..n], s);
      StepMoves(Run(w, es[..n]), es[n], s);
    }
  }

  // ---- at most one edition ---------------------------------------------------------------------

  ghost predicate Distinct(made: seq<Slot>) { forall i, j :: 0 <= i < j < |made| ==> made[i] != made[j] }

  /** Every slot the generator made an edition for is recorded as scheduled. */
  ghost predicate MadeIsScheduled(w: World) {
    forall i :: 0 <= i < |w.made| ==> w.made[i] in w.tables.rows && w.tables.rows[w.made[i]].decision == Scheduled
  }

  lemma StepMakes(w: World, e: Event)
    requires Distinct(w.made) && MadeIsScheduled(w)
    ensures Distinct(Step(w, e).made) && MadeIsScheduled(Step(w, e))
  {
    var v := Step(w, e);
    forall i | 0 <= i < |w.made| ensures w.made[i] in v.tables.rows && v.tables.rows[w.made[i]].decision == Scheduled {
      StepMoves(w, e, w.made[i]);
    }
    StepMadeOne(w, e);
    hide Step;
  }

  /** A step makes at most one edition, for a slot that was not scheduled and now is. */
  lemma StepMadeOne(w: World, e: Event)
    ensures var v := Step(w, e);
      v.made == w.made ||
      (exists s :: v.made == w.made + [s] && s in v.tables.rows && v.tables.rows[s].decision == Scheduled
        && (s in w.tables.rows ==> w.tables.rows[s].decision != Scheduled))
  {
    hide ReadSlug, ReadCalendar, ReadDecision, ReadPrior, Decide, AfterUpsert, Fits, Upsert, Link, Force, CreateCup, EditCup, DeleteCup;
    if e.Advance? && PassOf(w, e.replica).AtClaim? {
      var p := PassOf(w, e.replica);
      if Commits(w.tables, p.slot, p.pool) { assert Step(w, e).made == w.made + [p.slot]; }
    }
  }

  /** Over every interleaving of replicas, operators and crashes, the generator creates at most one
      edition per series and month, even when operators delete or move what it made; and a month it
      has made an edition for is never recorded as anything but scheduled, so never as blocked. */
  lemma {:induction false} AtMostOneEdition(w: World, es: seq<Event>)
    requires Distinct(w.made) && MadeIsScheduled(w)
    ensures Distinct(Run(w, es).made) && MadeIsScheduled(Run(w, es))
    decreases |es|
  {
    hide Step, Distinct, MadeIsScheduled;
    if es != [] {
      AtMostOneEdition(w, es[..|es| - 1]);
      StepMakes(Run(w, es[..|es| - 1]), es[|es| - 1]);
    }
  }

  // ---- the calendar ----------------------------------------------------------------------------

  /** Ids are below the sequence, slugs are unique, live windows are disjoint, references resolve. */
  ghost predicate SoundCalendar(t: Tables) {
    && (forall i :: i in t.cups ==> i < t.next && Fits(t.cups, i, t.cups[i]))
    && (forall s :: s in t.rows && t.rows[s].cup.Some? ==> t.rows[s].cup.value in t.cups)
  }

  lemma FitsInserted(cups: map<nat, Cup>, id: nat, c: Cup, i: nat)
    requires Fits(cups, id, c) && (i in cups && i != id ==> Fits(cups, i, cups[i]))
    requires i in cups || i == id
    ensures Fits(cups[id := c], i, cups[id := c][i])
  {
  }

  lemma PutKeepsCalendar(t: Tables, id: nat, c: Cup, u: Tables)
    requires SoundCalendar(t) && Fits(t.cups, id, c)
    requires u.cups == t.cups[id := c] && id < u.next && t.next <= u.next
    requires forall s :: s in u.rows && u.rows[s].cup.Some? ==> u.rows[s].cup == Some(id) || (s in t.rows && u.rows[s].cup == t.rows[s].cup)
    ensures SoundCalendar(u)
  {
    hide Fits;
    forall i | i in u.cups ensures i < u.next && Fits(u.cups, i, u.cups[i]) { FitsInserted(t.cups, id, c, i); }
  }

  lemma DeleteKeepsCalendar(t: Tables, id: nat)
    requires SoundCalendar(t)
    ensures SoundCalendar(DeleteCup(t, id))
  {
    var u := DeleteCup(t, id);
    forall i | i in u.cups ensures i < u.next && Fits(u.cups, i, u.cups[i]) {
      assert Fits(t.cups, i, t.cups[i]);
    }
  }

  lemma StepKeepsCalendar(w: World, e: Event)
    requires SoundCalendar(w.tables)
    ensures SoundCalendar(Step(w, e).tables)
  {
    hide ReadSlug, ReadCalendar, ReadDecision, ReadPrior, Decide, AfterUpsert, Fits;
    var t := w.tables;
    match e {
      case CreateEvent(c) => if Fits(t.cups, t.next, c) { PutKeepsCalendar(t, t.next, c, CreateCup(t, c)); }
      case EditEvent(id, c) =>
        if EditCup(t, id, c) != t { PutKeepsCalendar(t, id, c.(series := t.cups[id].series), EditCup(t, id, c)); }
      case DeleteEvent(id) => DeleteKeepsCalendar(t, id);
      case Advance(r, choice) =>
        var p := PassOf(w, r);
        if p.AtClaim? && Commits(t, p.slot, p.pool) {
          PutKeepsCalendar(t, t.next, NewCup(p.slot, p.pool), Claim(t, p.slot, p.carry, p.pool));
        }
      case Start(_, _, _) =>
      case Crash(_) =>
      case ForceEvent(_, _) =>
    }
  }

  /** Over every run live windows stay disjoint, slugs unique, and every reference resolves. */
  lemma {:induction false} CalendarLasts(w: World, es: seq<Event>)
    requires SoundCalendar(w.tables)
    ensures SoundCalendar(Run(w, es).tables)
    decreases |es|
  {
    hide Step, SoundCalendar;
    if es != [] {
      CalendarLasts(w, es[..|es| - 1]);
      StepKeepsCalendar(Run(w, es[..|es| - 1]), es[|es| - 1]);
    }
  }

  /** Unless an operator deletes it, an edition keeps its series over every run, and a finalized one stays as it is. */
  lemma {:induction false} EditionsLast(w: World, es: seq<Event>, id: nat)
    requires SoundCalendar(w.tables) && id in w.tables.cups && DeleteEvent(id) !in es
    ensures var v := Run(w, es);
      && id in v.tables.cups && v.tables.cups[id].series == w.tables.cups[id].series
      && (w.tables.cups[id].status == Finalized ==> v.tables.cups[id] == w.tables.cups[id])
    decreases |es|
  {
    hide Step, SoundCalendar;
    if es != [] {
      var n := |es| - 1;
      assert DeleteEvent(id) !in es[..n] && es[n] != DeleteEvent(id);
      EditionsLast(w, es[..n], id);
      CalendarLasts(w, es[..n]);
      EditionStays(Run(w, es[..n]), es[n], id);
    }
  }

  lemma EditionStays(w: World, e: Event, id: nat)
    requires SoundCalendar(w.tables) && id in w.tables.cups && e != DeleteEvent(id)
    ensures var v := Step(w, e);
      && id in v.tables.cups && v.tables.cups[id].series == w.tables.cups[id].series
      && (w.tables.cups[id].status == Finalized ==> v.tables.cups[id] == w.tables.cups[id])
  {
    hide ReadSlug, ReadCalendar, ReadDecision, ReadPrior, Decide, AfterUpsert, Fits;
    assert id < w.tables.next;
  }

  // ---- a month never blocks itself -------------------------------------------------------------

  /** A pass whose calendar read shows its own edition adopts exactly that edition, as scheduled,
      whatever else the calendar holds; it never goes on to record `blocked`. */
  lemma OwnEditionIsAdopted(t: Tables, p: Pass, id: nat)
    requires SoundCalendar(t) && p.AtCalendar? && Blocks(t.cups, p.slot, id) && IsOurs(t.cups[id], p.slot)
    ensures ReadCalendar(t, p) == AtPrior(p.slot, Scheduled, p.carry, Some(id))
  {
    var found :| Blocks(t.cups, p.slot, found) && IsOurs(t.cups[found], p.slot)
      && ReadCalendar(t, p) == Adopt(p.slot, p.carry, found, t.cups[found].status);
    assert Blocks(t.cups, p.slot, found);
    var c, d := t.cups[found], t.cups[id];
    assert Overlap(c, d) && Fits(t.cups, id, d);
  }

  /** Nothing live overlaps the slot's window. */
  ghost predicate WindowFree(cups: map<nat, Cup>, s: Slot) { forall id :: !Blocks(cups, s, id) }

  lemma StepMakesInFreeWindow(w: World, e: Event)
    requires SoundCalendar(w.tables) && Step(w, e).made != w.made
    ensures var v := Step(w, e);
      v.made != [] && WindowFree(w.tables.cups, v.made[|v.made| - 1])
  {
    hide ReadSlug, ReadCalendar, ReadDecision, ReadPrior, Decide, AfterUpsert, Upsert, Link, Force, CreateCup, EditCup, DeleteCup;
    var t, p := w.tables, PassOf(w, e.replica);
    var c := NewCup(p.slot, p.pool);
    assert Fits(t.cups, t.next, c);
    forall id ensures !Blocks(t.cups, p.slot, id) {
      if id in t.cups && t.cups[id].status != CalledOff { assert id != t.next && !Overlap(t.cups[id], c); }
    }
  }

  /** The calendar rule is never bypassed, forced or not: over every run, at the moment an edition is made nothing live
      overlaps its window, however stale the pass's own look at the calendar is. */
  lemma MadeInFreeWindows(w: World, es: seq<Event>, e: Event)
    requires SoundCalendar(w.tables)
    ensures var v, made := Run(w, es), Run(w, es + [e]).made;
      made != v.made ==> made != [] && WindowFree(v.tables.cups, made[|made| - 1])
  {
    hide Step, SoundCalendar;
    CalendarLasts(w, es);
    assert (es + [e])[..|es|] == es;
    if Run(w, es + [e]).made != Run(w, es).made { StepMakesInFreeWindow(Run(w, es), e); }
  }

  /** The empty database and idle replicas satisfy every invariant above. */
  lemma EmptyWorldIsSound()
    ensures Distinct(EMPTY_WORLD.made) && MadeIsScheduled(EMPTY_WORLD) && SoundCalendar(EMPTY_WORLD.tables)
  {
  }

  // ---- a pass left to itself -------------------------------------------------------------------

  /** A pass of one replica with nothing in between. */
  function WholePass(r: nat, s: Slot, now: int, choice: Choice): seq<Event> {
    var a := Advance(r, choice);
    [Start(r, s, now), a, a, a, a, a]
  }

  lemma RunCons(w: World, e: Event, es: seq<Event>)
    ensures Run(w, [e] + es) == Run(Step(w, e), es)
    decreases |es|
  {
    hide Step;
    if es == [] {
      assert ([e] + es)[..0] == [];
      assert Run(w, []) == w;
    } else {
      var n := |es| - 1;
      RunCons(w, e, es[..n]);
      assert ([e] + es)[..n + 1] == [e] + es[..n];
    }
  }

  lemma RunNothing(w: World)
    ensures Run(w, []) == w
  {
  }

  lemma SixSteps(w: World, r: nat, s: Slot, now: int, c: Choice)
    ensures var a := Advance(r, c);
      Run(w, WholePass(r, s, now, c)) == Step(Step(Step(Step(Step(Step(w, Start(r, s, now)), a), a), a), a), a)
  {
    hide Run, Step;
    var a := Advance(r, c);
    var w1 := Step(w, Start(r, s, now));
    RunCons(w, Start(r, s, now), [a, a, a, a, a]);
    RunCons(w1, a, [a, a, a, a]);
    RunCons(Step(w1, a), a, [a, a, a]);
    RunCons(Step(Step(w1, a), a), a, [a, a]);
    RunCons(Step(Step(Step(w1, a), a), a), a, [a]);
    RunCons(Step(Step(Step(Step(w1, a), a), a), a), a, []);
    RunNothing(Step(Step(Step(Step(Step(w1, a), a), a), a), a));
    assert WholePass(r, s, now, c) == [Start(r, s, now)] + ([a] + ([a] + ([a] + ([a] + ([a] + [])))));
    assert [a, a, a, a, a] == [a] + [a, a, a, a] && [a, a, a, a] == [a] + [a, a, a] && [a, a, a] == [a] + [a, a];
    assert [a, a] == [a] + [a] && [a] == [a] + [];
  }

  /** A force request is on record for the slot. */
  predicate Requested(t: Tables, s: Slot) { s in t.rows && t.rows[s].requested }

  function CupOf(t: Tables, s: Slot): Option<nat> { if s in t.rows then t.rows[s].cup else None }

  /** The pass records this decision and this edition, keeps a force request, and changes nothing else. */
  predicate Records(w: World, v: World, s: Slot, d: Decision, cup: Option<nat>) {
    && v.tables == w.tables.(rows := w.tables.rows[s := Row(d, cup, Requested(w.tables, s))])
    && v.made == w.made
  }

  /** The month's own slug is taken. */
  ghost predicate SlugTaken(t: Tables, s: Slot) { exists id :: HasSlug(t.cups, CupSlug(s.month), id) }

  /** The slug's holder is the slot's own edition: it is recorded, as cancelled if it was called off. Any other holder
      stops the pass. */
  lemma PassMeetsSlug(w: World, r: nat, s: Slot, now: int, c: Choice, id: nat)
    requires SoundCalendar(w.tables) && PassOf(w, r).Idle? && !DecidedIn(w.tables, s) && now < s.month
    requires HasSlug(w.tables.cups, CupSlug(s.month), id)
    ensures var v, cup := Run(w, WholePass(r, s, now, c)), w.tables.cups[id];
      && PassOf(v, r).Idle?
      && if IsOurs(cup, s) then Records(w, v, s, if cup.status == CalledOff then Cancelled else Scheduled, Some(id))
         else v.tables == w.tables && v.made == w.made
  {
    hide Run, IsOurs, Overlap;
    SixSteps(w, r, s, now, c);
    var a := Advance(r, c);
    var w1 := Step(w, Start(r, s, now));
    OneHolder(w.tables, s, id);
    var w2 := Step(w1, a);
    if IsOurs(w.tables.cups[id], s) {
      var d := if w.tables.cups[id].status == CalledOff then Cancelled else Scheduled;
      AdoptionRuns(w2, r, s, d, Requested(w.tables, s), id, c);
    }
  }

  lemma OneHolder(t: Tables, s: Slot, id: nat)
    requires SoundCalendar(t) && HasSlug(t.cups, CupSlug(s.month), id)
    ensures forall i :: HasSlug(t.cups, CupSlug(s.month), i) ==> i == id
  {
    assert Fits(t.cups, id, t.cups[id]);
  }

  /** From the decision to adopt on, three statements record it. */
  lemma AdoptionRuns(w: World, r: nat, s: Slot, d: Decision, carry: bool, id: nat, c: Choice)
    requires PassOf(w, r) == AtPrior(s, d, carry, Some(id)) && Terminal(d) && !DecidedIn(w.tables, s) && id in w.tables.cups
    ensures var a := Advance(r, c); var v := Step(Step(Step(w, a), a), a);
      && PassOf(v, r).Idle? && v.made == w.made
      && v.tables == w.tables.(rows := w.tables.rows[s := Row(d, Some(id), carry)])
      && Step(v, a) == v
  {
    var a := Advance(r, c);
    var w1 := Step(w, a);
    assert PassOf(w1, r) == AtUpsert(s, d, carry, Some(id), true);
    var w2 := Step(w1, a);
    assert PassOf(w2, r) == AtLink(s, id);
  }

  /** A decision without an edition takes two. */
  lemma RecordingRuns(w: World, r: nat, s: Slot, d: Decision, carry: bool, c: Choice)
    requires PassOf(w, r) == AtPrior(s, d, carry, None) && !DecidedIn(w.tables, s)
    ensures var a := Advance(r, c); var v := Step(Step(w, a), a);
      && PassOf(v, r).Idle? && v.made == w.made
      && v.tables == w.tables.(rows := w.tables.rows[s := Row(d, CupOf(w.tables, s), carry)])
      && Step(v, a) == v
  {
    var a := Advance(r, c);
    var w1 := Step(w, a);
    assert PassOf(w1, r).AtUpsert? && PassOf(w1, r).adopt.None?;
  }

  /** With the slug free, a live edition of the slot itself on the calendar is recorded as scheduled. */
  lemma PassMeetsOwnWindow(w: World, r: nat, s: Slot, now: int, c: Choice, id: nat)
    requires SoundCalendar(w.tables) && PassOf(w, r).Idle? && !DecidedIn(w.tables, s) && now < s.month
    requires !SlugTaken(w.tables, s) && Blocks(w.tables.cups, s, id) && IsOurs(w.tables.cups[id], s)
    ensures var v := Run(w, WholePass(r, s, now, c)); PassOf(v, r).Idle? && Records(w, v, s, Scheduled, Some(id))
  {
    hide Run, IsOurs, Overlap, Fits;
    SixSteps(w, r, s, now, c);
    var a := Advance(r, c);
    var w2 := Step(Step(w, Start(r, s, now)), a);
    OwnEditionIsAdopted(w.tables, PassOf(w2, r), id);
    AdoptionRuns(Step(w2, a), r, s, Scheduled, Requested(w.tables, s), id, c);
  }

  /** Anybody else's live edition in the window blocks the month, and the block keeps a force request. */
  lemma PassMeetsBlocker(w: World, r: nat, s: Slot, now: int, c: Choice, id: nat)
    requires PassOf(w, r).Idle? && !DecidedIn(w.tables, s) && now < s.month
    requires !SlugTaken(w.tables, s) && Blocks(w.tables.cups, s, id)
    requires forall i :: Blocks(w.tables.cups, s, i) ==> !IsOurs(w.tables.cups[i], s)
    ensures var v := Run(w, WholePass(r, s, now, c)); PassOf(v, r).Idle? && Records(w, v, s, Blocked, CupOf(w.tables, s))
  {
    hide Run, IsOurs, Overlap, Fits;
    SixSteps(w, r, s, now, c);
    var a := Advance(r, c);
    var w3 := Step(Step(Step(w, Start(r, s, now)), a), a);
    assert PassOf(w3, r) == AtPrior(s, Blocked, Requested(w.tables, s), None);
    RecordingRuns(w3, r, s, Blocked, Requested(w.tables, s), c);
  }

  /** The force is on record, as the decision or as the request it carries. */
  predicate UnderForce(t: Tables, s: Slot) { Requested(t, s) || (s in t.rows && t.rows[s].decision == Forced) }

  lemma PassReachesRule(w: World, r: nat, s: Slot, now: int, c: Choice)
    requires PassOf(w, r).Idle? && !DecidedIn(w.tables, s) && now < s.month
    requires !SlugTaken(w.tables, s) && WindowFree(w.tables.cups, s)
    ensures var a := Advance(r, c); var v := Step(Step(Step(w, Start(r, s, now)), a), a);
      PassOf(v, r) == AtDecide(s, UnderForce(w.tables, s), Requested(w.tables, s)) && v.tables == w.tables && v.made == w.made
  {
    hide IsOurs, Overlap, Fits;
  }

  /** With a free window a thin pool is recorded as such, forced or not; a collision is, unless the month is forced. */
  lemma PassSkips(w: World, r: nat, s: Slot, now: int, c: Choice)
    requires PassOf(w, r).Idle? && !DecidedIn(w.tables, s) && now < s.month
    requires !SlugTaken(w.tables, s) && WindowFree(w.tables.cups, s)
    requires c.Thin? || (c.Collides? && !UnderForce(w.tables, s))
    ensures var v := Run(w, WholePass(r, s, now, c));
      PassOf(v, r).Idle? && Records(w, v, s, if c.Thin? then SkippedThin else SkippedOverlap, CupOf(w.tables, s))
  {
    hide Run, WindowFree, SlugTaken;
    SixSteps(w, r, s, now, c);
    PassReachesRule(w, r, s, now, c);
    var a := Advance(r, c);
    var w3 := Step(Step(Step(w, Start(r, s, now)), a), a);
    hide Step;
    var d := if c.Thin? then SkippedThin else SkippedOverlap;
    DecideStep(w3, r, c);
    assert PassOf(Step(w3, a), r) == AtPrior(s, d, Requested(w.tables, s), None);
    RecordingRuns(Step(w3, a), r, s, d, Requested(w.tables, s), c);
  }

  lemma DecideStep(w: World, r: nat, c: Choice)
    requires PassOf(w, r).AtDecide?
    ensures Step(w, Advance(r, c)) == w.(passes := w.passes[r := Decide(PassOf(w, r), c)])
  {
  }

  /** An undecided month with a free slug, a free window and a viable pool gets its edition in one pass: cancelling the
      blocker heals the month without anyone's help. */
  lemma UndecidedMonthHeals(w: World, r: nat, s: Slot, now: int, maps: seq<nat>)
    requires PassOf(w, r).Idle? && maps != [] && !DecidedIn(w.tables, s) && now < s.month
    requires !SlugTaken(w.tables, s) && WindowFree(w.tables.cups, s)
    ensures var v := Run(w, WholePass(r, s, now, Pool(maps)));
      && v.made == w.made + [s]
      && v.tables.rows == w.tables.rows[s := Row(Scheduled, Some(w.tables.next), Requested(w.tables, s))]
      && v.tables.cups == w.tables.cups[w.tables.next :=
           Cup(CupSlug(s.month), Some(s.series), s.month, s.month + WEEK, Published, maps)]
      && PassOf(v, r).Idle?
  {
    hide Run, WindowFree, SlugTaken;
    SixSteps(w, r, s, now, Pool(maps));
    PassReachesRule(w, r, s, now, Pool(maps));
    var a := Advance(r, Pool(maps));
    var w3 := Step(Step(Step(w, Start(r, s, now)), a), a);
    DecideStep(w3, r, Pool(maps));
    var w4 := Step(w3, a);
    assert PassOf(w4, r) == AtClaim(s, Requested(w.tables, s), maps) && w4.tables == w.tables;
    FreshCupFits(w.tables, s, maps);
    hide Fits;
  }

  lemma FreshCupFits(t: Tables, s: Slot, maps: seq<nat>)
    requires !SlugTaken(t, s) && WindowFree(t.cups, s)
    ensures Fits(t.cups, t.next, NewCup(s, maps))
  {
    var c := NewCup(s, maps);
    forall i | i in t.cups ensures t.cups[i].slug != c.slug && (t.cups[i].status != CalledOff ==> !Overlap(t.cups[i], c)) {
      assert !HasSlug(t.cups, CupSlug(s.month), i) && !Blocks(t.cups, s, i);
    }
  }

  /** A pass changes nothing in a decided month, or once the window has opened. */
  lemma PassRests(w: World, r: nat, s: Slot, now: int, c: Choice)
    requires PassOf(w, r).Idle? && (DecidedIn(w.tables, s) || now >= s.month)
    ensures var v := Run(w, WholePass(r, s, now, c)); v.tables == w.tables && v.made == w.made
  {
    hide Run;
    SixSteps(w, r, s, now, c);
  }

  /** A month blocked by one edition gets its own in the next pass once an operator deletes that edition, or calls it off
      where it stands. */
  lemma BlockerGoneHeals(w: World, r: nat, s: Slot, now: int, maps: seq<nat>, id: nat, deleted: bool)
    requires PassOf(w, r).Idle? && maps != [] && !DecidedIn(w.tables, s) && now < s.month && SoundCalendar(w.tables)
    requires !SlugTaken(w.tables, s) && forall i :: Blocks(w.tables.cups, s, i) <==> i == id
    requires id in w.tables.cups && w.tables.cups[id].status != Finalized
    ensures var e := if deleted then DeleteEvent(id) else EditEvent(id, w.tables.cups[id].(status := CalledOff));
      Run(w, [e] + WholePass(r, s, now, Pool(maps))).made == w.made + [s]
  {
    hide Run, IsOurs, SoundCalendar;
    var c := w.tables.cups[id].(status := CalledOff);
    var e := if deleted then DeleteEvent(id) else EditEvent(id, c);
    RunCons(w, e, WholePass(r, s, now, Pool(maps)));
    CupFits(w.tables, id);
    var v := Step(w, e);
    assert Blocks(w.tables.cups, s, id);
    forall i ensures !Blocks(v.tables.cups, s, i) && !HasSlug(v.tables.cups, CupSlug(s.month), i) {
      assert !HasSlug(w.tables.cups, CupSlug(s.month), i);
      assert Blocks(w.tables.cups, s, i) <==> i == id;
    }
    UndecidedMonthHeals(v, r, s, now, maps);
  }

  lemma CupFits(t: Tables, id: nat)
    requires SoundCalendar(t) && id in t.cups
    ensures Fits(t.cups, id, t.cups[id]) && Fits(t.cups, id, t.cups[id].(status := CalledOff))
  {
  }

  // ---- forcing a month --------------------------------------------------------------------------

  lemma ForceReopens(w: World, s: Slot, now: int)
    requires s in w.tables.rows && IsSkip(w.tables.rows[s].decision) && now < s.month
    ensures var v := Step(w, ForceEvent(s, now));
      && s in v.tables.rows && v.tables.rows[s].requested && v.tables.rows[s].decision == Forced
      && v.tables.rows[s].cup == w.tables.rows[s].cup
      && v.tables.cups == w.tables.cups && v.tables.next == w.tables.next && v.passes == w.passes && v.made == w.made
      && v.tables.rows.Keys == w.tables.rows.Keys && forall q :: q in w.tables.rows && q != s ==> v.tables.rows[q] == w.tables.rows[q]
  {
  }

  /** A skipped month that an operator forces in time gets its edition in the next pass with a free slug, a free window
      and a viable pool; without the force the same pass changes nothing. */
  lemma ForcedMonthHeals(w: World, r: nat, s: Slot, at: int, now: int, maps: seq<nat>)
    requires PassOf(w, r).Idle? && maps != [] && at < s.month && now < s.month
    requires s in w.tables.rows && IsSkip(w.tables.rows[s].decision)
    requires !SlugTaken(w.tables, s) && WindowFree(w.tables.cups, s)
    ensures var v := Run(w, [ForceEvent(s, at)] + WholePass(r, s, now, Pool(maps)));
      && v.made == w.made + [s]
      && s in v.tables.rows && v.tables.rows[s] == Row(Scheduled, Some(w.tables.next), true)
      && v.tables.cups == w.tables.cups[w.tables.next :=
           Cup(CupSlug(s.month), Some(s.series), s.month, s.month + WEEK, Published, maps)]
    ensures Run(w, WholePass(r, s, now, Pool(maps))).tables == w.tables
  {
    hide Run, Step, WindowFree;
    PassRests(w, r, s, now, Pool(maps));
    RunCons(w, ForceEvent(s, at), WholePass(r, s, now, Pool(maps)));
    ForceReopens(w, s, at);
    UndecidedMonthHeals(Step(w, ForceEvent(s, at)), r, s, now, maps);
  }

  /** Only a skip can be forced, and only before the window opens. */
  lemma ForceRefused(w: World, s: Slot, now: int)
    requires now >= s.month || s !in w.tables.rows || !IsSkip(w.tables.rows[s].decision)
    ensures Run(w, [ForceEvent(s, now)]) == w
  {
    hide Step;
    RunCons(w, ForceEvent(s, now), []);
    assert [ForceEvent(s, now)] == [ForceEvent(s, now)] + [];
    RunNothing(Step(w, ForceEvent(s, now)));
    StepForce(w, s, now);
  }

  lemma StepForce(w: World, s: Slot, now: int)
    requires now >= s.month || s !in w.tables.rows || !IsSkip(w.tables.rows[s].decision)
    ensures Step(w, ForceEvent(s, now)) == w
  {
  }

  /** A pass over the slot knows of the force and is not about to record an overlap. */
  predicate Carries(p: Pass, s: Slot) {
    match p
    case Idle => true
    case AtSlug(q, forced, carry) => q == s ==> forced && carry
    case AtCalendar(q, forced, carry) => q == s ==> forced && carry
    case AtDecide(q, forced, carry) => q == s ==> forced && carry
    case AtPrior(q, d, carry, _) => q == s ==> carry && d != SkippedOverlap
    case AtUpsert(q, d, carry, _, _) => q == s ==> carry && d != SkippedOverlap
    case AtLink(_, _) => true
    case AtClaim(q, carry, _) => q == s ==> carry
  }

  /** The force is on record, nothing skipped the month for an overlap, and every pass over it carries the request. */
  ghost predicate ForceHolds(w: World, s: Slot) {
    && Requested(w.tables, s) && w.tables.rows[s].decision != SkippedOverlap
    && forall r: nat :: Carries(PassOf(w, r), s)
  }

  lemma StepKeepsForce(w: World, e: Event, s: Slot)
    requires ForceHolds(w, s)
    ensures ForceHolds(Step(w, e), s)
  {
    hide Fits, IsOurs, Blocks, HasSlug;
    var v := Step(w, e);
    StepCarries(w, e, s);
    hide Carries;
    forall r: nat ensures Carries(PassOf(v, r), s) { assert Carries(PassOf(w, r), s); }
  }

  lemma StepCarries(w: World, e: Event, s: Slot)
    requires ForceHolds(w, s)
    ensures var v := Step(w, e);
      && Requested(v.tables, s) && v.tables.rows[s].decision != SkippedOverlap
      && (forall r: nat :: PassOf(v, r) == PassOf(w, r) || Carries(PassOf(v, r), s))
  {
    hide Fits, IsOurs, Blocks, HasSlug;
    if e.Advance? { assert Carries(PassOf(w, e.replica), s); }
  }

  /** Over every run from there, whatever blocks the month, passes over it or crashes, the request stays on record and
      the month is never skipped for an overlap. */
  lemma {:induction false} ForceLasts(w: World, es: seq<Event>, s: Slot)
    requires ForceHolds(w, s)
    ensures ForceHolds(Run(w, es), s)
    decreases |es|
  {
    hide Step, ForceHolds;
    if es != [] {
      ForceLasts(w, es[..|es| - 1], s);
      StepKeepsForce(Run(w, es[..|es| - 1]), es[|es| - 1], s);
    }
  }

  /** Whose slot a pass is about. */
  predicate PassesOver(p: Pass, s: Slot) { !p.Idle? && !p.AtLink? && p.slot == s }

  /** A force that comes while no pass is over the month holds from then on: through any run, and so through a `blocked`
      in between, the request is on record and no overlap is recorded; and whenever the month is then undecided with a
      free slug, a free window and a viable pool, one pass makes the edition. */
  lemma ForceSurvives(w: World, s: Slot, at: int, es: seq<Event>, r: nat, now: int, maps: seq<nat>)
    requires s in w.tables.rows && IsSkip(w.tables.rows[s].decision) && at < s.month && now < s.month && maps != []
    requires forall i: nat :: !PassesOver(PassOf(w, i), s)
    ensures var v := Run(w, [ForceEvent(s, at)] + es);
      && Requested(v.tables, s) && v.tables.rows[s].decision != SkippedOverlap
      && (PassOf(v, r).Idle? && !DecidedIn(v.tables, s) && !SlugTaken(v.tables, s) && WindowFree(v.tables.cups, s) ==>
          Run(v, WholePass(r, s, now, Pool(maps))).made == v.made + [s])
  {
    hide Step, SlugTaken, WindowFree, DecidedIn;
    RunCons(w, ForceEvent(s, at), es);
    ForceReopens(w, s, at);
    var u := Step(w, ForceEvent(s, at));
    forall i: nat ensures Carries(PassOf(u, i), s) { assert !PassesOver(PassOf(w, i), s); }
    ForceLasts(u, es, s);
    hide Run;
    var v := Run(u, es);
    if PassOf(v, r).Idle? && !DecidedIn(v.tables, s) && !SlugTaken(v.tables, s) && WindowFree(v.tables.cups, s) {
      UndecidedMonthHeals(v, r, s, now, maps);
    }
  }

  // ---- forces that are lost -----------------------------------------------------------------------

  predicate IsFinal(d: Decision) { d.Scheduled? || d.Cancelled? }

  /** The pass read the slot without the request and may still record a skip or a block in its place. */
  predicate Stale(p: Pass, s: Slot) {
    match p
    case AtSlug(q, _, carry) => q == s && !carry
    case AtCalendar(q, _, carry) => q == s && !carry
    case AtDecide(q, _, carry) => q == s && !carry
    case AtPrior(q, d, carry, _) => q == s && !carry && !IsFinal(d)
    case AtUpsert(q, d, carry, _, _) => q == s && !carry && !IsFinal(d)
    case _ => false
  }

  /** The request is gone, and the month is neither scheduled nor cancelled. */
  predicate ForceLost(t: Tables, s: Slot) { s in t.rows && !t.rows[s].requested && !IsFinal(t.rows[s].decision) }

  ghost predicate ForceKept(w: World, s: Slot) {
    s in w.tables.rows && !ForceLost(w.tables, s) && forall r: nat :: !Stale(PassOf(w, r), s)
  }

  lemma StepKeepsRequest(w: World, e: Event, s: Slot)
    requires ForceKept(w, s)
    ensures ForceKept(Step(w, e), s)
  {
    hide Fits, IsOurs, Blocks, HasSlug;
    var v := Step(w, e);
    forall r: nat ensures !Stale(PassOf(v, r), s) { assert !Stale(PassOf(w, r), s); }
    if e.Advance? { assert !Stale(PassOf(w, e.replica), s); }
  }

  lemma {:induction false} RunKeepsRequest(w: World, es: seq<Event>, s: Slot)
    requires ForceKept(w, s)
    ensures ForceKept(Run(w, es), s)
    decreases |es|
  {
    hide Step, ForceKept;
    if es != [] {
      RunKeepsRequest(w, es[..|es| - 1], s);
      StepKeepsRequest(Run(w, es[..|es| - 1]), es[|es| - 1], s);
    }
  }

  function Remaining(p: Pass): nat {
    match p case AtSlug(_, _, _) => 5 case AtCalendar(_, _, _) => 4 case AtDecide(_, _, _) => 3 case AtPrior(_, _, _, _) => 2 case _ => 1
  }

  /** The edition a pass would adopt, if any. */
  ghost predicate Adopts(t: Tables, p: Pass, id: nat) {
    || (p.AtSlug? && HasSlug(t.cups, CupSlug(p.slot.month), id))
    || (p.AtCalendar? && Blocks(t.cups, p.slot, id) && IsOurs(t.cups[id], p.slot))
  }

  lemma OneToAdopt(t: Tables, p: Pass, id: nat)
    requires SoundCalendar(t) && Adopts(t, p, id)
    ensures forall i :: !Adopts(DeleteCup(t, id), p, i)
  {
    forall i | Adopts(t, p, i) ensures i == id {
      assert Fits(t.cups, id, t.cups[id]);
      if p.AtCalendar? { assert Overlap(t.cups[i], t.cups[id]); }
    }
  }

  lemma StaleStep(w: World, r: nat, s: Slot)
    requires s in w.tables.rows && !DecidedIn(w.tables, s) && Stale(PassOf(w, r), s)
    requires forall id :: !Adopts(w.tables, PassOf(w, r), id)
    ensures var p := PassOf(w, r); var v := Step(w, Advance(r, Thin));
      if p.AtUpsert? then ForceLost(v.tables, s)
      else v.tables == w.tables && Stale(PassOf(v, r), s) && Remaining(PassOf(v, r)) < Remaining(p)
  {
    hide Fits, IsOurs;
    var t, p := w.tables, PassOf(w, r);
    forall id: nat
      ensures p.AtSlug? ==> !HasSlug(t.cups, CupSlug(p.slot.month), id)
      ensures p.AtCalendar? ==> !(Blocks(t.cups, p.slot, id) && IsOurs(t.cups[id], p.slot))
    {
      assert !Adopts(t, p, id);
    }
  }

  /** Left to go on, with whatever it would adopt deleted and a thin pool, such a pass loses the request. */
  lemma {:induction false} StaleLoses(w: World, r: nat, s: Slot, clear: bool) returns (es: seq<Event>)
    requires SoundCalendar(w.tables) && s in w.tables.rows && !DecidedIn(w.tables, s) && Stale(PassOf(w, r), s)
    requires clear ==> forall id :: !Adopts(w.tables, PassOf(w, r), id)
    ensures ForceLost(Run(w, es).tables, s)
    decreases Remaining(PassOf(w, r)), if clear then 0 else 1
  {
    hide Run, Step, SoundCalendar, Adopts, Stale, Remaining;
    var p := PassOf(w, r);
    if id: nat :| Adopts(w.tables, p, id) {
      var e := DeleteEvent(id);
      var v := Step(w, e);
      StepKeepsCalendar(w, e);
      OneToAdopt(w.tables, p, id);
      Deleted(w, id, r, s);
      es := StaleLoses(v, r, s, true);
      RunCons(w, e, es);
      es := [e] + es;
    } else {
      var e := Advance(r, Thin);
      var v := Step(w, e);
      StaleStep(w, r, s);
      if p.AtUpsert? {
        es := [];
        RunNothing(v);
      } else {
        StepKeepsCalendar(w, e);
        es := StaleLoses(v, r, s, false);
      }
      RunCons(w, e, es);
      es := [e] + es;
    }
  }

  lemma Deleted(w: World, id: nat, r: nat, s: Slot)
    requires s in w.tables.rows && !DecidedIn(w.tables, s)
    ensures var v := Step(w, DeleteEvent(id));
      v.tables == DeleteCup(w.tables, id) && v.passes == w.passes && s in v.tables.rows && !DecidedIn(v.tables, s)
  {
  }

  /** A force is safe from being overwritten, whatever happens next, exactly when no pass that read the slot without it
      is still under way. */
  lemma ForceIsKeptIff(w: World, s: Slot, at: int)
    requires SoundCalendar(w.tables) && s in w.tables.rows && IsSkip(w.tables.rows[s].decision) && at < s.month
    ensures (forall es: seq<Event> :: !ForceLost(Run(w, [ForceEvent(s, at)] + es).tables, s))
            <==> forall r: nat :: !Stale(PassOf(w, r), s)
  {
    hide Run, Step, SoundCalendar, Stale;
    var f := ForceEvent(s, at);
    var v := Step(w, f);
    ForceReopens(w, s, at);
    StepKeepsCalendar(w, f);
    if r: nat :| Stale(PassOf(w, r), s) {
      var es := StaleLoses(v, r, s, false);
      RunCons(w, f, es);
      assert ForceLost(Run(w, [f] + es).tables, s);
    } else {
      assert forall r: nat :: PassOf(v, r) == PassOf(w, r);
      forall es: seq<Event> ensures !ForceLost(Run(w, [f] + es).tables, s) {
        RunCons(w, f, es);
        RunKeepsRequest(v, es, s);
      }
    }
  }

  /** Two replicas on an empty calendar: the second decides a thin month while the first still reads it, so a force of
      the skip would not be safe. */
  lemma StalePassExists(s: Slot, now: int)
    requires now < s.month
    ensures var w := Run(EMPTY_WORLD, [Start(0, s, now)] + WholePass(1, s, now, Thin));
      SoundCalendar(w.tables) && s in w.tables.rows && w.tables.rows[s].decision == SkippedThin && Stale(PassOf(w, 0), s)
  {
    hide Run;
    RunCons(EMPTY_WORLD, Start(0, s, now), WholePass(1, s, now, Thin));
    var v := Step(EMPTY_WORLD, Start(0, s, now));
    assert PassOf(v, 0) == AtSlug(s, false, false);
    PassSkips(v, 1, s, now, Thin);
    OtherPassStays(v, s, now);
  }

  lemma OtherPassStays(w: World, s: Slot, now: int)
    ensures PassOf(Run(w, WholePass(1, s, now, Thin)), 0) == PassOf(w, 0)
  {
    hide Run, Step;
    SixSteps(w, 1, s, now, Thin);
    var a := Advance(1, Thin);
    var w1 := Step(w, Start(1, s, now));
    StepOfOther(w, Start(1, s, now));
    StepOfOther(w1, a);
    StepOfOther(Step(w1, a), a);
    StepOfOther(Step(Step(w1, a), a), a);
    StepOfOther(Step(Step(Step(w1, a), a), a), a);
    StepOfOther(Step(Step(Step(Step(w1, a), a), a), a), a);
  }

  lemma StepOfOther(w: World, e: Event)
    requires (e.Start? || e.Advance?) && e.replica == 1
    ensures PassOf(Step(w, e), 0) == PassOf(w, 0)
  {
  }
}
