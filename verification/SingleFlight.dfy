/** The single-flight protocol of the response cache (web/cache.js, `cache`): requests that miss share one
    run of the handler. Each event is one turn of the event loop. */
module SingleFlight {
  import opened Wrappers

  /** What is cached and shared: the content type and the string body of a 200 response. */
  datatype Body = Body(contentType: string, text: string)

  /** Where a request is: waiting for Redis, running the handler as a leader, waiting for a leader, running
      the handler on its own, or answered with a shared or stored body. */
  datatype Phase = Looking | Leading | Following(leader: nat) | Solo | Served(body: Body)

  /** `settled` is the flag of `installStore`; `outcome` is the leader's promise, pending while None; `closed`
      says that the connection's one close event has come. For the statements only: `late`, that it came before
      the request led, when nothing listened for it yet. */
  datatype Request = Request(key: string, phase: Phase, settled: bool, outcome: Option<Option<Body>>, closed: bool, late: bool)

  /** Requests are named by their arrival number. `stored` is every body ever written to Redis. For the
      statements only: `ran`, the string bodies of every 200 run of a handler, and `settles`, every call of a
      leader's `settle`. */
  datatype State = State(inflight: map<string, nat>, requests: seq<Request>, stored: set<(string, Body)>,
                         ran: set<(string, Body)>, settles: seq<nat>)

  const IDLE := State(map[], [], {}, {}, [])

  datatype Event =
    | Arrive(key: string, redisReady: bool)
    | LookedUp(r: nat, hit: Option<Body>)
    | Sent(r: nat, status: int, body: Option<Body>, redisReady: bool)
    | Closed(r: nat)
    | LeaderDone(r: nat)
    | TimedOut(r: nat)
    | RanElsewhere(key: string, result: Body)

  function NewRequest(key: string): Request { Request(key, Looking, false, None, false, false) }

  function Move(s: State, r: nat, p: Phase): State
    requires r < |s.requests|
  {
    s.(requests := s.requests[r := s.requests[r].(phase := p)])
  }

  /** `lead`: the request's own promise replaces whatever is in flight for its key. */
  function Lead(s: State, r: nat): State
    requires r < |s.requests|
  {
    s.(inflight := s.inflight[s.requests[r].key := r],
       requests := s.requests[r := s.requests[r].(phase := Leading, settled := false, outcome := None,
                                                   late := s.requests[r].closed)])
  }

  /** `finish`: the first call of a leader settles it and drops the key's entry; every other call is ignored. */
  function Finish(s: State, r: nat, v: Option<Body>): State
    requires r < |s.requests|
  {
    var q := s.requests[r];
    if q.phase != Leading || q.settled then s else
    s.(inflight := s.inflight - {q.key},
       requests := s.requests[r := q.(settled := true, outcome := Some(v))],
       settles := s.settles + [r])
  }

  /** The connection closes, once; only a request that already leads listens for it. */
  function Close(s: State, r: nat): State
    requires r < |s.requests|
  {
    if s.requests[r].closed then s
    else Finish(s.(requests := s.requests[r := s.requests[r].(closed := true)]), r, None)
  }

  predicate RunsHandler(q: Request) { q.phase == Leading || q.phase == Solo }

  /** The wrapped `res.send`. */
  function Send(s: State, r: nat, status: int, body: Option<Body>, redisReady: bool): State
    requires r < |s.requests|
  {
    if !RunsHandler(s.requests[r]) then s
    else if status == 200 && body.Some? then
      var entry := (s.requests[r].key, body.value);
      var run := s.(ran := s.ran + {entry}, stored := if redisReady then s.stored + {entry} else s.stored);
      Finish(Finish(run, r, body), r, None)
    else Finish(s, r, None)
  }

  function Step(s: State, e: Event): State {
    match e
    case Arrive(key, redisReady) =>
      var r := |s.requests|;
      var t := s.(requests := s.requests + [NewRequest(key)]);
      if key in s.inflight then Move(t, r, Following(s.inflight[key]))
      else if !redisReady then Lead(t, r) else t
    case LookedUp(r, hit) =>
      if r >= |s.requests| || s.requests[r].phase != Looking then s
      else if hit.None? then Lead(s, r)
      else if (s.requests[r].key, hit.value) in s.stored then Move(s, r, Served(hit.value)) else s
    case Sent(r, status, body, redisReady) => if r < |s.requests| then Send(s, r, status, body, redisReady) else s
    case Closed(r) => if r < |s.requests| then Close(s, r) else s
    case LeaderDone(r) =>
      if r >= |s.requests| || !s.requests[r].phase.Following? || s.requests[r].phase.leader >= |s.requests| then s else
      (match s.requests[s.requests[r].phase.leader].outcome
       case None => s
       case Some(None) => Move(s, r, Solo)
       case Some(Some(b)) => Move(s, r, Served(b)))
    case TimedOut(r) => if r < |s.requests| && s.requests[r].phase.Following? then Move(s, r, Solo) else s
    case RanElsewhere(key, b) => s.(ran := s.ran + {(key, b)}, stored := s.stored + {(key, b)})
  }

  function Run(s: State, es: seq<Event>): State
    decreases |es|
  {
    if es == [] then s else Run(Step(s, es[0]), es[1..])
  }

  /** A leader that has not settled. */
  predicate Running(q: Request) { q.phase == Leading && !q.settled }

  // ---- what holds at every moment --------------------------------------------------------------

  /** An entry belongs to a leader of its key that has not settled. */
  ghost predicate EntriesAreLive(s: State) {
    forall key :: key in s.inflight ==>
      var r := s.inflight[key];
      r < |s.requests| && s.requests[r].key == key && s.requests[r].phase == Leading && !s.requests[r].settled
  }

  ghost predicate RequestSound(s: State, r: nat)
    requires r < |s.requests|
  {
    var q := s.requests[r];
    && (q.settled ==> q.phase == Leading)
    && (q.settled <==> q.outcome.Some?)
    && (q.late ==> q.closed) && (Running(q) && q.closed ==> q.late)
    && (q.outcome.Some? && q.outcome.value.Some? ==> (q.key, q.outcome.value.value) in s.ran)
    && (q.phase.Served? ==> (q.key, q.phase.body) in s.ran)
    && (q.phase.Following? ==> q.phase.leader < |s.requests| && s.requests[q.phase.leader].key == q.key
                               && s.requests[q.phase.leader].phase == Leading)
  }

  ghost predicate RequestsSound(s: State) { forall r: nat :: r < |s.requests| ==> RequestSound(s, r) }

  /** The calls of `settle` are one for each settled leader. */
  ghost predicate SettlesOnce(s: State) {
    && (forall r: nat :: r in s.settles <==> r < |s.requests| && s.requests[r].settled)
    && (forall i, j :: 0 <= i < j < |s.settles| ==> s.settles[i] != s.settles[j])
  }

  ghost predicate Valid(s: State) {
    EntriesAreLive(s) && RequestsSound(s) && SettlesOnce(s) && s.stored <= s.ran
  }

  lemma MoveKeepsValid(s: State, r: nat, p: Phase)
    requires Valid(s) && r < |s.requests| && s.requests[r].phase != Leading && p != Leading
    requires p.Served? ==> (s.requests[r].key, p.body) in s.ran
    requires p.Following? ==> p.leader < |s.requests| && s.requests[p.leader].key == s.requests[r].key
                              && s.requests[p.leader].phase == Leading
    ensures Valid(Move(s, r, p))
  {
    var t := Move(s, r, p);
    forall k: nat | k < |t.requests| ensures RequestSound(t, k) { assert RequestSound(s, k); }
  }

  lemma LeadKeepsValid(s: State, r: nat)
    requires Valid(s) && r < |s.requests| && s.requests[r].phase == Looking
    ensures Valid(Lead(s, r))
  {
    var t := Lead(s, r);
    assert RequestSound(s, r);
    forall k: nat | k < |t.requests| ensures RequestSound(t, k) { assert RequestSound(s, k); }
  }

  lemma FinishKeepsValid(s: State, r: nat, v: Option<Body>)
    requires Valid(s) && r < |s.requests| && (v.Some? ==> (s.requests[r].key, v.value) in s.ran)
    ensures Valid(Finish(s, r, v))
    ensures |Finish(s, r, v).requests| == |s.requests|
  {
    var t := Finish(s, r, v);
    if t != s {
      forall k: nat | k < |t.requests| ensures RequestSound(t, k) { assert RequestSound(s, k); }
      assert forall key :: key in t.inflight ==> t.inflight[key] == s.inflight[key] && key != s.requests[r].key;
      assert r !in s.settles;
    }
  }

  lemma CloseKeepsValid(s: State, r: nat)
    requires Valid(s) && r < |s.requests|
    ensures Valid(Close(s, r))
  {
    var q := s.requests[r];
    if !q.closed {
      assert RequestSound(s, r);
      var t := s.(requests := s.requests[r := q.(closed := true)]);
      if Running(q) {
        CloseAndSettle(s, r);
      } else {
        forall k: nat | k < |t.requests| ensures RequestSound(t, k) { assert RequestSound(s, k); }
      }
    }
  }

  lemma CloseAndSettle(s: State, r: nat)
    requires Valid(s) && r < |s.requests| && Running(s.requests[r]) && !s.requests[r].closed
    ensures Valid(Close(s, r))
  {
    FinishKeepsValid(s, r, None);
    var u, t := Finish(s, r, None), Close(s, r);
    assert t.requests == u.requests[r := u.requests[r].(closed := true)] && t.inflight == u.inflight;
    forall k: nat | k < |t.requests| ensures RequestSound(t, k) { assert RequestSound(u, k); }
  }

  lemma RanKeepsValid(s: State, entry: (string, Body), redisReady: bool)
    requires Valid(s)
    ensures Valid(s.(ran := s.ran + {entry}, stored := if redisReady then s.stored + {entry} else s.stored))
  {
    var t := s.(ran := s.ran + {entry}, stored := if redisReady then s.stored + {entry} else s.stored);
    forall k: nat | k < |t.requests| ensures RequestSound(t, k) { assert RequestSound(s, k); }
  }

  lemma JoinKeepsValid(s: State, key: string)
    requires Valid(s)
    ensures Valid(s.(requests := s.requests + [NewRequest(key)]))
  {
    var t := s.(requests := s.requests + [NewRequest(key)]);
    forall k: nat | k < |t.requests| ensures RequestSound(t, k) {
      if k < |s.requests| { assert RequestSound(s, k); }
    }
  }

  lemma SendKeepsValid(s: State, r: nat, status: int, body: Option<Body>, redisReady: bool)
    requires Valid(s) && r < |s.requests|
    ensures Valid(Send(s, r, status, body, redisReady))
  {
    hide Valid, Finish;
    if RunsHandler(s.requests[r]) {
      if status == 200 && body.Some? {
        var entry := (s.requests[r].key, body.value);
        RanKeepsValid(s, entry, redisReady);
        var run := s.(ran := s.ran + {entry}, stored := if redisReady then s.stored + {entry} else s.stored);
        FinishKeepsValid(run, r, body);
        FinishKeepsValid(Finish(run, r, body), r, None);
      } else {
        FinishKeepsValid(s, r, None);
      }
    }
  }

  lemma FollowerOf(s: State, r: nat)
    requires Valid(s) && r < |s.requests| && s.requests[r].phase.Following?
    ensures var p := s.requests[r].phase.leader;
      && p < |s.requests| && s.requests[p].key == s.requests[r].key
      && (s.requests[p].outcome.Some? && s.requests[p].outcome.value.Some?
          ==> (s.requests[r].key, s.requests[p].outcome.value.value) in s.ran)
  {
    assert RequestSound(s, r);
    assert RequestSound(s, s.requests[r].phase.leader);
  }

  lemma ArriveKeepsValid(s: State, key: string, redisReady: bool)
    requires Valid(s)
    ensures Valid(Step(s, Arrive(key, redisReady)))
  {
    hide RequestsSound, SettlesOnce, Move, Lead;
    var r := |s.requests|;
    var t := s.(requests := s.requests + [NewRequest(key)]);
    JoinKeepsValid(s, key);
    if key in s.inflight { MoveKeepsValid(t, r, Following(s.inflight[key])); }
    else if !redisReady { LeadKeepsValid(t, r); }
  }

  lemma StepKeepsValid(s: State, e: Event)
    requires Valid(s)
    ensures Valid(Step(s, e))
  {
    hide EntriesAreLive, RequestsSound, SettlesOnce, Move, Lead, Finish, Send, Close;
    match e
    case Arrive(key, redisReady) => ArriveKeepsValid(s, key, redisReady);
    case LookedUp(r, hit) =>
      if r < |s.requests| && s.requests[r].phase == Looking {
        if hit.None? { LeadKeepsValid(s, r); }
        else if (s.requests[r].key, hit.value) in s.stored { MoveKeepsValid(s, r, Served(hit.value)); }
      }
    case Sent(r, status, body, redisReady) => if r < |s.requests| { SendKeepsValid(s, r, status, body, redisReady); }
    case Closed(r) => if r < |s.requests| { CloseKeepsValid(s, r); }
    case LeaderDone(r) =>
      if r < |s.requests| && s.requests[r].phase.Following? {
        FollowerOf(s, r);
        match s.requests[s.requests[r].phase.leader].outcome
        case None =>
        case Some(None) => MoveKeepsValid(s, r, Solo);
        case Some(Some(b)) => MoveKeepsValid(s, r, Served(b));
      }
    case TimedOut(r) => if r < |s.requests| && s.requests[r].phase.Following? { MoveKeepsValid(s, r, Solo); }
    case RanElsewhere(key, b) => RanKeepsValid(s, (key, b), true);
  }

  /** Over every interleaving of requests, lookups, responses, disconnects and timeouts: each entry in flight
      is an unsettled leader's, each leader settles at most once, and every body handed to a waiting or a
      cached request came from a 200 run of the handler for the same key. */
  lemma {:induction false} RunKeepsValid(s: State, es: seq<Event>)
    requires Valid(s)
    ensures Valid(Run(s, es))
    decreases |es|
  {
    hide Valid, Step;
    if es != [] {
      StepKeepsValid(s, es[0]);
      RunKeepsValid(Step(s, es[0]), es[1..]);
    }
  }

  /** The event is a 200 string response of a handler run for the entry's key, here or on the other replica. */
  predicate Produces(s: State, e: Event, entry: (string, Body)) {
    || e == RanElsewhere(entry.0, entry.1)
    || (e.Sent? && e.status == 200 && e.body == Some(entry.1) && e.r < |s.requests|
        && RunsHandler(s.requests[e.r]) && s.requests[e.r].key == entry.0)
  }

  lemma StepRan(s: State, e: Event, entry: (string, Body))
    ensures entry in Step(s, e).ran <==> entry in s.ran || Produces(s, e, entry)
  {
    var (key, body) := entry;
    match e
    case Sent(r, status, sent, redisReady) =>
      if r < |s.requests| && RunsHandler(s.requests[r]) && status == 200 && sent.Some? {
        assert entry == (s.requests[r].key, sent.value) <==> s.requests[r].key == key && sent == Some(body);
      }
    case RanElsewhere(k, b) => assert entry == (k, b) <==> k == key && b == body;
    case _ =>
  }

  /** `ran` means what it says: for every entry of it some event of the run was a 200 response of a
      handler running for that key. */
  lemma {:induction false} RanIsProduced(s: State, es: seq<Event>, entry: (string, Body)) returns (i: nat)
    requires entry in Run(s, es).ran && entry !in s.ran
    ensures i < |es| && Produces(Run(s, es[..i]), es[i], entry)
    decreases |es|
  {
    hide Step, Produces;
    StepRan(s, es[0], entry);
    if Produces(s, es[0], entry) {
      i := 0;
    } else {
      var k := RanIsProduced(Step(s, es[0]), es[1..], entry);
      i := k + 1;
      assert es[..i][1..] == es[1..][..k];
    }
  }

  lemma IdleIsValid()
    ensures Valid(IDLE)
  {
  }

  /** The same, spelled out for every run of a fresh process. */
  lemma SharedBodiesAreSound(es: seq<Event>)
    ensures var w := Run(IDLE, es);
      && (forall key :: key in w.inflight ==>
            var r := w.inflight[key]; r < |w.requests| && w.requests[r].key == key && Running(w.requests[r]))
      && (forall r: nat :: r < |w.requests| && w.requests[r].phase.Served? ==>
            (w.requests[r].key, w.requests[r].phase.body) in w.ran)
      && (forall i, j :: 0 <= i < j < |w.settles| ==> w.settles[i] != w.settles[j])
  {
    hide Run;
    IdleIsValid();
    RunKeepsValid(IDLE, es);
    var w := Run(IDLE, es);
    forall r: nat | r < |w.requests| && w.requests[r].phase.Served?
      ensures (w.requests[r].key, w.requests[r].phase.body) in w.ran
    {
      assert RequestSound(w, r);
    }
  }

  // ---- what a settled leader leaves behind --------------------------------------------------------

  /** No step changes what a settled leader's promise holds. */
  lemma StepKeepsOutcome(s: State, e: Event, r: nat)
    requires r < |s.requests| && s.requests[r].phase == Leading && s.requests[r].settled
    ensures var t := Step(s, e);
      r < |t.requests| && t.requests[r] == s.requests[r].(closed := t.requests[r].closed)
  {
  }

  /** Whatever became of the handler, when a leader's connection closes its key has no entry of that leader and none of
      its followers has to wait: the next turn of a follower serves it or runs the handler. */
  lemma CloseReleasesFollowers(s: State, leader: nat, r: nat)
    requires Valid(s) && r < |s.requests| && s.requests[r].phase == Following(leader)
    requires leader < |s.requests| && !s.requests[leader].closed
    ensures var t := Step(s, Closed(leader));
      && (s.requests[r].key in t.inflight ==> t.inflight[s.requests[r].key] != leader)
      && !Step(t, LeaderDone(r)).requests[r].phase.Following?
  {
    assert RequestSound(s, r);
    assert RequestSound(s, leader);
    var t := Step(s, Closed(leader));
    assert t.requests[r] == s.requests[r];
    StepKeepsValid(s, Closed(leader));
  }

  /** The close event of a leader settles it exactly when it has not fired before. */
  lemma CloseSettlesIff(s: State, r: nat)
    requires r < |s.requests| && Running(s.requests[r])
    ensures Step(s, Closed(r)).requests[r].settled <==> !s.requests[r].closed
  {
  }

  /** An entry outlives its connection exactly when the connection closed before the request led, during its lookup. */
  lemma EntryOutlivesIff(s: State, key: string)
    requires Valid(s) && key in s.inflight
    ensures s.requests[s.inflight[key]].closed <==> s.requests[s.inflight[key]].late
  {
    assert RequestSound(s, s.inflight[key]);
  }

  /** Such a leader stays unsettled over every run in which its handler does not answer. */
  lemma {:induction false} LateLeaderWaits(s: State, es: seq<Event>, r: nat)
    requires r < |s.requests| && Running(s.requests[r]) && s.requests[r].closed
    requires forall i :: 0 <= i < |es| && es[i].Sent? ==> es[i].r != r
    ensures var t := Run(s, es); r < |t.requests| && Running(t.requests[r]) && t.requests[r].closed
    decreases |es|
  {
    hide Step;
    if es != [] {
      LateLeaderStep(s, es[0], r);
      LateLeaderWaits(Step(s, es[0]), es[1..], r);
    }
  }

  lemma LateLeaderStep(s: State, e: Event, r: nat)
    requires r < |s.requests| && Running(s.requests[r]) && s.requests[r].closed && (e.Sent? ==> e.r != r)
    ensures var t := Step(s, e); r < |t.requests| && Running(t.requests[r]) && t.requests[r].closed
  {
  }

  /** Any answer of its handler ends it. */
  lemma AnswerSettles(s: State, r: nat, status: int, body: Option<Body>, redisReady: bool)
    requires r < |s.requests| && Running(s.requests[r])
    ensures var t := Step(s, Sent(r, status, body, redisReady)); t.requests[r].settled && s.requests[r].key !in t.inflight
  {
  }

  /** A client that leaves during its lookup: the request leads afterwards and its entry stays. */
  lemma LateLeaderExists()
    ensures var t := Run(IDLE, [Arrive("k", true), Closed(0), LookedUp(0, None), Closed(0)]);
      "k" in t.inflight && t.inflight["k"] == 0 && Running(t.requests[0]) && t.requests[0].late
  {
    var es := [Arrive("k", true), Closed(0), LookedUp(0, None), Closed(0)];
    var s1 := Step(IDLE, es[0]);
    var s2 := Step(s1, es[1]);
    var s3 := Step(s2, es[2]);
    var s4 := Step(s3, es[3]);
    assert s2.requests[0].closed && s2.requests[0].phase == Looking;
    assert es[1..][1..] == es[2..] && es[2..][1..] == es[3..] && es[3..][1..] == [];
    assert Run(s3, es[3..]) == Run(s4, []) == s4;
    assert Run(s2, es[2..]) == Run(s3, es[3..]);
    assert Run(s1, es[1..]) == Run(s2, es[2..]);
  }

  // ---- how many leaders a key can have --------------------------------------------------------------

  ghost predicate AtMostOneLeader(s: State) {
    forall i, j :: 0 <= i < j < |s.requests| && s.requests[i].key == s.requests[j].key ==>
      !(Running(s.requests[i]) && Running(s.requests[j]))
  }

  /** No lookup is pending and every unsettled leader is the one in flight. */
  ghost predicate Exclusive(s: State) {
    forall r: nat :: r < |s.requests| ==>
      && s.requests[r].phase != Looking
      && (s.requests[r].phase == Leading && !s.requests[r].settled ==>
          s.requests[r].key in s.inflight && s.inflight[s.requests[r].key] == r)
  }

  lemma StepKeepsExclusive(s: State, e: Event)
    requires Exclusive(s) && (e.Arrive? ==> !e.redisReady)
    ensures Exclusive(Step(s, e))
  {
    if e.Sent? && e.r < |s.requests| { hide Step; SendKeepsExclusive(s, e.r, e.status, e.body, e.redisReady); StepSent(s, e); }
  }

  lemma StepSent(s: State, e: Event)
    requires e.Sent? && e.r < |s.requests|
    ensures Step(s, e) == Send(s, e.r, e.status, e.body, e.redisReady)
  {
  }

  lemma SendKeepsExclusive(s: State, r: nat, status: int, body: Option<Body>, redisReady: bool)
    requires Exclusive(s) && r < |s.requests|
    ensures Exclusive(Send(s, r, status, body, redisReady))
  {
  }

  /** While Redis is out of the picture, the handler of a key runs under at most one leader at a time. */
  lemma {:induction false} OneLeaderWithoutRedis(s: State, es: seq<Event>)
    requires Exclusive(s) && forall i :: 0 <= i < |es| && es[i].Arrive? ==> !es[i].redisReady
    ensures Exclusive(Run(s, es)) && AtMostOneLeader(Run(s, es))
    decreases |es|
  {
    hide Step;
    if es != [] {
      StepKeepsExclusive(s, es[0]);
      OneLeaderWithoutRedis(Step(s, es[0]), es[1..]);
    }
  }

  /** The key of the request the event makes a leader: an arrival that finds no entry and no Redis, or a lookup that
      comes to nothing. */
  function LeadsFor(s: State, e: Event): Option<string> {
    match e
    case Arrive(key, redisReady) => if key !in s.inflight && !redisReady then Some(key) else None
    case LookedUp(r, hit) =>
      if r < |s.requests| && s.requests[r].phase == Looking && hit.None? then Some(s.requests[r].key) else None
    case _ => None
  }

  /** Some request of the key is leading and has not settled, in flight or not. */
  ghost predicate HasLeader(s: State, key: string) {
    exists i :: 0 <= i < |s.requests| && s.requests[i].key == key && Running(s.requests[i])
  }

  /** A second leader of a key appears exactly when an event makes a request lead while another leader of its key
      has not settled. */
  lemma SecondLeaderIff(s: State, e: Event)
    requires Valid(s) && AtMostOneLeader(s)
    ensures !AtMostOneLeader(Step(s, e)) <==> LeadsFor(s, e).Some? && HasLeader(s, LeadsFor(s, e).value)
  {
    hide Step, Valid;
    if LeadsFor(s, e).Some? { NewLeaderIff(s, e); } else { NoNewLeader(s, e); }
  }

  lemma NewLeaderIff(s: State, e: Event)
    requires Valid(s) && AtMostOneLeader(s) && LeadsFor(s, e).Some?
    ensures !AtMostOneLeader(Step(s, e)) <==> HasLeader(s, LeadsFor(s, e).value)
  {
    var t, key := Step(s, e), LeadsFor(s, e).value;
    var r := if e.Arrive? then |s.requests| else e.r;
    assert t.requests[r].key == key && Running(t.requests[r]);
    assert forall i :: 0 <= i < |s.requests| && i != r ==> t.requests[i] == s.requests[i];
    if HasLeader(s, key) {
      var i :| 0 <= i < |s.requests| && s.requests[i].key == key && Running(s.requests[i]);
      assert i != r && t.requests[i] == s.requests[i];
      if i < r { assert !AtMostOneLeader(t); } else { assert !AtMostOneLeader(t); }
    }
  }

  lemma NoNewLeader(s: State, e: Event)
    requires Valid(s) && AtMostOneLeader(s) && LeadsFor(s, e).None?
    ensures AtMostOneLeader(Step(s, e))
  {
    var t := Step(s, e);
    forall i | 0 <= i < |t.requests| && Running(t.requests[i])
      ensures i < |s.requests| && Running(s.requests[i]) && s.requests[i].key == t.requests[i].key
    {
      StillRunning(s, e, i);
    }
  }

  lemma StillRunning(s: State, e: Event, i: nat)
    requires LeadsFor(s, e).None? && i < |Step(s, e).requests| && Running(Step(s, e).requests[i])
    ensures i < |s.requests| && Running(s.requests[i]) && s.requests[i].key == Step(s, e).requests[i].key
  {
  }

  // ---- any number of leaders --------------------------------------------------------------------------

  function Arrivals(key: string, n: nat): seq<Event> {
    if n == 0 then [] else Arrivals(key, n - 1) + [Arrive(key, true)]
  }

  function Misses(n: nat): seq<Event> { if n == 0 then [] else Misses(n - 1) + [LookedUp(n - 1, None)] }

  lemma {:induction false} RunConcat(s: State, a: seq<Event>, b: seq<Event>)
    ensures Run(s, a + b) == Run(Run(s, a), b)
    decreases |a|
  {
    hide Step;
    if a == [] {
      assert a + b == b;
    } else {
      assert (a + b)[1..] == a[1..] + b;
      RunConcat(Step(s, a[0]), a[1..], b);
    }
  }

  lemma RunOne(s: State, e: Event)
    ensures Run(s, [e]) == Step(s, e)
  {
    hide Step;
    assert [e][1..] == [];
  }

  lemma {:induction false} ArrivalsLook(key: string, n: nat)
    ensures var t := Run(IDLE, Arrivals(key, n));
      t.inflight == map[] && |t.requests| == n && forall i :: 0 <= i < n ==> t.requests[i] == NewRequest(key)
  {
    hide Step;
    if n > 0 {
      ArrivalsLook(key, n - 1);
      var s := Run(IDLE, Arrivals(key, n - 1));
      RunConcat(IDLE, Arrivals(key, n - 1), [Arrive(key, true)]);
      RunOne(s, Arrive(key, true));
      ArrivalLooks(s, key);
    }
  }

  lemma ArrivalLooks(s: State, key: string)
    requires s.inflight == map[]
    ensures Step(s, Arrive(key, true)) == s.(requests := s.requests + [NewRequest(key)])
  {
  }

  lemma {:induction false} MissesLead(s: State, key: string, n: nat)
    requires n <= |s.requests| && forall i :: 0 <= i < |s.requests| ==> s.requests[i] == NewRequest(key)
    ensures var t := Run(s, Misses(n));
      && |t.requests| == |s.requests|
      && (forall i :: 0 <= i < n ==> t.requests[i].key == key && Running(t.requests[i]))
      && (forall i :: n <= i < |s.requests| ==> t.requests[i] == NewRequest(key))
  {
    hide Step;
    if n > 0 {
      MissesLead(s, key, n - 1);
      var t := Run(s, Misses(n - 1));
      RunConcat(s, Misses(n - 1), [LookedUp(n - 1, None)]);
      RunOne(t, LookedUp(n - 1, None));
      MissLeads(t, n - 1);
    }
  }

  lemma MissLeads(s: State, r: nat)
    requires r < |s.requests| && s.requests[r].phase == Looking
    ensures Step(s, LookedUp(r, None)) == Lead(s, r)
  {
  }

  /** With Redis any number of requests may look a key up and miss before the first of them has answered: then all of
      them lead, each taking over the entry of the one before. */
  lemma ManyLeadersWithRedis(key: string, n: nat)
    ensures var t := Run(IDLE, Arrivals(key, n) + Misses(n));
      |t.requests| == n && forall i :: 0 <= i < n ==> t.requests[i].key == key && Running(t.requests[i])
  {
    hide Run;
    ArrivalsLook(key, n);
    RunConcat(IDLE, Arrivals(key, n), Misses(n));
    MissesLead(Run(IDLE, Arrivals(key, n)), key, n);
  }

  // ---- followers ----------------------------------------------------------------------------------------

  /** An arrival that finds an entry in flight follows the running leader it belongs to. */
  lemma ArrivalJoins(s: State, key: string, redisReady: bool)
    requires Valid(s) && key in s.inflight
    ensures var t, r := Step(s, Arrive(key, redisReady)), |s.requests|;
      && |t.requests| == r + 1 && t.requests[r].key == key && t.requests[r].phase == Following(s.inflight[key])
      && s.inflight[key] < r && Running(t.requests[s.inflight[key]]) && t.requests[s.inflight[key]].key == key
      && t.inflight == s.inflight && forall i :: 0 <= i < r ==> t.requests[i] == s.requests[i]
  {
    hide RequestsSound, SettlesOnce;
  }

  /** What an event makes of a leader's promise, read off the event: a 200 response with a string body resolves it
      with that body; any other response, or the connection's close unless it came before, with nothing. */
  function Resolves(e: Event, leader: nat, closed: bool): Option<Option<Body>> {
    match e
    case Sent(r, status, body, _) => if r != leader then None else Some(if status == 200 then body else None)
    case Closed(r) => if r == leader && !closed then Some(None) else None
    case _ => None
  }

  /** The first of the events that resolves the promise decides it. */
  function Promise(es: seq<Event>, leader: nat, closed: bool): Option<Option<Body>> {
    if es == [] then None
    else if Resolves(es[0], leader, closed).Some? then Resolves(es[0], leader, closed)
    else Promise(es[1..], leader, closed)
  }

  /** Where a follower gets to, read off the events: its timeout sends it off alone; its first turn after the promise
      is resolved serves it, or sends it off when there was nothing to share. */
  function Fate(es: seq<Event>, r: nat, leader: nat, closed: bool, promise: Option<Option<Body>>): Phase
    decreases |es|
  {
    if es == [] then Following(leader)
    else if es[0] == TimedOut(r) then Solo
    else if es[0] == LeaderDone(r) && promise.Some? then (if promise.value.Some? then Served(promise.value.value) else Solo)
    else Fate(es[1..], r, leader, closed, if promise.Some? then promise else Resolves(es[0], leader, closed))
  }

  lemma LeaderStep(s: State, e: Event, leader: nat)
    requires leader < |s.requests| && s.requests[leader].phase == Leading
    requires s.requests[leader].settled <==> s.requests[leader].outcome.Some?
    ensures var t := Step(s, e); var q, v := s.requests[leader], Resolves(e, leader, s.requests[leader].closed);
      && leader < |t.requests| && t.requests[leader].phase == Leading
      && (t.requests[leader].settled <==> t.requests[leader].outcome.Some?)
      && t.requests[leader].outcome == (if q.outcome.Some? then q.outcome else v)
      && (t.requests[leader].outcome.None? ==> t.requests[leader].closed == q.closed)
  {
  }

  lemma FollowerStep(s: State, e: Event, r: nat, leader: nat)
    requires r < |s.requests| && s.requests[r].phase == Following(leader) && leader < |s.requests|
    ensures var t := Step(s, e); var promise := s.requests[leader].outcome;
      && r < |t.requests|
      && t.requests[r].phase ==
        if e == TimedOut(r) then Solo
        else if e == LeaderDone(r) && promise.Some? then (if promise.value.Some? then Served(promise.value.value) else Solo)
        else Following(leader)
  {
  }

  lemma {:induction false} EndedStays(s: State, es: seq<Event>, r: nat)
    requires r < |s.requests| && (s.requests[r].phase == Solo || s.requests[r].phase.Served?)
    ensures r < |Run(s, es).requests| && Run(s, es).requests[r].phase == s.requests[r].phase
    decreases |es|
  {
    hide Step;
    if es != [] {
      EndedStep(s, es[0], r);
      EndedStays(Step(s, es[0]), es[1..], r);
    }
  }

  lemma EndedStep(s: State, e: Event, r: nat)
    requires r < |s.requests| && (s.requests[r].phase == Solo || s.requests[r].phase.Served?)
    ensures r < |Step(s, e).requests| && Step(s, e).requests[r].phase == s.requests[r].phase
  {
  }

  /** A closed connection matters to a promise only while it is pending. */
  lemma {:induction false} FateOfResolved(es: seq<Event>, r: nat, leader: nat, closed: bool, other: bool, promise: Option<Option<Body>>)
    requires promise.Some?
    ensures Fate(es, r, leader, closed, promise) == Fate(es, r, leader, other, promise)
    decreases |es|
  {
    if es != [] { FateOfResolved(es[1..], r, leader, closed, other, promise); }
  }

  /** Over every run a follower ends where the events say, and nothing else decides it. */
  lemma {:induction false} FollowerFate(s: State, es: seq<Event>, r: nat, leader: nat)
    requires r < |s.requests| && s.requests[r].phase == Following(leader)
    requires leader < |s.requests| && s.requests[leader].phase == Leading
    requires s.requests[leader].settled <==> s.requests[leader].outcome.Some?
    ensures r < |Run(s, es).requests|
    ensures Run(s, es).requests[r].phase == Fate(es, r, leader, s.requests[leader].closed, s.requests[leader].outcome)
    decreases |es|
  {
    hide Step;
    if es != [] {
      var t := Step(s, es[0]);
      LeaderStep(s, es[0], leader);
      FollowerStep(s, es[0], r, leader);
      if t.requests[r].phase == Following(leader) {
        FollowerFate(t, es[1..], r, leader);
        var promise := t.requests[leader].outcome;
        if promise.Some? { FateOfResolved(es[1..], r, leader, t.requests[leader].closed, s.requests[leader].closed, promise); }
      } else {
        EndedStays(t, es[1..], r);
      }
    }
  }

  /** The follower has had no timeout, and no turn at which there was something to hear. */
  predicate Waiting(es: seq<Event>, r: nat, leader: nat, closed: bool) {
    forall i :: 0 <= i < |es| ==> es[i] != TimedOut(r) && (es[i] == LeaderDone(r) ==> Promise(es[..i], leader, closed).None?)
  }

  lemma {:induction false} FateOfTurn(es: seq<Event>, e: Event, r: nat, leader: nat, closed: bool)
    requires Waiting(es, r, leader, closed) && (e == TimedOut(r) || e == LeaderDone(r))
    ensures Fate(es + [e], r, leader, closed, None) ==
      var p := Promise(es, leader, closed);
      if e == TimedOut(r) then Solo else if p.None? then Following(leader) else if p.value.Some? then Served(p.value.value) else Solo
    decreases |es|
  {
    if es == [] {
      assert [e][1..] == [] && [] + [e] == [e];
    } else {
      var rest, v := es[1..], Resolves(es[0], leader, closed);
      assert (es + [e])[1..] == rest + [e] && (es + [e])[0] == es[0];
      assert es[..0] == [];
      if v.None? {
        forall i | 0 <= i < |rest| ensures rest[i] != TimedOut(r) && (rest[i] == LeaderDone(r) ==> Promise(rest[..i], leader, closed).None?) {
          assert rest[i] == es[i + 1] && es[..i + 1][1..] == rest[..i] && es[..i + 1][0] == es[0];
        }
        FateOfTurn(rest, e, r, leader, closed);
      } else {
        forall i | 0 <= i < |rest| ensures rest[i] != TimedOut(r) && rest[i] != LeaderDone(r) {
          assert rest[i] == es[i + 1] && es[..i + 1][0] == es[0];
        }
        FateOfWaiter(rest, e, r, leader, closed, v);
      }
    }
  }

  lemma {:induction false} FateOfWaiter(es: seq<Event>, e: Event, r: nat, leader: nat, closed: bool, v: Option<Option<Body>>)
    requires v.Some? && (e == TimedOut(r) || e == LeaderDone(r))
    requires forall i :: 0 <= i < |es| ==> es[i] != TimedOut(r) && es[i] != LeaderDone(r)
    ensures Fate(es + [e], r, leader, closed, v) ==
      if e == TimedOut(r) then Solo else if v.value.Some? then Served(v.value.value) else Solo
    decreases |es|
  {
    if es == [] {
      assert [] + [e] == [e];
    } else {
      assert (es + [e])[1..] == es[1..] + [e] && (es + [e])[0] == es[0];
      FateOfWaiter(es[1..], e, r, leader, closed, v);
    }
  }

  /** A follower that has been waiting is served on its next turn exactly when its leader has answered 200 with a string
      body, before anything else resolved the promise, and with that body; it runs the handler itself exactly when the
      leader left nothing to share or its own timeout came. */
  lemma NextTurnIff(s: State, es: seq<Event>, e: Event, r: nat, leader: nat, b: Body)
    requires Valid(s) && r < |s.requests| && s.requests[r].phase == Following(leader)
    requires leader < |s.requests| && Running(s.requests[leader])
    requires Waiting(es, r, leader, s.requests[leader].closed) && (e == TimedOut(r) || e == LeaderDone(r))
    ensures var t, p := Run(s, es + [e]), Promise(es, leader, s.requests[leader].closed);
      && r < |t.requests|
      && (t.requests[r].phase == Served(b) <==> e == LeaderDone(r) && p == Some(Some(b)))
      && (t.requests[r].phase == Solo <==> e == TimedOut(r) || p == Some(None))
  {
    hide Run, Step, Fate, Promise, EntriesAreLive, SettlesOnce;
    assert RequestSound(s, r);
    assert RequestSound(s, leader);
    FollowerFate(s, es + [e], r, leader);
    FateOfTurn(es, e, r, leader, s.requests[leader].closed);
  }

  lemma {:induction false} PromiseOfFirst(a: seq<Event>, e: Event, c: seq<Event>, leader: nat, closed: bool)
    requires Promise(a, leader, closed).None?
    ensures Resolves(e, leader, closed).Some? ==> Promise(a + [e] + c, leader, closed) == Resolves(e, leader, closed)
    decreases |a|
  {
    var all := a + [e] + c;
    if a != [] {
      assert all[1..] == a[1..] + [e] + c && all[0] == a[0];
      PromiseOfFirst(a[1..], e, c, leader, closed);
    } else {
      assert all[0] == e;
    }
  }

  /** So a rebuild is shared: whatever happens in between, a follower that does not time out gets the body of its
      leader's 200 response on its first turn after it. */
  lemma BodyIsShared(s: State, before: seq<Event>, after: seq<Event>, r: nat, leader: nat, b: Body, redisReady: bool)
    requires Valid(s) && r < |s.requests| && s.requests[r].phase == Following(leader)
    requires leader < |s.requests| && Running(s.requests[leader])
    requires Promise(before, leader, s.requests[leader].closed).None?
    requires forall e :: e in before + after ==> e != TimedOut(r) && e != LeaderDone(r)
    ensures var t := Run(s, before + [Sent(leader, 200, Some(b), redisReady)] + after + [LeaderDone(r)]);
      r < |t.requests| && t.requests[r].phase == Served(b)
  {
    hide Run, Step, Promise, Valid;
    var sent := Sent(leader, 200, Some(b), redisReady);
    var es := before + [sent] + after;
    PromiseOfFirst(before, sent, after, leader, s.requests[leader].closed);
    forall i | 0 <= i < |es| ensures es[i] != TimedOut(r) && es[i] != LeaderDone(r) {
      if i != |before| { assert es[i] in before + after; }
    }
    NextTurnIff(s, es, LeaderDone(r), r, leader, b);
  }

  // ---- stored bodies --------------------------------------------------------------------------------------

  /** A lookup that hits is served the stored body, and runs no handler. */
  lemma HitIsServed(s: State, r: nat, b: Body)
    requires r < |s.requests| && s.requests[r].phase == Looking && (s.requests[r].key, b) in s.stored
    ensures var t := Step(s, LookedUp(r, Some(b)));
      t == s.(requests := s.requests[r := s.requests[r].(phase := Served(b))])
  {
  }

  /** The event stores a body: a 200 string response, here while Redis is ready, or on the other replica. */
  predicate Stores(s: State, e: Event, entry: (string, Body)) { Produces(s, e, entry) && (e.Sent? ==> e.redisReady) }

  lemma StepStored(s: State, e: Event, entry: (string, Body))
    ensures entry in Step(s, e).stored <==> entry in s.stored || Stores(s, e, entry)
  {
    var (key, body) := entry;
    match e
    case Sent(r, status, sent, redisReady) =>
      if r < |s.requests| && RunsHandler(s.requests[r]) && status == 200 && sent.Some? {
        assert entry == (s.requests[r].key, sent.value) <==> s.requests[r].key == key && sent == Some(body);
      }
    case RanElsewhere(k, b) => assert entry == (k, b) <==> k == key && b == body;
    case _ =>
  }

  /** Over every run exactly those bodies are written to Redis. */
  lemma {:induction false} StoredIff(s: State, es: seq<Event>, entry: (string, Body))
    ensures entry in Run(s, es).stored
            <==> entry in s.stored || exists i :: 0 <= i < |es| && Stores(Run(s, es[..i]), es[i], entry)
    decreases |es|
  {
    hide Step, Stores;
    if es != [] {
      var t, rest := Step(s, es[0]), es[1..];
      StepStored(s, es[0], entry);
      StoredIff(t, rest, entry);
      assert Run(s, es[..0]) == s;
      forall i | 0 <= i < |rest| ensures Run(s, es[..i + 1]) == Run(t, rest[..i]) && es[i + 1] == rest[i] {
        assert es[..i + 1][1..] == rest[..i];
      }
      if i :| 0 <= i < |rest| && Stores(Run(t, rest[..i]), rest[i], entry) { assert Stores(Run(s, es[..i + 1]), es[i + 1], entry); }
      if i :| 0 <= i < |es| && Stores(Run(s, es[..i]), es[i], entry) {
        if i > 0 { assert Run(s, es[..i - 1 + 1]) == Run(t, rest[..i - 1]); }
      }
    }
  }

  // ---- the middleware ---------------------------------------------------------------------------------

  /** The shared Map, and each request's closure variables, updated by the callbacks. */
  class Middleware {
    var inflight: map<string, nat>
    var requests: seq<Request>
    var stored: set<(string, Body)>
    ghost var ran: set<(string, Body)>
    ghost var settles: seq<nat>

    ghost function View(): State reads this { State(inflight, requests, stored, ran, settles) }

    constructor ()
      ensures View() == IDLE && Valid(View())
    {
      inflight, requests, stored, ran, settles := map[], [], {}, {}, [];
    }

    method RunAsLeader(r: nat)
      requires r < |requests|
      modifies this
      ensures View() == Lead(old(View()), r)
    {
      inflight := inflight[requests[r].key := r];
      requests := requests[r := requests[r].(phase := Leading, settled := false, outcome := None, late := requests[r].closed)];
    }

    method FinishOnce(r: nat, v: Option<Body>)
      requires r < |requests|
      modifies this
      ensures View() == Finish(old(View()), r, v)
    {
      if requests[r].phase == Leading && !requests[r].settled {
        requests := requests[r := requests[r].(settled := true, outcome := Some(v))];
        inflight := inflight - {requests[r].key};
        settles := settles + [r];
      }
    }

    method OnRequest(key: string, redisReady: bool)
      modifies this
      ensures View() == Step(old(View()), Arrive(key, redisReady))
    {
      var r := |requests|;
      requests := requests + [NewRequest(key)];
      if key in inflight {
        requests := requests[r := requests[r].(phase := Following(inflight[key]))];
      } else if !redisReady {
        RunAsLeader(r);
      }
    }

    /** The answer of `client.get`: a body, or nothing usable (a miss, an error, a timeout, a broken entry). */
    method OnLookup(r: nat, hit: Option<Body>)
      requires r < |requests| && requests[r].phase == Looking
      requires hit.Some? ==> (requests[r].key, hit.value) in stored
      modifies this
      ensures View() == Step(old(View()), LookedUp(r, hit))
    {
      if hit.Some? {
        requests := requests[r := requests[r].(phase := Served(hit.value))];
      } else {
        RunAsLeader(r);
      }
    }

    method OnSend(r: nat, status: int, body: Option<Body>, redisReady: bool)
      requires r < |requests| && RunsHandler(requests[r])
      modifies this
      ensures View() == Step(old(View()), Sent(r, status, body, redisReady))
    {
      hide Finish;
      if status == 200 && body.Some? {
        ran := ran + {(requests[r].key, body.value)};
        if redisReady { stored := stored + {(requests[r].key, body.value)}; }
        FinishKeepsRequests(View(), r, body);
        FinishOnce(r, body);
      }
      FinishOnce(r, None);
    }

    method OnClose(r: nat)
      requires r < |requests|
      modifies this
      ensures View() == Step(old(View()), Closed(r))
    {
      if !requests[r].closed {
        requests := requests[r := requests[r].(closed := true)];
        FinishOnce(r, None);
      }
    }

    /** The follower's continuation, run once its leader's promise is resolved. */
    method OnLeaderDone(r: nat)
      requires r < |requests| && requests[r].phase.Following? && requests[r].phase.leader < |requests|
      requires requests[requests[r].phase.leader].outcome.Some?
      modifies this
      ensures View() == Step(old(View()), LeaderDone(r))
    {
      match requests[requests[r].phase.leader].outcome.value
      case Some(b) => requests := requests[r := requests[r].(phase := Served(b))];
      case None => requests := requests[r := requests[r].(phase := Solo)];
    }

    method OnTimeout(r: nat)
      requires r < |requests| && requests[r].phase.Following?
      modifies this
      ensures View() == Step(old(View()), TimedOut(r))
    {
      requests := requests[r := requests[r].(phase := Solo)];
    }
  }

  lemma FinishKeepsRequests(s: State, r: nat, v: Option<Body>)
    requires r < |s.requests|
    ensures |Finish(s, r, v).requests| == |s.requests|
  {
  }
}
