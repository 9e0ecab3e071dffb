/** The quotas, the review and the building of requested maps (web/db.js, `mapgenSubmit`, `mapgenSubmitAdmin`,
    `mapgenApprove`, `mapgenReject`; tools/mapgen/worker.py). Each step is one transaction. */
module MapgenQuota {
  import opened Wrappers

  datatype Status = Review | Queued | Planning | Building | Publishing | Published | Failed | Rejected

  /** A row of mapgen_job; an administrator's request has neither day nor identity. `refunded` is for the
      statements: a worker has given the quota back. */
  datatype Job = Job(token: string, day: Option<int>, identity: Option<string>, status: Status, refunded: bool)

  /** A worker's run on a job, with the day and identity it read when it claimed it. */
  datatype Attempt = Attempt(job: nat, held: Option<(int, string)>, open: bool)

  /** The three tables, and the workers' runs. Days are day numbers; a row of `quota` is (day, identity). */
  datatype State = State(quota: map<(int, string), int>, budget: map<int, int>, jobs: seq<Job>, attempts: seq<Attempt>)

  const EMPTY := State(map[], map[], [], [])

  /** The caller's limits, its daily identity and the fresh random token of one request. */
  datatype Request = Request(identity: string, day: int, token: string, edited: bool, perIdentity: int, site: int)

  datatype Answer = Accepted(used: int) | OverIdentity | OverBudget | TokenTaken

  // ---- what the counters are meant to count ----------------------------------------------------

  /** What a counter row is about: the whole site on one day, or one identity on one day. */
  datatype Key = Site(day: int) | Person(day: int, identity: string)

  predicate Charged(j: Job, k: Key) {
    && j.status != Rejected
    && j.day == Some(k.day)
    && (k.Person? ==> j.identity == Some(k.identity) && !j.refunded)
  }

  /** The number of jobs charged to k. */
  function Tally(jobs: seq<Job>, k: Key): nat {
    if jobs == [] then 0 else Tally(jobs[..|jobs| - 1], k) + if Charged(jobs[|jobs| - 1], k) then 1 else 0
  }

  /** What the tables record for k; a missing row records nothing. */
  function Recorded(s: State, k: Key): int {
    match k
    case Site(d) => if d in s.budget then s.budget[d] else 0
    case Person(d, i) => if (d, i) in s.quota then s.quota[(d, i)] else 0
  }

  /** `token` is UNIQUE. */
  ghost predicate TokensUnique(jobs: seq<Job>) {
    forall i, j :: 0 <= i < j < |jobs| ==> jobs[i].token != jobs[j].token
  }

  /** A run is on a job past its review, and what it holds is that job's day and identity, unless purged since. */
  ghost predicate AttemptOk(s: State, n: nat)
    requires n < |s.attempts|
  {
    var a := s.attempts[n];
    && a.job < |s.jobs|
    && s.jobs[a.job].status != Review && s.jobs[a.job].status != Rejected
    && (a.held.Some? ==>
        && s.jobs[a.job].day == Some(a.held.value.0)
        && (s.jobs[a.job].identity.None? || s.jobs[a.job].identity == Some(a.held.value.1)))
  }

  /** What every step keeps, whatever the workers do. */
  ghost predicate Shaped(s: State) {
    && TokensUnique(s.jobs)
    && (forall n: nat :: n < |s.attempts| ==> AttemptOk(s, n))
    && (forall i :: 0 <= i < |s.jobs| && s.jobs[i].status == Review ==> !s.jobs[i].refunded)
  }

  ghost predicate Counted(s: State) { forall k :: Recorded(s, k) == Tally(s.jobs, k) }

  ghost predicate Valid(s: State) { Shaped(s) && Counted(s) }

  // ---- the transactions -----------------------------------------------------------------------

  function Forget(j: Job, day: int): Job {
    if j.identity.Some? && j.day.Some? && j.day.value < day - 1 then j.(identity := None) else j
  }

  /** The housekeeping at the head of a submission. */
  function Purge(s: State, day: int): State {
    State(map k | k in s.quota && k.0 >= day - 1 :: s.quota[k], s.budget,
          seq(|s.jobs|, i requires 0 <= i < |s.jobs| => Forget(s.jobs[i], day)), s.attempts)
  }

  /** The position of a token's job, or the number of jobs. */
  function Find(jobs: seq<Job>, token: string): (i: nat)
    ensures i <= |jobs|
    ensures i < |jobs| ==> jobs[i].token == token
    ensures forall k :: 0 <= k < i ==> jobs[k].token != token
  {
    if jobs == [] then 0 else if jobs[0].token == token then 0 else 1 + Find(jobs[1..], token)
  }

  function NewJob(a: Request): Job { Job(a.token, Some(a.day), Some(a.identity), if a.edited then Review else Queued, false) }

  /** A submission after its housekeeping left p; a refusal rolls everything back to s. */
  function Claim(s: State, p: State, a: Request): (State, Answer) {
    var who := (a.day, a.identity);
    if who in p.quota && p.quota[who] >= a.perIdentity then (s, OverIdentity)
    else if a.day in p.budget && p.budget[a.day] >= a.site then (s, OverBudget)
    else if Find(p.jobs, a.token) < |p.jobs| then (s, TokenTaken)
    else
      var used := Recorded(p, Person(a.day, a.identity)) + 1;
      (State(p.quota[who := used], p.budget[a.day := Recorded(p, Site(a.day)) + 1], p.jobs + [NewJob(a)], p.attempts),
       Accepted(used))
  }

  function Submit(s: State, a: Request): (State, Answer) { Claim(s, Purge(s, a.day), a) }

  /** An administrator's own request takes no quota. */
  function SubmitAdmin(s: State, token: string): State {
    if Find(s.jobs, token) < |s.jobs| then s else s.(jobs := s.jobs + [Job(token, None, None, Queued, false)])
  }

  predicate InReview(s: State, token: string) {
    var i := Find(s.jobs, token);
    i < |s.jobs| && s.jobs[i].status == Review
  }

  function Approve(s: State, token: string): State {
    if !InReview(s, token) then s else
    var i := Find(s.jobs, token);
    s.(jobs := s.jobs[i := s.jobs[i].(status := Queued)])
  }

  /** `UPDATE .. SET used = used - 1 WHERE .. AND used > 0` */
  function RefundQuota(quota: map<(int, string), int>, k: (int, string)): map<(int, string), int> {
    if k in quota && quota[k] > 0 then quota[k := quota[k] - 1] else quota
  }

  function RefundBudget(budget: map<int, int>, d: int): map<int, int> {
    if d in budget && budget[d] > 0 then budget[d := budget[d] - 1] else budget
  }

  function Reject(s: State, token: string): State {
    if !InReview(s, token) then s else
    var i := Find(s.jobs, token);
    var j := s.jobs[i];
    State(if j.day.Some? && j.identity.Some? then RefundQuota(s.quota, (j.day.value, j.identity.value)) else s.quota,
          if j.day.Some? then RefundBudget(s.budget, j.day.value) else s.budget,
          s.jobs[i := j.(status := Rejected)], s.attempts)
  }

  // ---- the workers ----------------------------------------------------------------------------

  function Held(j: Job): Option<(int, string)> {
    if j.day.Some? && j.identity.Some? then Some((j.day.value, j.identity.value)) else None
  }

  /** A worker claims a queued job. */
  function ClaimJob(s: State, token: string): State {
    var i := Find(s.jobs, token);
    if i == |s.jobs| || s.jobs[i].status != Queued then s else
    s.(jobs := s.jobs[i := s.jobs[i].(status := Planning)], attempts := s.attempts + [Attempt(i, Held(s.jobs[i]), true)])
  }

  /** A job started too long ago goes back to the queue; its worker, if it still lives, is not told. */
  function Requeue(s: State, token: string): State {
    var i := Find(s.jobs, token);
    if i == |s.jobs| || (s.jobs[i].status != Planning && s.jobs[i].status != Building) then s
    else s.(jobs := s.jobs[i := s.jobs[i].(status := Queued)])
  }

  predicate Running(s: State, n: nat) { n < |s.attempts| && s.attempts[n].open && s.attempts[n].job < |s.jobs| }

  /** A run puts its job into `building`, and at its end into `publishing`. */
  function Advance(s: State, n: nat, to: Status): State {
    if !Running(s, n) || (to != Building && to != Publishing) then s else
    var i := s.attempts[n].job;
    s.(jobs := s.jobs[i := s.jobs[i].(status := to)], attempts := s.attempts[n := s.attempts[n].(open := to == Building)])
  }

  predicate GivesBack(s: State, n: nat, refund: bool) { Running(s, n) && refund && s.attempts[n].held.Some? }

  /** `fail`: the job fails, whatever its status, and with `refund` the held row shrinks if it is above zero. */
  function GiveUp(s: State, n: nat, refund: bool): State {
    if !Running(s, n) then s else
    var i := s.attempts[n].job;
    var back := GivesBack(s, n, refund);
    State(if back then RefundQuota(s.quota, s.attempts[n].held.value) else s.quota, s.budget,
          s.jobs[i := s.jobs[i].(status := Failed, refunded := s.jobs[i].refunded || back)],
          s.attempts[n := s.attempts[n].(open := false)])
  }

  /** A run ends without a word. */
  function Die(s: State, n: nat): State {
    if n < |s.attempts| then s.(attempts := s.attempts[n := s.attempts[n].(open := false)]) else s
  }

  /** The map is on the servers. */
  function GoLive(s: State, token: string): State {
    var i := Find(s.jobs, token);
    if i == |s.jobs| || s.jobs[i].status != Publishing then s else s.(jobs := s.jobs[i := s.jobs[i].(status := Published)])
  }

  datatype Event =
    | Submitted(a: Request)
    | AdminSubmitted(token: string)
    | Approved(token: string)
    | Refused(token: string)
    | Claims(token: string)
    | Requeues(token: string)
    | Advances(attempt: nat, to: Status)
    | GivesUp(attempt: nat, refund: bool)
    | Dies(attempt: nat)
    | GoesLive(token: string)

  function Step(s: State, e: Event): State {
    match e
    case Submitted(a) => Submit(s, a).0
    case AdminSubmitted(t) => SubmitAdmin(s, t)
    case Approved(t) => Approve(s, t)
    case Refused(t) => Reject(s, t)
    case Claims(t) => ClaimJob(s, t)
    case Requeues(t) => Requeue(s, t)
    case Advances(n, to) => Advance(s, n, to)
    case GivesUp(n, refund) => GiveUp(s, n, refund)
    case Dies(n) => Die(s, n)
    case GoesLive(t) => GoLive(s, t)
  }

  function Run(s: State, es: seq<Event>): State
    decreases |es|
  {
    if es == [] then s else Run(Step(s, es[0]), es[1..])
  }

  // ---- counting ---------------------------------------------------------------------------------

  lemma {:induction false} TallyPush(jobs: seq<Job>, j: Job, k: Key)
    ensures Tally(jobs + [j], k) == Tally(jobs, k) + if Charged(j, k) then 1 else 0
  {
    assert (jobs + [j])[..|jobs|] == jobs;
  }

  lemma {:induction false} TallySet(jobs: seq<Job>, i: nat, j: Job, k: Key)
    requires i < |jobs|
    ensures Tally(jobs[i := j], k)
            == Tally(jobs, k) - (if Charged(jobs[i], k) then 1 else 0) + (if Charged(j, k) then 1 else 0)
  {
    var n := |jobs| - 1;
    if i == n {
      assert jobs[i := j][..n] == jobs[..n];
    } else {
      TallySet(jobs[..n], i, j, k);
      assert jobs[i := j][..n] == jobs[..n][i := j];
    }
  }

  /** Forgetting identities takes exactly the purged rows' charges away. */
  lemma {:induction false} TallyForget(jobs: seq<Job>, later: seq<Job>, day: int, k: Key)
    requires |later| == |jobs| && forall i :: 0 <= i < |jobs| ==> later[i] == Forget(jobs[i], day)
    ensures Tally(later, k) == if k.Person? && k.day < day - 1 then 0 else Tally(jobs, k)
  {
    if jobs != [] { TallyForget(jobs[..|jobs| - 1], later[..|later| - 1], day, k); }
  }

  lemma {:induction false} ChargedIsCounted(jobs: seq<Job>, i: nat, k: Key)
    requires i < |jobs| && Charged(jobs[i], k)
    ensures Tally(jobs, k) >= 1
  {
    if i < |jobs| - 1 { ChargedIsCounted(jobs[..|jobs| - 1], i, k); }
  }

  // ---- what every step keeps --------------------------------------------------------------------

  lemma StepKeepsTokens(s: State, e: Event)
    requires TokensUnique(s.jobs)
    ensures TokensUnique(Step(s, e).jobs)
  {
    hide Recorded, RefundQuota, RefundBudget;
    var t := Step(s, e);
    forall i | 0 <= i < |s.jobs| ensures t.jobs[i].token == s.jobs[i].token { TokenStays(s, e, i); }
    NewTokenIsNew(s, e);
  }

  lemma TokenStays(s: State, e: Event, i: nat)
    requires i < |s.jobs|
    ensures |Step(s, e).jobs| >= |s.jobs| && Step(s, e).jobs[i].token == s.jobs[i].token
  {
    hide Find, Recorded, RefundQuota, RefundBudget;
  }

  lemma NewTokenIsNew(s: State, e: Event)
    ensures var t := Step(s, e);
      && |s.jobs| <= |t.jobs| <= |s.jobs| + 1
      && (|t.jobs| > |s.jobs| ==> forall i :: 0 <= i < |s.jobs| ==> s.jobs[i].token != t.jobs[|s.jobs|].token)
  {
    hide Find, Recorded, RefundQuota, RefundBudget;
    if e.Submitted? && Submit(s, e.a).1.Accepted? {
      var p := Purge(s, e.a.day);
      forall i | 0 <= i < |s.jobs| ensures s.jobs[i].token != e.a.token { assert p.jobs[i].token == s.jobs[i].token; }
    }
  }

  /** What a step may do to a job: it keeps its day; its identity stays or is forgotten; a job past its review stays
      there, and one in review has no refund. */
  lemma JobStays(s: State, e: Event, i: nat)
    requires Shaped(s) && i < |s.jobs|
    ensures var t := Step(s, e);
      && i < |t.jobs| && t.jobs[i].day == s.jobs[i].day
      && (t.jobs[i].identity == s.jobs[i].identity || t.jobs[i].identity.None?)
      && (s.jobs[i].status != Review && s.jobs[i].status != Rejected ==> t.jobs[i].status != Review && t.jobs[i].status != Rejected)
      && (t.jobs[i].status == Review ==> !t.jobs[i].refunded)
  {
    hide Find, Recorded, RefundQuota, RefundBudget, TokensUnique;
    if e.GivesUp? && Running(s, e.attempt) { assert AttemptOk(s, e.attempt); }
  }

  lemma StepKeepsShape(s: State, e: Event)
    requires Shaped(s)
    ensures Shaped(Step(s, e))
  {
    hide TokensUnique;
    StepKeepsTokens(s, e);
    forall i | 0 <= i < |Step(s, e).jobs| && Step(s, e).jobs[i].status == Review ensures !Step(s, e).jobs[i].refunded {
      if i < |s.jobs| { JobStays(s, e, i); } else { NewJobIsClean(s, e); }
    }
    forall n: nat | n < |Step(s, e).attempts| ensures AttemptOk(Step(s, e), n) { AttemptStays(s, e, n); }
  }

  lemma NewJobIsClean(s: State, e: Event)
    requires |Step(s, e).jobs| > |s.jobs|
    ensures |Step(s, e).jobs| == |s.jobs| + 1 && !Step(s, e).jobs[|s.jobs|].refunded
  {
    hide Find, Recorded, RefundQuota, RefundBudget;
  }

  lemma AttemptStays(s: State, e: Event, n: nat)
    requires Shaped(s) && n < |Step(s, e).attempts|
    ensures AttemptOk(Step(s, e), n)
  {
    hide Find, Recorded, RefundQuota, RefundBudget, TokensUnique, Step;
    AttemptsStay(s, e);
    if n < |s.attempts| {
      assert AttemptOk(s, n);
      JobStays(s, e, s.attempts[n].job);
    } else {
      FreshAttemptOk(s, e);
    }
  }

  lemma AttemptsStay(s: State, e: Event)
    ensures var t := Step(s, e);
      && |s.attempts| <= |t.attempts| <= |s.attempts| + 1
      && (forall n: nat :: n < |s.attempts| ==> t.attempts[n].job == s.attempts[n].job && t.attempts[n].held == s.attempts[n].held)
      && (forall n: nat :: n < |s.attempts| && t.attempts[n].open ==> s.attempts[n].open)
      && (|t.attempts| > |s.attempts| ==> e.Claims?)
  {
    hide Find, Recorded, RefundQuota, RefundBudget;
  }

  lemma FreshAttemptOk(s: State, e: Event)
    requires |Step(s, e).attempts| > |s.attempts|
    ensures e.Claims? && |Step(s, e).attempts| == |s.attempts| + 1 && AttemptOk(Step(s, e), |s.attempts|)
    ensures var i := Find(s.jobs, e.token); i < |s.jobs| && s.jobs[i].status == Queued && Step(s, e).attempts[|s.attempts|].job == i
  {
    hide Find, Recorded, RefundQuota, RefundBudget;
    AttemptsStay(s, e);
  }

  // ---- the counters after every step ------------------------------------------------------------

  lemma PurgeCounts(s: State, day: int)
    requires Counted(s)
    ensures Counted(Purge(s, day))
    ensures forall k :: Recorded(Purge(s, day), k) == if k.Person? && k.day < day - 1 then 0 else Recorded(s, k)
  {
    hide Tally, Forget;
    var p := Purge(s, day);
    forall k ensures Recorded(p, k) == Tally(p.jobs, k) { TallyForget(s.jobs, p.jobs, day, k); }
  }

  lemma SubmitCounts(s: State, a: Request)
    requires Counted(s)
    ensures Counted(Submit(s, a).0)
  {
    hide Tally, Purge;
    var p := Purge(s, a.day);
    PurgeCounts(s, a.day);
    var (t, answer) := Submit(s, a);
    if answer.Accepted? {
      forall k ensures Recorded(t, k) == Tally(t.jobs, k) { TallyPush(p.jobs, NewJob(a), k); }
    }
  }

  lemma SubmitAdminCounts(s: State, token: string)
    requires Counted(s)
    ensures Counted(SubmitAdmin(s, token))
  {
    hide Tally;
    var t := SubmitAdmin(s, token);
    if t != s {
      forall k ensures Recorded(t, k) == Tally(t.jobs, k) { TallyPush(s.jobs, Job(token, None, None, Queued, false), k); }
    }
  }

  /** A job that keeps its charges when it moves leaves every counter right. */
  lemma MoveCounts(s: State, i: nat, to: Status, attempts: seq<Attempt>)
    requires Counted(s) && i < |s.jobs| && s.jobs[i].status != Rejected && to != Rejected
    ensures Counted(s.(jobs := s.jobs[i := s.jobs[i].(status := to)], attempts := attempts))
  {
    hide Tally;
    var j := s.jobs[i].(status := to);
    var t := s.(jobs := s.jobs[i := j], attempts := attempts);
    forall k ensures Recorded(t, k) == Tally(t.jobs, k) {
      assert Recorded(t, k) == Recorded(s, k);
      TallySet(s.jobs, i, j, k);
    }
  }

  /** A refund is never lost to its guard: the rows a job in review was charged to are above zero. */
  lemma RefundIsDue(s: State, token: string)
    requires Valid(s) && InReview(s, token)
    ensures var j := s.jobs[Find(s.jobs, token)];
      && (j.day.Some? ==> j.day.value in s.budget && s.budget[j.day.value] > 0)
      && (j.day.Some? && j.identity.Some? ==>
          (j.day.value, j.identity.value) in s.quota && s.quota[(j.day.value, j.identity.value)] > 0)
  {
    hide Tally, Find, TokensUnique, AttemptOk;
    var i := Find(s.jobs, token);
    var j := s.jobs[i];
    if j.day.Some? {
      ChargedIsCounted(s.jobs, i, Site(j.day.value));
      assert Recorded(s, Site(j.day.value)) >= 1;
      if j.identity.Some? {
        ChargedIsCounted(s.jobs, i, Person(j.day.value, j.identity.value));
        assert Recorded(s, Person(j.day.value, j.identity.value)) >= 1;
      }
    }
  }

  /** A rejection gives back exactly what the job was charged, to its identity and to the site. */
  lemma RejectRefunds(s: State, token: string, k: Key)
    requires Valid(s) && InReview(s, token)
    ensures Recorded(Reject(s, token), k)
            == Recorded(s, k) - if Charged(s.jobs[Find(s.jobs, token)], k) then 1 else 0
  {
    hide Tally, Find, Counted, TokensUnique, AttemptOk;
    RefundIsDue(s, token);
  }

  lemma RejectCounts(s: State, token: string)
    requires Valid(s)
    ensures Counted(Reject(s, token))
  {
    hide Tally, Find, Shaped;
    if InReview(s, token) {
      var i := Find(s.jobs, token);
      var t := Reject(s, token);
      forall k ensures Recorded(t, k) == Tally(t.jobs, k) {
        hide Reject;
        RejectRefunds(s, token, k);
        RejectJobs(s, token);
        TallySet(s.jobs, i, s.jobs[i].(status := Rejected), k);
      }
    }
  }

  lemma RejectJobs(s: State, token: string)
    requires InReview(s, token)
    ensures var i := Find(s.jobs, token); Reject(s, token).jobs == s.jobs[i := s.jobs[i].(status := Rejected)]
  {
  }

  /** The row a worker's refund takes from. */
  function HeldKey(s: State, n: nat): Key
    requires Running(s, n) && s.attempts[n].held.Some?
  {
    Person(s.attempts[n].held.value.0, s.attempts[n].held.value.1)
  }

  /** A worker that gives up takes one off its job's row if that is above zero; the site's budget stays. */
  lemma GiveUpRecords(s: State, n: nat, refund: bool, k: Key)
    requires Shaped(s) && Counted(s)
    ensures Recorded(GiveUp(s, n, refund), k) ==
      Recorded(s, k) - if GivesBack(s, n, refund) && k == HeldKey(s, n) && Recorded(s, k) > 0 then 1 else 0
  {
    hide Tally, Counted, Shaped;
  }

  lemma GiveUpTallies(s: State, n: nat, refund: bool, k: Key)
    requires Shaped(s)
    ensures Tally(GiveUp(s, n, refund).jobs, k) ==
      Tally(s.jobs, k) - if GivesBack(s, n, refund) && k == HeldKey(s, n) && Charged(s.jobs[s.attempts[n].job], k) then 1 else 0
  {
    hide Tally, TokensUnique;
    if Running(s, n) {
      assert AttemptOk(s, n);
      var i := s.attempts[n].job;
      TallySet(s.jobs, i, GiveUp(s, n, refund).jobs[i], k);
    }
  }

  /** The counters survive a worker's refund exactly when its job's charge is still in the row, or the row is gone or
      at zero. */
  lemma GiveUpCountsIff(s: State, n: nat, refund: bool)
    requires Valid(s)
    ensures Counted(GiveUp(s, n, refund))
      <==> (GivesBack(s, n, refund) ==> Charged(s.jobs[s.attempts[n].job], HeldKey(s, n)) || Recorded(s, HeldKey(s, n)) == 0)
  {
    hide Tally, TokensUnique, Charged, GiveUp, AttemptOk, Recorded;
    var t := GiveUp(s, n, refund);
    forall k ensures Recorded(t, k) == Tally(t.jobs, k) <==>
      !(GivesBack(s, n, refund) && k == HeldKey(s, n)) || Charged(s.jobs[s.attempts[n].job], k) || Recorded(s, k) == 0
    {
      GiveUpRecords(s, n, refund, k);
      GiveUpTallies(s, n, refund, k);
      assert Recorded(s, k) == Tally(s.jobs, k);
      if GivesBack(s, n, refund) && Charged(s.jobs[s.attempts[n].job], k) { ChargedIsCounted(s.jobs, s.attempts[n].job, k); }
    }
  }

  // ---- orderly runs -----------------------------------------------------------------------------

  /** Two things the counters rely on: a stale job is queued again only when its worker is gone, and no request comes
      more than a day behind one already accepted. */
  ghost predicate Orderly(s: State, e: Event) {
    && (e.Requeues? ==> forall n: nat :: Running(s, n) ==> s.jobs[s.attempts[n].job].token != e.token)
    && (e.Submitted? ==> forall i :: 0 <= i < |s.jobs| && s.jobs[i].day.Some? ==> e.a.day >= s.jobs[i].day.value - 1)
  }

  ghost predicate OrderlyRun(s: State, es: seq<Event>)
    decreases |es|
  {
    es == [] || (Orderly(s, es[0]) && OrderlyRun(Step(s, es[0]), es[1..]))
  }

  /** Some job is at least two days later. */
  ghost predicate Outdated(jobs: seq<Job>, day: int) {
    exists i :: 0 <= i < |jobs| && jobs[i].day.Some? && jobs[i].day.value >= day + 2
  }

  /** A run that goes on: its job is in work and not refunded, and if its identity was purged, the row is gone for good. */
  ghost predicate RunOk(s: State, n: nat)
    requires n < |s.attempts| && s.attempts[n].job < |s.jobs|
  {
    var j := s.jobs[s.attempts[n].job];
    && (j.status == Planning || j.status == Building) && !j.refunded
    && (s.attempts[n].held.Some? && j.identity.None? ==>
        s.attempts[n].held.value !in s.quota && Outdated(s.jobs, s.attempts[n].held.value.0))
  }

  /** What orderly steps keep: one run per job. */
  ghost predicate Single(s: State) {
    && (forall m: nat, n: nat :: m < n < |s.attempts| && s.attempts[m].open && s.attempts[n].open ==> s.attempts[m].job != s.attempts[n].job)
    && (forall n: nat :: Running(s, n) ==> RunOk(s, n))
    && (forall i :: 0 <= i < |s.jobs| && s.jobs[i].refunded ==> s.jobs[i].status == Failed)
  }

  lemma OutdatedStays(s: State, e: Event, day: int)
    requires Shaped(s) && Outdated(s.jobs, day)
    ensures Outdated(Step(s, e).jobs, day)
  {
    hide Step, Shaped;
    var i :| 0 <= i < |s.jobs| && s.jobs[i].day.Some? && s.jobs[i].day.value >= day + 2;
    JobStays(s, e, i);
    assert Step(s, e).jobs[i].day.value >= day + 2;
  }

  /** A purged row does not come back. */
  lemma SubmitKeepsRun(s: State, a: Request, n: nat)
    requires Shaped(s) && Single(s) && Orderly(s, Submitted(a)) && Running(s, n)
    ensures Running(Step(s, Submitted(a)), n) && RunOk(Step(s, Submitted(a)), n)
  {
    hide Find, Recorded, TokensUnique, Outdated;
    var t := Step(s, Submitted(a));
    var i := s.attempts[n].job;
    assert AttemptOk(s, n) && RunOk(s, n);
    if t != s && s.attempts[n].held.Some? && t.jobs[i].identity.None? {
      var d := s.attempts[n].held.value.0;
      if s.jobs[i].identity.None? {
        OutdatedStays(s, Submitted(a), d);
        OutdatedIsPast(s, a, d);
      } else {
        assert t.jobs[|t.jobs| - 1].day == Some(a.day) && a.day >= d + 2;
        OutdatedBy(t.jobs, |t.jobs| - 1, d);
      }
    }
  }

  lemma OutdatedBy(jobs: seq<Job>, i: nat, day: int)
    requires i < |jobs| && jobs[i].day.Some? && jobs[i].day.value >= day + 2
    ensures Outdated(jobs, day)
  {
  }

  lemma OutdatedIsPast(s: State, a: Request, day: int)
    requires Orderly(s, Submitted(a)) && Outdated(s.jobs, day)
    ensures a.day > day
  {
  }

  /** Every other step leaves the job of a run in work, and takes no row away. */
  lemma StepKeepsRun(s: State, e: Event, n: nat)
    requires Shaped(s) && Single(s) && Orderly(s, e) && n < |s.attempts| && Running(Step(s, e), n)
    ensures RunOk(Step(s, e), n)
  {
    hide Outdated, TokensUnique, Step;
    AttemptsStay(s, e);
    assert AttemptOk(s, n) && Running(s, n) && RunOk(s, n);
    if e.Submitted? {
      SubmitKeepsRun(s, e.a, n);
    } else {
      OtherJobStays(s, e, n);
      RowsStay(s, e);
      if Outdated(s.jobs, if s.attempts[n].held.Some? then s.attempts[n].held.value.0 else 0) {
        OutdatedStays(s, e, if s.attempts[n].held.Some? then s.attempts[n].held.value.0 else 0);
      }
    }
  }

  lemma RowsStay(s: State, e: Event)
    requires !e.Submitted?
    ensures Step(s, e).quota.Keys == s.quota.Keys
  {
    hide Find;
  }

  lemma OtherJobStays(s: State, e: Event, n: nat)
    requires Shaped(s) && Single(s) && Orderly(s, e) && !e.Submitted? && Running(s, n) && Running(Step(s, e), n)
    ensures var j, j' := s.jobs[s.attempts[n].job], Step(s, e).jobs[s.attempts[n].job];
      (j'.status == Planning || j'.status == Building) && !j'.refunded && j'.identity == j.identity
  {
    hide Outdated, TokensUnique, RefundQuota, RefundBudget, Find;
    assert AttemptOk(s, n) && RunOk(s, n);
  }

  lemma RefundedStays(s: State, e: Event, i: nat)
    requires Shaped(s) && Single(s) && Orderly(s, e) && i < |Step(s, e).jobs| && Step(s, e).jobs[i].refunded
    ensures Step(s, e).jobs[i].status == Failed
  {
    hide Outdated, TokensUnique, RefundQuota, RefundBudget, Find, Recorded, AttemptOk;
    if i < |s.jobs| {
      if e.Advances? && Running(s, e.attempt) { assert RunOk(s, e.attempt); }
    } else {
      NewJobIsClean(s, e);
    }
  }

  lemma RunsStayApart(s: State, e: Event, m: nat, n: nat)
    requires Shaped(s) && Single(s) && Orderly(s, e) && m < n < |Step(s, e).attempts|
    requires Step(s, e).attempts[m].open && Step(s, e).attempts[n].open
    ensures Step(s, e).attempts[m].job != Step(s, e).attempts[n].job
  {
    hide Step, Outdated, TokensUnique;
    AttemptsStay(s, e);
    assert AttemptOk(s, m) && Running(s, m) && RunOk(s, m);
    if n >= |s.attempts| { FreshAttemptOk(s, e); }
  }

  lemma FreshRunOk(s: State, e: Event)
    requires Shaped(s) && Single(s) && |Step(s, e).attempts| > |s.attempts|
    ensures AttemptOk(Step(s, e), |s.attempts|) && RunOk(Step(s, e), |s.attempts|)
  {
    hide Outdated, TokensUnique, Find;
    FreshAttemptOk(s, e);
  }

  lemma StepKeepsSingle(s: State, e: Event)
    requires Shaped(s) && Single(s) && Orderly(s, e)
    ensures Single(Step(s, e))
  {
    hide Step, Shaped, Orderly, RunOk;
    var t := Step(s, e);
    AttemptsStay(s, e);
    forall m: nat, n: nat | m < n < |t.attempts| && t.attempts[m].open && t.attempts[n].open
      ensures t.attempts[m].job != t.attempts[n].job
    {
      RunsStayApart(s, e, m, n);
    }
    forall n: nat | Running(t, n) ensures RunOk(t, n) {
      if n < |s.attempts| { StepKeepsRun(s, e, n); } else { FreshRunOk(s, e); }
    }
    forall i | 0 <= i < |t.jobs| && t.jobs[i].refunded ensures t.jobs[i].status == Failed { RefundedStays(s, e, i); }
  }

  /** In an orderly run a worker's refund always meets its own job's charge, or no row at all. */
  lemma GiveUpIsDue(s: State, n: nat, refund: bool)
    requires Valid(s) && Single(s) && GivesBack(s, n, refund)
    ensures Charged(s.jobs[s.attempts[n].job], HeldKey(s, n)) || Recorded(s, HeldKey(s, n)) == 0
  {
    hide Counted, TokensUnique, Outdated;
    assert AttemptOk(s, n) && RunOk(s, n);
  }

  /** The step of every event but a worker's refund leaves the counters right, orderly or not. */
  lemma StepCounts(s: State, e: Event)
    requires Valid(s) && (e.GivesUp? ==> !GivesBack(s, e.attempt, e.refund))
    ensures Counted(Step(s, e))
  {
    hide Find, Submit, SubmitAdmin, Reject, Counted, TokensUnique, GivesBack;
    match e
    case Submitted(a) => SubmitCounts(s, a);
    case AdminSubmitted(t) => SubmitAdminCounts(s, t);
    case Approved(t) => if InReview(s, t) { MoveCounts(s, Find(s.jobs, t), Queued, s.attempts); }
    case Refused(t) => RejectCounts(s, t);
    case Claims(t) =>
      if ClaimJob(s, t) != s { MoveCounts(s, Find(s.jobs, t), Planning, s.attempts + [Attempt(Find(s.jobs, t), Held(s.jobs[Find(s.jobs, t)]), true)]); }
    case Requeues(t) => if Requeue(s, t) != s { MoveCounts(s, Find(s.jobs, t), Queued, s.attempts); }
    case Advances(n, to) => AdvanceCounts(s, n, to);
    case GivesUp(n, refund) => GiveUpCountsIff(s, n, refund);
    case Dies(n) => DieCounts(s, n);
    case GoesLive(t) => if GoLive(s, t) != s { MoveCounts(s, Find(s.jobs, t), Published, s.attempts); }
  }

  lemma AdvanceCounts(s: State, n: nat, to: Status)
    requires Valid(s)
    ensures Counted(Advance(s, n, to))
  {
    hide Counted, TokensUnique;
    if Advance(s, n, to) != s {
      assert AttemptOk(s, n);
      MoveCounts(s, s.attempts[n].job, to, Advance(s, n, to).attempts);
    }
  }

  lemma DieCounts(s: State, n: nat)
    requires Valid(s)
    ensures Counted(Die(s, n))
  {
    hide Tally;
    var t := Die(s, n);
    forall k ensures Recorded(t, k) == Tally(t.jobs, k) { assert Recorded(t, k) == Recorded(s, k); }
  }

  /** A refund meets its own job's charge, or no row above zero. */
  predicate Due(s: State, e: Event) {
    e.GivesUp? && GivesBack(s, e.attempt, e.refund) ==>
      Charged(s.jobs[s.attempts[e.attempt].job], HeldKey(s, e.attempt)) || Recorded(s, HeldKey(s, e.attempt)) == 0
  }

  ghost predicate DueRun(s: State, es: seq<Event>)
    decreases |es|
  {
    es == [] || (Due(s, es[0]) && DueRun(Step(s, es[0]), es[1..]))
  }

  /** The counters are right after every event. */
  ghost predicate AlwaysCounted(s: State, es: seq<Event>)
    decreases |es|
  {
    es == [] || (Counted(Step(s, es[0])) && AlwaysCounted(Step(s, es[0]), es[1..]))
  }

  lemma StepCountsIff(s: State, e: Event)
    requires Valid(s)
    ensures Counted(Step(s, e)) <==> Due(s, e)
  {
    hide Shaped, Counted, Step, GivesBack, HeldKey, Charged, Recorded;
    if e.GivesUp? && GivesBack(s, e.attempt, e.refund) {
      GiveUpCountsIff(s, e.attempt, e.refund);
      StepGivesUp(s, e.attempt, e.refund);
    } else {
      StepCounts(s, e);
    }
  }

  /** Over any run of requests, reviews and workers, the counters are right after every event exactly when every refund
      is due. */
  lemma {:induction false} AlwaysCountedIff(s: State, es: seq<Event>)
    requires Valid(s)
    ensures AlwaysCounted(s, es) <==> DueRun(s, es)
    decreases |es|
  {
    hide Shaped, Counted, Step, Due;
    if es != [] {
      StepCountsIff(s, es[0]);
      if Due(s, es[0]) {
        StepKeepsShape(s, es[0]);
        AlwaysCountedIff(Step(s, es[0]), es[1..]);
      }
    }
  }

  lemma StepGivesUp(s: State, n: nat, refund: bool)
    ensures Step(s, GivesUp(n, refund)) == GiveUp(s, n, refund)
  {
  }

  lemma StepKeepsValid(s: State, e: Event)
    requires Valid(s) && Single(s) && Orderly(s, e)
    ensures Valid(Step(s, e)) && Single(Step(s, e))
  {
    hide Shaped, Counted, Single, Step, Orderly, GivesBack, HeldKey, Charged, Recorded;
    StepKeepsShape(s, e);
    StepKeepsSingle(s, e);
    StepCountsIff(s, e);
    if e.GivesUp? && GivesBack(s, e.attempt, e.refund) { GiveUpIsDue(s, e.attempt, e.refund); }
  }

  /** Over every orderly run of requests, reviews and workers: each day's budget is its number of unrejected jobs, each
      remaining quota row the number of its identity's jobs that day that were neither rejected nor refunded. */
  lemma {:induction false} RunKeepsValid(s: State, es: seq<Event>)
    requires Valid(s) && Single(s) && OrderlyRun(s, es)
    ensures Valid(Run(s, es)) && Single(Run(s, es))
    decreases |es|
  {
    hide Valid, Single, Step, Orderly;
    if es != [] {
      StepKeepsValid(s, es[0]);
      RunKeepsValid(Step(s, es[0]), es[1..]);
    }
  }

  lemma EmptyIsValid()
    ensures Valid(EMPTY) && Single(EMPTY)
  {
  }

  /** The same, spelled out for every orderly run from empty tables. */
  lemma CountersAreRight(es: seq<Event>)
    requires OrderlyRun(EMPTY, es)
    ensures var t := Run(EMPTY, es);
      && (forall d :: d in t.budget ==> t.budget[d] == Tally(t.jobs, Site(d)))
      && (forall k :: k in t.quota ==> t.quota[k] == Tally(t.jobs, Person(k.0, k.1)))
  {
    hide Run, Tally, Shaped, Single, OrderlyRun;
    EmptyIsValid();
    RunKeepsValid(EMPTY, es);
    var t := Run(EMPTY, es);
    forall d | d in t.budget ensures t.budget[d] == Tally(t.jobs, Site(d)) { assert Recorded(t, Site(d)) == t.budget[d]; }
    forall k | k in t.quota ensures t.quota[k] == Tally(t.jobs, Person(k.0, k.1)) {
      assert k == (k.0, k.1) && Recorded(t, Person(k.0, k.1)) == t.quota[k];
    }
  }

  // ---- disorderly runs --------------------------------------------------------------------------

  /** Two requests of one visitor; the first is queued again while its worker still runs, and both workers fail it. */
  function TwoWorkers(): seq<Event> {
    var a := Request("p", 0, "a", false, 5, 5);
    [Submitted(a), Submitted(a.(token := "b")), Claims("a"), Requeues("a"), Claims("a"), GivesUp(0, true), GivesUp(1, true)]
  }

  function Requested(token: string, status: Status, refunded: bool): Job { Job(token, Some(0), Some("p"), status, refunded) }

  /** Both workers hold the visitor's row. */
  function BothRunning(): State {
    var held := Some((0, "p"));
    State(map[(0, "p") := 2], map[0 := 2], [Requested("a", Planning, false), Requested("b", Queued, false)],
          [Attempt(0, held, true), Attempt(0, held, true)])
  }

  lemma TwoAreRequested()
    ensures var s := Step(Step(EMPTY, TwoWorkers()[0]), TwoWorkers()[1]);
      s == State(map[(0, "p") := 2], map[0 := 2], [Requested("a", Queued, false), Requested("b", Queued, false)], [])
  {
    var s := Step(EMPTY, TwoWorkers()[0]);
    assert s == State(map[(0, "p") := 1], map[0 := 1], [Requested("a", Queued, false)], []);
    var t := Step(s, TwoWorkers()[1]);
    assert t.quota == map[(0, "p") := 2] && t.budget == map[0 := 2];
  }

  lemma TwoWorkersStart(s: State)
    requires s == State(map[(0, "p") := 2], map[0 := 2], [Requested("a", Queued, false), Requested("b", Queued, false)], [])
    ensures Step(Step(Step(s, Claims("a")), Requeues("a")), Claims("a")) == BothRunning()
  {
    assert Find(s.jobs, "a") == 0;
    var s1 := Step(s, Claims("a"));
    assert s1.jobs == [Requested("a", Planning, false), Requested("b", Queued, false)] && s1.attempts == [Attempt(0, Some((0, "p")), true)];
    assert Find(s1.jobs, "a") == 0;
    assert Step(s1, Requeues("a")).jobs == s.jobs;
  }

  lemma TwoWorkersFail()
    ensures var t := Step(Step(BothRunning(), GivesUp(0, true)), GivesUp(1, true));
      t.quota == map[(0, "p") := 0] && t.jobs == [Requested("a", Failed, true), Requested("b", Queued, false)]
  {
    var s1 := Step(BothRunning(), GivesUp(0, true));
    assert s1.quota == map[(0, "p") := 1] && s1.jobs == [Requested("a", Failed, true), Requested("b", Queued, false)];
  }

  /** The second refund is not due: the visitor's row is at zero while the other request still counts. */
  lemma StaleWorkerRefundsTwice()
    ensures var t := Run(EMPTY, TwoWorkers());
      Recorded(t, Person(0, "p")) == 0 && Tally(t.jobs, Person(0, "p")) == 1
  {
    hide Tally, Run, Step;
    var es := TwoWorkers();
    TwoAreRequested();
    var s1 := Step(EMPTY, es[0]);
    var s2 := Step(s1, es[1]);
    TwoWorkersStart(s2);
    var s3 := Step(s2, es[2]);
    var s4 := Step(s3, es[3]);
    var s5 := Step(s4, es[4]);
    TwoWorkersFail();
    var s6 := Step(s5, es[5]);
    var s7 := Step(s6, es[6]);
    RunSteps(es, [EMPTY, s1, s2, s3, s4, s5, s6, s7]);
    TallyOfTwo(s7.jobs, Person(0, "p"));
  }

  lemma {:induction false} RunSteps(es: seq<Event>, states: seq<State>)
    requires |states| == |es| + 1 && forall i :: 0 <= i < |es| ==> states[i + 1] == Step(states[i], es[i])
    ensures Run(states[0], es) == states[|es|]
  {
    hide Step;
    if es != [] {
      assert states[1] == Step(states[0], es[0]);
      forall i | 0 <= i < |es| - 1 ensures states[1..][i + 1] == Step(states[1..][i], es[1..][i]) { assert states[i + 1 + 1] == Step(states[i + 1], es[i + 1]); }
      RunSteps(es[1..], states[1..]);
    }
  }

  lemma TallyOfTwo(jobs: seq<Job>, k: Key)
    requires |jobs| == 2
    ensures Tally(jobs, k) == (if Charged(jobs[0], k) then 1 else 0) + (if Charged(jobs[1], k) then 1 else 0)
  {
    assert jobs[..1][..0] == [] && jobs[..1][0] == jobs[0];
    assert Tally(jobs[..1], k) == if Charged(jobs[0], k) then 1 else 0;
  }

  // ---- limits -----------------------------------------------------------------------------------

  ghost predicate Within(s: State, perIdentity: int, site: int) {
    && (forall k :: k in s.quota ==> s.quota[k] <= perIdentity)
    && (forall d :: d in s.budget ==> s.budget[d] <= site)
  }

  predicate UsesLimits(e: Event, perIdentity: int, site: int) {
    e.Submitted? ==> e.a.perIdentity == perIdentity && e.a.site == site
  }

  lemma StepKeepsLimits(s: State, e: Event, perIdentity: int, site: int)
    requires Within(s, perIdentity, site) && UsesLimits(e, perIdentity, site) && perIdentity >= 1 && site >= 1
    ensures Within(Step(s, e), perIdentity, site)
  {
    hide Find;
  }

  lemma {:induction false} RunKeepsLimits(s: State, es: seq<Event>, perIdentity: int, site: int)
    requires Within(s, perIdentity, site) && perIdentity >= 1 && site >= 1
    requires forall i :: 0 <= i < |es| ==> UsesLimits(es[i], perIdentity, site)
    ensures Within(Run(s, es), perIdentity, site)
    decreases |es|
  {
    hide Within, Step;
    if es != [] {
      StepKeepsLimits(s, es[0], perIdentity, site);
      RunKeepsLimits(Step(s, es[0]), es[1..], perIdentity, site);
    }
  }

  /** The first insert of a row is not guarded, so the limits hold over every run exactly when both are at
      least one. */
  lemma LimitsHoldIff(perIdentity: int, site: int)
    ensures (forall es: seq<Event> :: (forall i :: 0 <= i < |es| ==> UsesLimits(es[i], perIdentity, site))
              ==> Within(Run(EMPTY, es), perIdentity, site))
            <==> perIdentity >= 1 && site >= 1
  {
    if perIdentity >= 1 && site >= 1 {
      forall es: seq<Event> | forall i :: 0 <= i < |es| ==> UsesLimits(es[i], perIdentity, site)
        ensures Within(Run(EMPTY, es), perIdentity, site)
      {
        RunKeepsLimits(EMPTY, es, perIdentity, site);
      }
    } else {
      FirstIsUnguarded(perIdentity, site);
    }
  }

  /** On empty tables a request is accepted whatever the limits. */
  lemma FirstIsUnguarded(perIdentity: int, site: int)
    requires perIdentity < 1 || site < 1
    ensures var es := [Submitted(Request("", 0, "", false, perIdentity, site))];
      UsesLimits(es[0], perIdentity, site) && !Within(Run(EMPTY, es), perIdentity, site)
  {
    var e := Submitted(Request("", 0, "", false, perIdentity, site));
    var t := Step(EMPTY, e);
    assert t.quota[(0, "")] == 1 && t.budget[0] == 1;
    assert [e][1..] == [] && Run(t, []) == t && Run(EMPTY, [e]) == t;
  }

  // ---- submissions --------------------------------------------------------------------------------

  /** A submission is one unit or nothing: refused, all tables stay; accepted, exactly its own two counters
      grow by one, and a purged identity's counter is gone. */
  lemma SubmitCharges(s: State, a: Request, k: Key)
    requires Valid(s)
    ensures var (t, answer) := Submit(s, a);
      if answer.Accepted? then
        Recorded(t, k) == (if k.Person? && k.day < a.day - 1 then 0 else Recorded(s, k))
                          + (if k == Site(a.day) || k == Person(a.day, a.identity) then 1 else 0)
      else t == s
  {
    hide Shaped, Counted, Purge, Find;
    PurgeCounts(s, a.day);
  }

  /** An edited course that is turned down leaves every counter as if it had never been sent, up to the purge. */
  lemma RejectUndoesSubmit(s: State, a: Request, k: Key)
    requires Valid(s) && a.edited && Submit(s, a).1.Accepted?
    ensures Recorded(Reject(Submit(s, a).0, a.token), k)
            == if k.Person? && k.day < a.day - 1 then 0 else Recorded(s, k)
  {
    hide Shaped, Counted, Purge, Reject;
    var t := Submit(s, a).0;
    assert Step(s, Submitted(a)) == t;
    StepKeepsShape(s, Submitted(a));
    SubmitCounts(s, a);
    SubmitCharges(s, a, k);
    var i := Find(t.jobs, a.token);
    SubmitFiles(s, a);
    RejectRefunds(t, a.token, k);
  }

  lemma SubmitFiles(s: State, a: Request)
    requires Submit(s, a).1.Accepted?
    ensures var t := Submit(s, a).0;
      Find(t.jobs, a.token) == |t.jobs| - 1 && t.jobs[|t.jobs| - 1] == NewJob(a)
  {
    hide Purge, Find;
    var p := Purge(s, a.day);
    var t := Submit(s, a).0;
    var i := Find(t.jobs, a.token);
    assert t.jobs == p.jobs + [NewJob(a)];
    assert Find(p.jobs, a.token) == |p.jobs|;
    assert t.jobs[|p.jobs|].token == a.token;
    assert forall k :: 0 <= k < |p.jobs| ==> t.jobs[k] == p.jobs[k];
  }

  // ---- reviews ------------------------------------------------------------------------------------

  /** The event is an administrator's decision on `token` that takes effect. */
  predicate Resolves(s: State, e: Event, token: string) {
    (e == Approved(token) || e == Refused(token)) && InReview(s, token)
  }

  function Resolutions(s: State, es: seq<Event>, token: string): nat
    decreases |es|
  {
    if es == [] then 0 else (if Resolves(s, es[0], token) then 1 else 0) + Resolutions(Step(s, es[0]), es[1..], token)
  }

  /** `token` has a job that is not waiting for review. */
  ghost predicate Settled(s: State, token: string) {
    exists i :: 0 <= i < |s.jobs| && s.jobs[i].token == token && s.jobs[i].status != Review
  }

  lemma SettledIsNotInReview(s: State, token: string)
    requires TokensUnique(s.jobs) && Settled(s, token)
    ensures !InReview(s, token)
  {
  }

  /** No step changes a token or puts a job back into review. */
  lemma StepKeepsSettled(s: State, e: Event, token: string)
    requires Settled(s, token)
    ensures Settled(Step(s, e), token)
  {
    hide Find, Recorded;
    var i :| 0 <= i < |s.jobs| && s.jobs[i].token == token && s.jobs[i].status != Review;
    var t := Step(s, e);
    assert i < |t.jobs| && t.jobs[i].token == token && t.jobs[i].status != Review;
  }

  lemma ResolvedIsSettled(s: State, e: Event, token: string)
    requires Resolves(s, e, token)
    ensures Settled(Step(s, e), token)
  {
    hide Find;
    var i := Find(s.jobs, token);
    var t := Step(s, e);
    assert i < |t.jobs| && t.jobs[i].token == token && t.jobs[i].status != Review;
  }

  lemma {:induction false} SettledIsNeverResolved(s: State, es: seq<Event>, token: string)
    requires TokensUnique(s.jobs) && Settled(s, token)
    ensures Resolutions(s, es, token) == 0
    decreases |es|
  {
    hide Settled, Step, InReview, TokensUnique;
    if es != [] {
      SettledIsNotInReview(s, token);
      StepKeepsSettled(s, es[0], token);
      StepKeepsTokens(s, es[0]);
      SettledIsNeverResolved(Step(s, es[0]), es[1..], token);
    }
  }

  /** However many administrators decide, at most one decision per course takes effect. */
  lemma {:induction false} ReviewResolvesOnce(s: State, es: seq<Event>, token: string)
    requires TokensUnique(s.jobs)
    ensures Resolutions(s, es, token) <= 1
    decreases |es|
  {
    hide Settled, Step, TokensUnique, Resolves;
    if es != [] {
      StepKeepsTokens(s, es[0]);
      if Resolves(s, es[0], token) {
        ResolvedIsSettled(s, es[0], token);
        SettledIsNeverResolved(Step(s, es[0]), es[1..], token);
      } else {
        ReviewResolvesOnce(Step(s, es[0]), es[1..], token);
      }
    }
  }

  // ---- what becomes of a job ----------------------------------------------------------------------

  /** A worker is or was on the job. */
  ghost predicate Started(s: State, i: nat) { exists n: nat :: n < |s.attempts| && s.attempts[n].job == i }

  /** The job still waits for its review, or was turned down in it. */
  predicate Unreleased(s: State, i: nat) { i < |s.jobs| && s.jobs[i].status in {Review, Rejected} }

  lemma UnreleasedIsNotStarted(s: State, i: nat)
    requires Shaped(s) && Unreleased(s, i)
    ensures !Started(s, i)
  {
    hide TokensUnique;
    forall n: nat | n < |s.attempts| ensures s.attempts[n].job != i { assert AttemptOk(s, n); }
  }

  lemma FindIs(s: State, i: nat)
    requires TokensUnique(s.jobs) && i < |s.jobs|
    ensures Find(s.jobs, s.jobs[i].token) == i
  {
  }

  lemma StepReleases(s: State, e: Event, i: nat)
    requires Shaped(s) && Unreleased(s, i)
    ensures Unreleased(Step(s, e), i) || (e == Approved(s.jobs[i].token) && s.jobs[i].status == Review)
    ensures s.jobs[i].status == Rejected ==> Unreleased(Step(s, e), i) && Step(s, e).jobs[i].status == Rejected
    ensures i < |Step(s, e).jobs| && Step(s, e).jobs[i].token == s.jobs[i].token
  {
    hide Find, Recorded, RefundQuota, RefundBudget;
    FindIs(s, i);
    TokenStays(s, e, i);
    if (e.Advances? || e.GivesUp?) && Running(s, e.attempt) { assert AttemptOk(s, e.attempt); }
  }

  /** An edited course is not worked on before an administrator has approved it, over any run; one that was turned
      down never is. */
  lemma {:induction false} ReviewComesFirst(s: State, es: seq<Event>, i: nat)
    requires Shaped(s) && Unreleased(s, i)
    requires s.jobs[i].status == Rejected || Approved(s.jobs[i].token) !in es
    ensures var t := Run(s, es); Shaped(t) && Unreleased(t, i) && !Started(t, i)
    decreases |es|
  {
    hide Shaped, Step, Started;
    if es == [] {
      UnreleasedIsNotStarted(s, i);
    } else {
      assert forall e :: e in es[1..] ==> e in es;
      StepReleases(s, es[0], i);
      StepKeepsShape(s, es[0]);
      ReviewComesFirst(Step(s, es[0]), es[1..], i);
    }
  }

  lemma RunTwo(s: State, a: Event, b: Event)
    ensures Run(s, [a, b]) == Step(Step(s, a), b)
  {
    hide Step;
    assert [a, b][1..] == [b] && [b][1..] == [];
    assert Run(Step(s, a), [b]) == Run(Step(Step(s, a), b), []);
  }

  /** An approved course can be claimed at once, and so can a described one that was never edited. */
  lemma ApprovedIsClaimed(s: State, token: string)
    requires InReview(s, token)
    ensures var t, i := Run(s, [Approved(token), Claims(token)]), Find(s.jobs, token);
      Running(t, |s.attempts|) && t.attempts[|s.attempts|].job == i && t.jobs[i].status == Planning
  {
    hide Find;
    RunTwo(s, Approved(token), Claims(token));
    var t := Step(s, Approved(token));
    SameTokens(s.jobs, t.jobs, token);
  }

  lemma {:induction false} SameTokens(a: seq<Job>, b: seq<Job>, token: string)
    requires |a| == |b| && forall i :: 0 <= i < |a| ==> a[i].token == b[i].token
    ensures Find(a, token) == Find(b, token)
  {
    if a != [] { SameTokens(a[1..], b[1..], token); }
  }

  /** From approval to the servers: a worker that builds and publishes the course, and the map's first sighting. */
  lemma CourseGoesLive(s: State, token: string)
    requires InReview(s, token)
    ensures var n, i := |s.attempts|, Find(s.jobs, token);
      var es := [Claims(token), Advances(n, Building), Advances(n, Publishing), GoesLive(token)];
      var t := Run(Step(s, Approved(token)), es);
      t.jobs == s.jobs[i := s.jobs[i].(status := Published)] && t.quota == s.quota && t.budget == s.budget
  {
    hide Find, Run;
    var n, i := |s.attempts|, Find(s.jobs, token);
    var s1 := Step(s, Approved(token));
    SameTokens(s.jobs, s1.jobs, token);
    var s2 := Step(s1, Claims(token));
    SameTokens(s.jobs, s2.jobs, token);
    var s3 := Step(s2, Advances(n, Building));
    var s4 := Step(s3, Advances(n, Publishing));
    SameTokens(s.jobs, s4.jobs, token);
    var s5 := Step(s4, GoesLive(token));
    RunSteps([Claims(token), Advances(n, Building), Advances(n, Publishing), GoesLive(token)], [s1, s2, s3, s4, s5]);
  }

  /** A job whose worker died while planning or building it is queued again when it is stale, and the next worker gets it,
      with the quota its requester still has on it; no counter moves. The dead worker does nothing more. */
  lemma DeadWorkersJobIsRetried(s: State, n: nat)
    requires Running(s, n) && TokensUnique(s.jobs) && s.jobs[s.attempts[n].job].status in {Planning, Building}
    ensures var i := s.attempts[n].job; var token := s.jobs[i].token;
      var t := Run(s, [Dies(n), Requeues(token), Claims(token)]);
      && Running(t, |s.attempts|) && t.attempts[|s.attempts|] == Attempt(i, Held(s.jobs[i]), true) && !Running(t, n)
      && t.jobs == s.jobs[i := s.jobs[i].(status := Planning)] && t.quota == s.quota && t.budget == s.budget
  {
    hide Find, Run;
    var i := s.attempts[n].job;
    var token := s.jobs[i].token;
    var s1 := Step(s, Dies(n));
    assert Find(s.jobs, token) == i;
    var s2 := Step(s1, Requeues(token));
    SameTokens(s.jobs, s2.jobs, token);
    var s3 := Step(s2, Claims(token));
    RunSteps([Dies(n), Requeues(token), Claims(token)], [s, s1, s2, s3]);
  }

  lemma SubmittedIsClaimed(s: State, a: Request)
    requires Submit(s, a).1.Accepted?
    ensures var t, i := Run(s, [Submitted(a), Claims(a.token)]), |s.jobs|;
      && i < |t.jobs| && t.jobs[i].token == a.token
      && if a.edited then t.jobs[i].status == Review && t.attempts == s.attempts
         else Running(t, |s.attempts|) && t.attempts[|s.attempts|] == Attempt(i, Some((a.day, a.identity)), true)
  {
    hide Find, Purge;
    RunTwo(s, Submitted(a), Claims(a.token));
    SubmitFiles(s, a);
    PurgeKeepsCount(s, a.day);
  }

  lemma PurgeKeepsCount(s: State, day: int)
    ensures |Purge(s, day).jobs| == |s.jobs| && Purge(s, day).attempts == s.attempts
  {
  }

  /** An administrator's request waits for nobody and holds nobody's quota. */
  lemma AdminIsClaimed(s: State, token: string)
    requires Find(s.jobs, token) == |s.jobs|
    ensures var t, i := Run(s, [AdminSubmitted(token), Claims(token)]), |s.jobs|;
      && i < |t.jobs| && t.jobs[i].token == token && t.quota == s.quota && t.budget == s.budget
      && Running(t, |s.attempts|) && t.attempts[|s.attempts|] == Attempt(i, None, true)
  {
    hide Find;
    RunTwo(s, AdminSubmitted(token), Claims(token));
    var t := Step(s, AdminSubmitted(token));
    assert t.jobs == s.jobs + [Job(token, None, None, Queued, false)];
    var i := Find(t.jobs, token);
    assert forall k :: 0 <= k < |s.jobs| ==> t.jobs[k].token == s.jobs[k].token;
    assert t.jobs[|s.jobs|].token == token;
  }

  /** Who is let in: a visitor whose row of the day, if there is one, is below the visitor's limit, while the day's
      row, if there is one, is below the site's, under a token that is new; the answer says how many the visitor has
      used with this one, or the first limit that was met. */
  lemma SubmitAnswers(s: State, a: Request)
    requires Valid(s)
    ensures var answer, used := Submit(s, a).1, Tally(s.jobs, Person(a.day, a.identity));
      var met := (a.day, a.identity) in s.quota && used >= a.perIdentity;
      var full := a.day in s.budget && Tally(s.jobs, Site(a.day)) >= a.site;
      var taken := exists i :: 0 <= i < |s.jobs| && s.jobs[i].token == a.token;
      answer == if met then OverIdentity else if full then OverBudget else if taken then TokenTaken else Accepted(used + 1)
  {
    hide Tally, Shaped, Find;
    var p := Purge(s, a.day);
    assert Recorded(s, Person(a.day, a.identity)) == Tally(s.jobs, Person(a.day, a.identity));
    assert Recorded(s, Site(a.day)) == Tally(s.jobs, Site(a.day));
    assert forall i :: 0 <= i < |s.jobs| ==> p.jobs[i].token == s.jobs[i].token;
  }

  /** Once a later day's request is accepted, nothing is left that says who asked more than a day before it. */
  lemma SubmitForgets(s: State, a: Request)
    requires Submit(s, a).1.Accepted?
    ensures var t := Submit(s, a).0;
      && (forall k :: k in t.quota ==> k.0 >= a.day - 1)
      && (forall i :: 0 <= i < |t.jobs| && t.jobs[i].day.Some? && t.jobs[i].identity.Some? ==> t.jobs[i].day.value >= a.day - 1)
  {
    hide Find;
  }

  // ---- the tables as the transactions update them -------------------------------------------------

  class MapgenTables {
    var quota: map<(int, string), int>
    var budget: map<int, int>
    var jobs: seq<Job>
    var attempts: seq<Attempt>

    ghost function View(): State reads this { State(quota, budget, jobs, attempts) }

    constructor ()
      ensures View() == EMPTY && Valid(View())
    {
      quota, budget, jobs, attempts := map[], map[], [], [];
    }

    /** The two housekeeping statements. */
    method PurgeStale(day: int)
      modifies this`quota, this`jobs
      ensures View() == Purge(old(View()), day)
    {
      quota := map k | k in quota && k.0 >= day - 1 :: quota[k];
      var rows := jobs;
      jobs := seq(|rows|, i requires 0 <= i < |rows| => Forget(rows[i], day));
    }

    method Rollback(to: (map<(int, string), int>, map<int, int>, seq<Job>))
      modifies this`quota, this`budget, this`jobs
      ensures View() == State(to.0, to.1, to.2, old(attempts))
    {
      quota, budget, jobs := to.0, to.1, to.2;
    }

    method SubmitMap(a: Request) returns (answer: Answer)
      modifies this
      ensures (View(), answer) == Submit(old(View()), a)
    {
      hide Find, Purge;
      var begin := (quota, budget, jobs);
      PurgeStale(a.day);
      var who := (a.day, a.identity);
      if who in quota && quota[who] >= a.perIdentity {
        Rollback(begin);
        return OverIdentity;
      }
      var used := if who in quota then quota[who] + 1 else 1;
      quota := quota[who := used];
      if a.day in budget && budget[a.day] >= a.site {
        Rollback(begin);
        return OverBudget;
      }
      budget := budget[a.day := if a.day in budget then budget[a.day] + 1 else 1];
      if Find(jobs, a.token) < |jobs| {
        Rollback(begin);
        return TokenTaken;
      }
      jobs := jobs + [Job(a.token, Some(a.day), Some(a.identity), if a.edited then Review else Queued, false)];
      answer := Accepted(used);
    }

    method SubmitByAdmin(token: string) returns (ok: bool)
      modifies this
      ensures View() == SubmitAdmin(old(View()), token)
      ensures ok <==> Find(old(jobs), token) == |old(jobs)|
    {
      ok := Find(jobs, token) == |jobs|;
      if ok { jobs := jobs + [Job(token, None, None, Queued, false)]; }
    }

    /** The reviewing UPDATE, `WHERE token = .. AND status = 'review'`: the row it moved, if any. */
    method MoveReviewed(token: string, to: Status) returns (row: Option<Job>)
      modifies this`jobs
      ensures row.Some? <==> InReview(old(View()), token)
      ensures var i := Find(old(jobs), token);
        if row.Some? then row.value == old(jobs)[i] && jobs == old(jobs)[i := row.value.(status := to)] else jobs == old(jobs)
    {
      var i := Find(jobs, token);
      if i == |jobs| || jobs[i].status != Review { return None; }
      row := Some(jobs[i]);
      jobs := jobs[i := jobs[i].(status := to)];
    }

    method ApproveMap(token: string) returns (moved: bool)
      modifies this`jobs
      ensures View() == Approve(old(View()), token)
      ensures moved <==> InReview(old(View()), token)
    {
      hide Find;
      var row := MoveReviewed(token, Queued);
      moved := row.Some?;
    }

    method RejectMap(token: string) returns (moved: bool)
      modifies this
      ensures View() == Reject(old(View()), token)
      ensures moved <==> InReview(old(View()), token)
    {
      hide Find;
      var row := MoveReviewed(token, Rejected);
      if row.None? { return false; }
      var j := row.value;
      if j.day.Some? && j.identity.Some? {
        var k := (j.day.value, j.identity.value);
        if k in quota && quota[k] > 0 { quota := quota[k := quota[k] - 1]; }
      }
      if j.day.Some? && j.day.value in budget && budget[j.day.value] > 0 {
        budget := budget[j.day.value := budget[j.day.value] - 1];
      }
      moved := true;
    }

    /** The worker's claim: the job's number, and what a refund will need. */
    method ClaimOne(token: string) returns (n: Option<nat>)
      modifies this`jobs, this`attempts
      ensures View() == ClaimJob(old(View()), token)
      ensures n.Some? ==> Running(View(), n.value) && jobs[attempts[n.value].job].token == token
    {
      var i := Find(jobs, token);
      if i == |jobs| || jobs[i].status != Queued { return None; }
      attempts := attempts + [Attempt(i, Held(jobs[i]), true)];
      jobs := jobs[i := jobs[i].(status := Planning)];
      n := Some(|attempts| - 1);
    }

    /** `fail`. */
    method Fail(n: nat, refund: bool)
      requires Running(View(), n)
      modifies this`quota, this`jobs, this`attempts
      ensures View() == GiveUp(old(View()), n, refund)
    {
      var run := attempts[n];
      jobs := jobs[run.job := jobs[run.job].(status := Failed, refunded := jobs[run.job].refunded || (refund && run.held.Some?))];
      if refund && run.held.Some? && run.held.value in quota && quota[run.held.value] > 0 {
        quota := quota[run.held.value := quota[run.held.value] - 1];
      }
      attempts := attempts[n := run.(open := false)];
    }
  }
}
