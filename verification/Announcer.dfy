/** The record announcer's poll loop over GET /api/records (discord/announcer.js, `poll` and
    `postEmbeds`; web/db.js, `recordsAfter`). A read of the API is one snapshot of the race table. */
module Announcer {
  import opened Extrema
  import opened Wrappers
  import opened Leaderboard

  /** The webhook's answer to one POST. A `Lost` POST fails at the announcer, which cannot tell whether
      Discord delivered the batch. */
  datatype Reply = Posted | RateLimited | Lost(delivered: bool)

  /** Everything the outside world decides about one poll: whether the API answers, what each POST of
      each batch gets, and which writes of the state file succeed. */
  datatype Env = Env(apiUp: bool, reply: (nat, nat) -> Reply, saved: nat -> bool)

  /** `maxRank` and `perPoll` as configured (both at least 1). */
  datatype Config = Config(maxRank: nat, perPoll: nat)

  /** The announcer: its cursor in memory, the cursor on disk, every id it delivered, and (for the
      statements only) the id its first baseline was taken at, which later ones do not move. */
  datatype State = State(lastId: Option<nat>, disk: Option<nat>, posted: seq<nat>, baseline: Option<nat>)

  const FRESH := State(None, None, [], None)

  const BATCH := 10
  const RETRIES := 5

  // ---- posting -------------------------------------------------------------------------------

  /** What becomes of one batch: retried on rate limits, at most RETRIES times. */
  function BatchReply(env: Env, batch: nat, tries: nat): Reply
    requires tries <= RETRIES
    decreases RETRIES - tries
  {
    var r := env.reply(batch, tries);
    if !r.RateLimited? then r
    else if tries == RETRIES then Lost(false)
    else BatchReply(env, batch, tries + 1)
  }

  /** The first n POSTs of a batch are answered with a rate limit. */
  ghost predicate Waits(env: Env, batch: nat, n: nat) {
    forall t: nat :: t < n ==> env.reply(batch, t) == RateLimited
  }

  /** The reply that decides a batch: the first one that is no rate limit, if it comes within the retries. */
  ghost predicate Decides(env: Env, batch: nat, r: Reply) {
    !r.RateLimited? && exists t: nat :: t <= RETRIES && Waits(env, batch, t) && env.reply(batch, t) == r
  }

  lemma {:induction false} BatchReplyFrom(env: Env, batch: nat, tries: nat) returns (t: nat)
    requires tries <= RETRIES && Waits(env, batch, tries)
    ensures var r := BatchReply(env, batch, tries);
      if t <= RETRIES then Waits(env, batch, t) && env.reply(batch, t) == r && !r.RateLimited?
      else r == Lost(false) && Waits(env, batch, RETRIES + 1)
    decreases RETRIES - tries
  {
    t := tries;
    if env.reply(batch, tries).RateLimited? {
      if tries < RETRIES { t := BatchReplyFrom(env, batch, tries + 1); } else { t := RETRIES + 1; }
    }
  }

  /** A batch is posted exactly when its deciding reply says so; it is lost exactly when that reply is a loss, or
      when all POSTs allowed met a rate limit. */
  lemma BatchReplyIs(env: Env, batch: nat)
    ensures var r := BatchReply(env, batch, 0);
      && (r == Posted <==> Decides(env, batch, Posted))
      && (forall d :: r == Lost(d) <==> Decides(env, batch, Lost(d)) || (!d && Waits(env, batch, RETRIES + 1)))
      && !r.RateLimited?
  {
    hide BatchReply;
    var t := BatchReplyFrom(env, batch, 0);
    forall u: nat, v: nat | Waits(env, batch, u) && Waits(env, batch, v) && env.reply(batch, u) != RateLimited && env.reply(batch, v) != RateLimited
      ensures u == v
    {
    }
  }

  function Save(st: State, env: Env, n: nat): State {
    if env.saved(n) then st.(disk := st.lastId) else st
  }

  /** Posts page[from..] batch by batch; the flag says that every batch was acknowledged. */
  function PostFrom(st: State, env: Env, page: seq<nat>, from: nat): (State, bool)
    requires from <= |page|
    decreases |page| - from
  {
    if from == |page| then (st, true) else
    var upto := Min(from + BATCH, |page|);
    match BatchReply(env, from / BATCH, 0)
    case Posted =>
      var moved := st.(posted := st.posted + page[from..upto], lastId := Some(page[upto - 1]));
      PostFrom(Save(moved, env, from / BATCH), env, page, upto)
    case Lost(delivered) =>
      (if delivered then st.(posted := st.posted + page[from..upto]) else st, false)
    case RateLimited => (st, false)
  }

  // ---- one poll ------------------------------------------------------------------------------

  /** Where a completed poll leaves the cursor. */
  function NextCursor(page: seq<nat>, maxId: nat, perPoll: nat): nat {
    if page == [] then maxId
    else if |page| >= perPoll then page[|page| - 1]
    else Max(maxId, page[|page| - 1])
  }

  function FirstBaseline(st: State, maxId: nat): Option<nat> {
    if st.baseline.Some? then st.baseline else Some(maxId)
  }

  function PollOn(st: State, env: Env, page: seq<nat>, maxId: nat, perPoll: nat): State {
    if !env.apiUp then st
    else if st.lastId.None? then Save(st.(lastId := Some(maxId), baseline := FirstBaseline(st, maxId)), env, 0)
    else if maxId <= st.lastId.value then st
    else
      var (after, ok) := PostFrom(st, env, page, 0);
      if !ok then after
      else Save(after.(lastId := Some(NextCursor(page, maxId, perPoll))), env, |page| + 1)
  }

  function Cursor(st: State): nat { if st.lastId.Some? then st.lastId.value else 0 }

  function Page(st: State, b: Board, cfg: Config): seq<nat> {
    RecordsAfter(b, Cursor(st), cfg.maxRank, cfg.perPoll)
  }

  function Poll(st: State, b: Board, cfg: Config, env: Env): State {
    PollOn(st, env, Page(st, b, cfg), MaxId(b), cfg.perPoll)
  }

  /** A restart (or a crash at any point between two steps of a poll) keeps only the file. */
  function Restart(st: State): State { st.(lastId := st.disk) }

  // ---- what a poll does, reply by reply -------------------------------------------------------

  /** Where batch k starts on a page of n rows. */
  function StartOf(k: nat, n: nat): nat { Min(k * BATCH, n) }

  /** The file after batches b..k were acknowledged: the end of the last one whose save worked, or as it was. */
  ghost predicate FileAfter(disk: Option<nat>, before: Option<nat>, env: Env, page: seq<nat>, b: nat, k: nat) {
    || (disk == before && forall j: nat :: b <= j < k ==> !env.saved(j))
    || (exists j: nat :: b <= j < k && SavedLast(disk, env, page, j, k))
  }

  ghost predicate SavedLast(disk: Option<nat>, env: Env, page: seq<nat>, j: nat, k: nat) {
    && env.saved(j) && (forall i: nat :: j < i < k ==> !env.saved(i))
    && 0 < StartOf(j + 1, |page|) && disk == Some(page[StartOf(j + 1, |page|) - 1])
  }

  /** Batches b..k of the page were acknowledged, and no more: posted are their rows, and those of batch k when its
      POST was delivered but reported a failure; the cursor stands at the end of batch k - 1. */
  ghost predicate PostsUpTo(st: State, after: State, env: Env, page: seq<nat>, b: nat, k: nat) {
    var from, n := StartOf(b, |page|), StartOf(k, |page|);
    && b <= k && (k > b ==> StartOf(k - 1, |page|) < |page|)
    && (forall j: nat :: b <= j < k ==> Decides(env, j, Posted))
    && (n < |page| ==> !Decides(env, k, Posted))
    && after.posted == st.posted + page[from..n] + (if Decides(env, k, Lost(true)) then page[n..StartOf(k + 1, |page|)] else [])
    && after.lastId == (if n == from then st.lastId else Some(page[n - 1]))
    && after.baseline == st.baseline
    && FileAfter(after.disk, st.disk, env, page, b, k)
  }

  lemma OneDecision(env: Env, batch: nat, r: Reply, q: Reply)
    requires Decides(env, batch, r) && Decides(env, batch, q)
    ensures r == q
  {
    var t: nat :| t <= RETRIES && Waits(env, batch, t) && env.reply(batch, t) == r;
    var u: nat :| u <= RETRIES && Waits(env, batch, u) && env.reply(batch, u) == q;
    assert t == u;
  }

  lemma PostStep(st: State, env: Env, page: seq<nat>, b: nat)
    ensures var from, next := StartOf(b, |page|), StartOf(b + 1, |page|);
      if from == |page| then PostFrom(st, env, page, from) == (st, true)
      else
        && from < next <= |page|
        && PostFrom(st, env, page, from) == match BatchReply(env, b, 0) {
             case Posted =>
               PostFrom(Save(st.(posted := st.posted + page[from..next], lastId := Some(page[next - 1])), env, b), env, page, next)
             case Lost(delivered) => (if delivered then st.(posted := st.posted + page[from..next]) else st, false)
             case RateLimited => (st, false)
           }
  {
    hide BatchReply, Save;
    var from := StartOf(b, |page|);
    if from < |page| { assert from / BATCH == b; }
  }

  /** The rest of a page, from batch b on. */
  lemma {:induction false} PostFromIs(st: State, env: Env, page: seq<nat>, b: nat) returns (k: nat)
    ensures var (after, ok) := PostFrom(st, env, page, StartOf(b, |page|));
      PostsUpTo(st, after, env, page, b, k) && (ok <==> StartOf(k, |page|) == |page|)
    decreases |page| - StartOf(b, |page|)
  {
    hide Decides, BatchReply, PostFrom, StartOf, PostsUpTo;
    k := b;
    var from, next := StartOf(b, |page|), StartOf(b + 1, |page|);
    PostStep(st, env, page, b);
    var after := PostFrom(st, env, page, from).0;
    if from == |page| {
      Stopped(st, after, env, page, b);
    } else {
      BatchReplyIs(env, b);
      match BatchReply(env, b, 0) {
        case Posted =>
          var saved := Save(st.(posted := st.posted + page[from..next], lastId := Some(page[next - 1])), env, b);
          k := PostFromIs(saved, env, page, b + 1);
          PostedOn(st, saved, after, env, page, b, k);
        case Lost(_) => Stopped(st, after, env, page, b);
      }
    }
  }

  lemma Stopped(st: State, after: State, env: Env, page: seq<nat>, b: nat)
    requires var from, next := StartOf(b, |page|), StartOf(b + 1, |page|);
      after == if from < |page| && Decides(env, b, Lost(true)) then st.(posted := st.posted + page[from..next]) else st
    requires StartOf(b, |page|) < |page| ==> !Decides(env, b, Posted)
    ensures PostsUpTo(st, after, env, page, b, b)
  {
    hide Decides;
  }

  lemma PostedOn(st: State, saved: State, after: State, env: Env, page: seq<nat>, b: nat, k: nat)
    requires var from, next := StartOf(b, |page|), StartOf(b + 1, |page|);
      from < next && saved == Save(st.(posted := st.posted + page[from..next], lastId := Some(page[next - 1])), env, b)
    requires PostsUpTo(saved, after, env, page, b + 1, k) && Decides(env, b, Posted)
    ensures PostsUpTo(st, after, env, page, b, k)
  {
    hide Decides, Min;
    StartsGrow(b, k, |page|);
    var from, next, n := StartOf(b, |page|), StartOf(b + 1, |page|), StartOf(k, |page|);
    assert page[from..next] + page[next..n] == page[from..n];
    FileOn(st, saved, after.disk, env, page, b, k);
    hide FileAfter;
  }

  lemma StartsGrow(b: nat, k: nat, n: nat)
    requires b < k
    ensures StartOf(b, n) <= StartOf(b + 1, n) <= StartOf(k, n) <= StartOf(k + 1, n) <= n
    ensures StartOf(b + 1, n) == StartOf(b, n) ==> StartOf(b, n) == n
  {
  }

  lemma FileOn(st: State, saved: State, disk: Option<nat>, env: Env, page: seq<nat>, b: nat, k: nat)
    requires var next := StartOf(b + 1, |page|); 0 < next && saved.disk == if env.saved(b) then Some(page[next - 1]) else st.disk
    requires b < k && FileAfter(disk, saved.disk, env, page, b + 1, k)
    ensures FileAfter(disk, st.disk, env, page, b, k)
  {
    hide StartOf;
    if j: nat :| b + 1 <= j < k && SavedLast(disk, env, page, j, k) {
    } else if env.saved(b) {
      assert SavedLast(disk, env, page, b, k);
    }
  }

  /** A poll whose whole page was acknowledged: the cursor goes to the last row of a full page, else to the newest id
      there is, and the file follows if the last save works. */
  ghost predicate PostsAll(st: State, after: State, env: Env, page: seq<nat>, k: nat, maxId: nat, perPoll: nat) {
    && StartOf(k, |page|) == |page| && (forall j: nat :: j < k ==> Decides(env, j, Posted))
    && after.posted == st.posted + page && after.baseline == st.baseline && after.lastId.Some?
    && (page != [] && |page| >= perPoll ==> after.lastId.value == page[|page| - 1])
    && (page == [] ==> after.lastId.value == maxId)
    && (0 < |page| < perPoll ==>
        after.lastId.value >= maxId && after.lastId.value >= page[|page| - 1] && after.lastId.value in [maxId, page[|page| - 1]])
    && (if env.saved(|page| + 1) then after.disk == after.lastId else FileAfter(after.disk, st.disk, env, page, 0, k))
  }

  /** A poll, by the replies of the outside world alone: batches are posted in order up to the first one that is not
      acknowledged, and the cursor and the file move only over acknowledged ones. Without an answer of the API, or
      new rows, nothing changes; without a cursor the newest id becomes one and nothing is posted. */
  lemma PollIs(st: State, b: Board, cfg: Config, env: Env) returns (k: nat)
    requires cfg.perPoll >= 1
    ensures var page, after := Page(st, b, cfg), Poll(st, b, cfg, env);
      if !env.apiUp then after == st
      else if st.lastId.None? then
        after == State(Some(MaxId(b)), if env.saved(0) then Some(MaxId(b)) else st.disk, st.posted,
                       if st.baseline.None? then Some(MaxId(b)) else st.baseline)
      else if MaxId(b) <= st.lastId.value then after == st
      else if StartOf(k, |page|) < |page| then PostsUpTo(st, after, env, page, 0, k)
      else PostsAll(st, after, env, page, k, MaxId(b), cfg.perPoll)
  {
    hide PostFrom, Decides, FileAfter, Page, MaxId;
    var page := Page(st, b, cfg);
    k := PostFromIs(st, env, page, 0);
    assert page[0..|page|] == page;
  }

  /** Each row a poll posts stands in a batch whose deciding reply was a success, or the report of a failure of a POST
      that did arrive; and unless a first batch was acknowledged, or nothing had to be posted, the cursor stays. */
  lemma PostedWasAccepted(st: State, b: Board, cfg: Config, env: Env)
    requires st.lastId.Some? && cfg.perPoll >= 1
    ensures var page, after := Page(st, b, cfg), Poll(st, b, cfg, env);
      && |st.posted| <= |after.posted| <= |st.posted| + |page| && after.posted[..|st.posted|] == st.posted
      && (forall i :: |st.posted| <= i < |after.posted| ==>
          var at := i - |st.posted|;
          after.posted[i] == page[at] && (Decides(env, at / BATCH, Posted) || Decides(env, at / BATCH, Lost(true))))
      && (after.lastId != st.lastId && page != [] ==> Decides(env, 0, Posted))
  {
    hide Decides, FileAfter, Page, MaxId, Poll;
    var page, after := Page(st, b, cfg), Poll(st, b, cfg, env);
    var k := PollIs(st, b, cfg, env);
    assert page[0..|page|] == page;
  }

  /** The process's state and loops as the source writes them. */

  class AnnouncerProcess {
    var lastId: Option<nat>
    var disk: Option<nat>
    ghost var posted: seq<nat>
    ghost var baseline: Option<nat>

    ghost function View(): State reads this { State(lastId, disk, posted, baseline) }

    constructor ()
      ensures View() == FRESH
    {
      lastId, disk, posted, baseline := None, None, [], None;
    }

    method SaveState(env: Env, n: nat)
      modifies this`disk
      ensures View() == Save(old(View()), env, n)
    {
      if env.saved(n) { disk := lastId; }
    }

    /** The inner retry loop of one batch. */
    method PostBatch(env: Env, batch: nat) returns (r: Reply)
      ensures r == BatchReply(env, batch, 0)
      ensures r == Posted <==> Decides(env, batch, Posted)
      ensures forall d :: r == Lost(d) <==> Decides(env, batch, Lost(d)) || (!d && Waits(env, batch, RETRIES + 1))
      ensures !r.RateLimited?
    {
      BatchReplyIs(env, batch);
      var rateLimits := 0;
      r := env.reply(batch, 0);
      while r.RateLimited?
        invariant rateLimits <= RETRIES && r == env.reply(batch, rateLimits)
        invariant BatchReply(env, batch, 0) == BatchReply(env, batch, rateLimits)
        decreases RETRIES - rateLimits
      {
        rateLimits := rateLimits + 1;
        if rateLimits > RETRIES { return Lost(false); }
        r := env.reply(batch, rateLimits);
      }
    }

    method PostEmbeds(env: Env, page: seq<nat>) returns (ok: bool)
      modifies this
      ensures (View(), ok) == PostFrom(old(View()), env, page, 0)
    {
      var i := 0;
      while i < |page|
        invariant i <= |page|
        invariant PostFrom(old(View()), env, page, 0) == PostFrom(View(), env, page, i)
      {
        var upto := if i + BATCH < |page| then i + BATCH else |page|;
        var r := PostBatch(env, i / BATCH);
        if r.Lost? {
          if r.delivered { posted := posted + page[i..upto]; }
          return false;
        }
        posted := posted + page[i..upto];
        lastId := Some(page[upto - 1]);
        SaveState(env, i / BATCH);
        i := upto;
      }
      return true;
    }

    method PollOnce(b: Board, cfg: Config, env: Env)
      modifies this
      ensures View() == Poll(old(View()), b, cfg, env)
    {
      if !env.apiUp { return; }
      var page := RecordsAfter(b, if lastId.Some? then lastId.value else 0, cfg.maxRank, cfg.perPoll);
      var maxId := MaxId(b);
      if lastId.None? {
        baseline := FirstBaseline(View(), maxId);
        lastId := Some(maxId);
        SaveState(env, 0);
        return;
      }
      if maxId <= lastId.value { return; }
      if page == [] {
        lastId := Some(maxId);
        SaveState(env, |page| + 1);
        return;
      }
      var ok := PostEmbeds(env, page);
      if !ok { return; }
      var last := page[|page| - 1];
      lastId := Some(if |page| >= cfg.perPoll then last else if maxId < last then last else maxId);
      SaveState(env, |page| + 1);
    }
  }
}
