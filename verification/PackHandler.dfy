/** The download handler of the map pack (web/mappack.js, `handle`): which bytes each request gets, the limit on
    concurrent streams, and resumed downloads. */
module PackHandler {
  import opened Wrappers
  import opened Bytes
  import opened ZipPack
  import opened ZipTheorems
  import opened PackServe
  import opened RangeHeader

  /** No archive is empty: it ends with its end record. */
  type Size = n: nat | n > 0 witness 1

  datatype Request = Request(ifNoneMatch: Option<string>, range: string, ifRange: string, head: bool)

  datatype ContentRange = Part(start: nat, end: nat, size: nat) | Unsatisfied(size: nat)

  /** Status, Content-Range, Content-Length, and the first and last position of the archive the body streams. */
  datatype Response = Response(status: nat, range: Option<ContentRange>, length: Option<nat>, body: Option<(nat, nat)>)

  /** The client's copy is still this archive, or it does not say. */
  predicate Honoured(req: Request, etag: string) { req.range != "" && (req.ifRange == "" || req.ifRange == etag) }

  /** The response to a request, with all stream slots taken or not. */
  function Answer(size: Size, etag: string, req: Request, full: bool): Response {
    var served := if Honoured(req, etag) then Bounds(ParseRange(req.range), size) else Serve(0, size - 1);
    if req.ifNoneMatch == Some(etag) then Response(304, None, None, None)
    else if served.Refused? then Response(416, Some(Unsatisfied(size)), None, None)
    else if full && !req.head then Response(503, None, None, None)
    else
      var start, end := served.start, served.end;
      Response(if Honoured(req, etag) then 206 else 200,
               if Honoured(req, etag) then Some(Part(start, end, size)) else None,
               if start <= end then Some(end - start + 1) else None,
               if req.head then None else Some((start, end)))
  }

  class MapPack {
    var streams: nat
    const maxStreams: int

    constructor (maxStreams: int)
      ensures streams == 0 && this.maxStreams == maxStreams
    {
      this.maxStreams, streams := maxStreams, 0;
    }

    /** The handler up to the body: a body takes a slot. */
    method Begin(size: Size, etag: string, req: Request) returns (res: Response)
      modifies this`streams
      ensures res == Answer(size, etag, req, old(streams) >= maxStreams)
      ensures streams == old(streams) + if res.body.Some? then 1 else 0
    {
      hide ParseRange;
      if req.ifNoneMatch == Some(etag) { return Response(304, None, None, None); }
      var start, end, partial := 0, size - 1, false;
      if req.range != "" {
        if req.ifRange != "" && req.ifRange != etag {
          // the client's copy is another archive: a fresh full transfer
        } else {
          BoundsAreSelection(ParseRange(req.range), size);
          var served := Bounds(ParseRange(req.range), size);
          if served.Refused? { return Response(416, Some(Unsatisfied(size)), None, None); }
          start, end, partial := served.start, served.end, true;
        }
      }
      res := Response(if partial then 206 else 200, if partial then Some(Part(start, end, size)) else None,
                      Some(end - start + 1), None);
      if req.head { return; }
      if streams >= maxStreams { return Response(503, None, None, None); }
      streams := streams + 1;
      res := res.(body := Some((start, end)));
    }

    /** The body, on the files as they are on disk while it runs. */
    method Deliver(layout: Layout, disk: Disk, start: nat, end: nat) returns (body: Stream)
      requires Sized(layout.segments) && start <= end
      ensures body == StreamFrom(layout.segments, 0, disk, start, end, [])
    {
      body := ReadRange(layout.segments, disk, start, end);
    }

    /** The `finally` of the handler, however the body ended. */
    method Finish()
      requires streams > 0
      modifies this`streams
      ensures streams == old(streams) - 1
    {
      streams := streams - 1;
    }
  }

  // ---- which bytes a request gets ---------------------------------------------------------------

  /** All slots taken only turns responses with a body into 503; HEAD gets the headers of GET without its body. */
  lemma BusyIff(size: Size, etag: string, req: Request)
    ensures Answer(size, etag, req, true).status == 503 <==> Answer(size, etag, req, false).body.Some?
    ensures Answer(size, etag, req, true).status != 503 ==> Answer(size, etag, req, true) == Answer(size, etag, req, false)
    ensures Answer(size, etag, req, false).status != 503
    ensures Answer(size, etag, req.(head := true), true) == Answer(size, etag, req.(head := false), false).(body := None)
  {
    hide ParseRange, Bounds;
  }

  /** The bounds of an honoured range, against the standard. */
  lemma ServedIsSelected(header: string, size: nat)
    ensures var served := Bounds(ParseRange(header), size);
      && (served.Serve? ==>
          served.start <= served.end < size && forall p: nat :: served.start <= p <= served.end <==> Selected(header, size, p))
      && (served.Refused? ==> SomeSatisfiable(header, size) ==> Departs(header, size))
  {
    hide ParseRange, Selected, SomeSatisfiable, Bounds;
    var served := Bounds(ParseRange(header), size);
    BoundsAreSelection(ParseRange(header), size);
    DepartsIff(header, size);
    SelectedIffSatisfiable(header, size);
    if served.Serve? {
      forall p: nat ensures served.start <= p <= served.end <==> Selected(header, size, p) {
        assert Covers(served, p) <==> served.start <= p <= served.end;
      }
    } else if SomeSatisfiable(header, size) {
      var p: nat :| Selected(header, size, p);
      assert !Covers(served, p);
    }
  }

  /** What a stream of the archive delivers. */
  function Body(files: seq<Entry>, disk: Disk, bounds: (nat, nat)): Stream
    requires AllWell(files) && Sized(LayoutOf(files).segments) && bounds.0 <= bounds.1
  {
    StreamFrom(LayoutOf(files).segments, 0, disk, bounds.0, bounds.1, [])
  }

  lemma AnswerShape(size: Size, etag: string, req: Request, full: bool)
    ensures var res := Answer(size, etag, req, full);
      && res.status in {200, 206, 304, 416, 503}
      && (res.body.Some? ==>
          res.body.value.0 <= res.body.value.1 < size && res.length == Some(res.body.value.1 + 1 - res.body.value.0))
      && (res.status == 200 && !req.head ==> res.body == Some((0, size - 1)) && res.range.None?)
      && (res.status == 206 && !req.head ==> res.body.Some?)
      && (res.status == 206 && res.body.Some? ==>
          && res.range == Some(Part(res.body.value.0, res.body.value.1, size))
          && Bounds(ParseRange(req.range), size) == Serve(res.body.value.0, res.body.value.1))
      && (res.body.Some? ==> res.status in {200, 206})
      && (res.status == 416 ==> Bounds(ParseRange(req.range), size).Refused?)
      && (res.status == 304 <==> req.ifNoneMatch == Some(etag))
      && (res.status in {206, 416} ==> Honoured(req, etag))
  {
    hide ParseRange, Bounds;
    BoundsAreSelection(ParseRange(req.range), size);
  }

  /** A response with a body keeps its promises: the body is that part of the archive, byte for byte and as long as
      Content-Length says, and a partial one is exactly what the header selects. */
  ghost predicate Delivers(files: seq<Entry>, disk: Disk, req: Request, res: Response)
    requires AllWell(files) && AllAvailable(files, disk) && Sized(LayoutOf(files).segments)
    requires res.body.Some? && res.body.value.0 <= res.body.value.1 < |Archive(files, disk)|
  {
    var z := Archive(files, disk);
    var start, end := res.body.value.0, res.body.value.1;
    && Body(files, disk, (start, end)) == Whole(z[start..end + 1])
    && res.length == Some(|z[start..end + 1]|)
    && (res.status == 200 ==> z[start..end + 1] == z && res.range.None?)
    && (res.status == 206 ==>
        res.range == Some(Part(start, end, |z|)) && forall p: nat :: start <= p <= end <==> Selected(req.range, |z|, p))
  }

  /** The whole exchange: every body keeps its promises, and a refused header selects nothing or is one of those on
      which the handler departs from the standard. */
  lemma AnswerDelivers(files: seq<Entry>, disk: Disk, etag: string, req: Request, full: bool)
    requires AllWell(files) && AllAvailable(files, disk)
    ensures Sized(LayoutOf(files).segments) && LayoutOf(files).size == |Archive(files, disk)| > 0
    ensures var z := Archive(files, disk); var res := Answer(|z|, etag, req, full);
      && (res.status == 304 <==> req.ifNoneMatch == Some(etag))
      && (res.status in {206, 416} ==> req.range != "" && (req.ifRange == "" || req.ifRange == etag))
      && (res.status in {200, 206} && !req.head <==> res.body.Some?)
      && (res.body.Some? ==> res.body.value.0 <= res.body.value.1 < |z| && Delivers(files, disk, req, res))
      && (res.status == 416 && SomeSatisfiable(req.range, |z|) ==> Departs(req.range, |z|))
  {
    hide AllWell, AllAvailable, LayoutOf, Archive, Body, ParseRange, Bounds, Selected, SomeSatisfiable, Departs, Answer, Delivers;
    ArchiveIsServed(files, disk);
    var z := Archive(files, disk);
    var res := Answer(|z|, etag, req, full);
    AnswerShape(|z|, etag, req, full);
    HeadHasNoBody(|z|, etag, req, full);
    ServedIsSelected(req.range, |z|);
    if res.body.Some? { BodyDelivers(files, disk, req, res); }
  }

  lemma HeadHasNoBody(size: Size, etag: string, req: Request, full: bool)
    ensures req.head ==> Answer(size, etag, req, full).body.None?
  {
    hide ParseRange, Bounds;
  }

  lemma BodyDelivers(files: seq<Entry>, disk: Disk, req: Request, res: Response)
    requires AllWell(files) && AllAvailable(files, disk) && Sized(LayoutOf(files).segments)
    requires res.body.Some? && res.body.value.0 <= res.body.value.1 < |Archive(files, disk)|
    requires res.length == Some(res.body.value.1 + 1 - res.body.value.0)
    requires res.status == 200 ==> res.body == Some((0, |Archive(files, disk)| - 1)) && res.range.None?
    requires res.status == 206 ==>
      && res.range == Some(Part(res.body.value.0, res.body.value.1, |Archive(files, disk)|))
      && (forall p: nat :: res.body.value.0 <= p <= res.body.value.1 <==> Selected(req.range, |Archive(files, disk)|, p))
    ensures Delivers(files, disk, req, res)
  {
    hide AllWell, AllAvailable, LayoutOf, Archive, StreamFrom, Selected;
    RangeIsArchiveSlice(files, disk, res.body.value.0, res.body.value.1);
    var z := Archive(files, disk);
    assert z[0..|z|] == z;
  }

  lemma ArchiveIsServed(files: seq<Entry>, disk: Disk)
    requires AllWell(files) && AllAvailable(files, disk)
    ensures Sized(LayoutOf(files).segments) && LayoutOf(files).size == |Archive(files, disk)| > 0
  {
    hide WellFormed, Available, LayoutOf, EndBytes, Spells, Locals, DirectoryOf, OffsetAfter;
    PlanIsSized(files);
    LayoutSpellsArchive(files, disk);
    ArchiveLength(files, disk);
    EndLength(|files|, |DirectoryOf(files)|, OffsetAfter(files));
  }

  // ---- slots -------------------------------------------------------------------------------------

  /** A request for some layout arrives, or the pipeline of an earlier body settles. */
  datatype Event = Arrives(size: Size, etag: string, req: Request) | Settles(id: nat)

  /** The counter, and the bodies begun so far and those of them still running. */
  datatype Pool = Pool(streams: int, begun: nat, open: set<nat>)

  const IDLE_POOL := Pool(0, 0, {})

  function Step(max: int, p: Pool, e: Event): Pool {
    match e
    case Arrives(size, etag, req) =>
      if Answer(size, etag, req, p.streams >= max).body.Some? then Pool(p.streams + 1, p.begun + 1, p.open + {p.begun}) else p
    case Settles(id) =>
      if id in p.open then Pool(p.streams - 1, p.begun, p.open - {id}) else p
  }

  function Run(max: int, p: Pool, es: seq<Event>): Pool {
    if es == [] then p else Step(max, Run(max, p, es[..|es| - 1]), es[|es| - 1])
  }

  /** The counter counts the running bodies, which are never more than the limit. */
  predicate Sound(max: int, p: Pool) {
    p.streams == |p.open| && (p.open == {} || |p.open| <= max) && forall id :: id in p.open ==> id < p.begun
  }

  lemma StepKeepsSound(max: int, p: Pool, e: Event)
    requires Sound(max, p)
    ensures Sound(max, Step(max, p, e))
  {
    hide Answer;
    if e.Arrives? { BusyHasNoBody(e.size, e.etag, e.req); }
  }

  lemma BusyHasNoBody(size: Size, etag: string, req: Request)
    ensures Answer(size, etag, req, true).body.None?
  {
    hide ParseRange, Bounds;
  }

  /** Over every interleaving of arrivals and ends, no slot leaks: the counter is the number of bodies still running,
      at most the limit; so a request is turned away exactly when it would get a body and that many are running. */
  lemma {:induction false} SlotsAreRunningBodies(max: int, es: seq<Event>, size: Size, etag: string, req: Request)
    ensures var p := Run(max, IDLE_POOL, es);
      && Sound(max, p)
      && (Answer(size, etag, req, p.streams >= max).status == 503
          <==> Answer(size, etag, req, false).body.Some? && |p.open| == if max < 0 then 0 else max)
  {
    hide Answer, Step;
    if es != [] {
      SlotsAreRunningBodies(max, es[..|es| - 1], size, etag, req);
      StepKeepsSound(max, Run(max, IDLE_POOL, es[..|es| - 1]), es[|es| - 1]);
    }
    BusyIff(size, etag, req);
  }

  // ---- resuming -----------------------------------------------------------------------------------

  /** One attempt of a download: it asks from a position on, up to a last one or to the end, and the connection
      gives out behind `upto`. The first attempt may be a plain GET. */
  datatype Leg = Leg(from: nat, last: Option<nat>, upto: nat, plain: bool)

  predicate LegOk(leg: Leg, size: nat) {
    leg.from < leg.upto <= size && (leg.last.Some? ==> leg.upto <= leg.last.value + 1) && (leg.plain ==> leg.from == 0)
  }

  function Ask(leg: Leg, etag: string): Request {
    if leg.plain then Request(None, "", "", false) else Request(None, ShowRange(Span(leg.from, leg.last)), etag, false)
  }

  /** The bytes that arrive before the connection gives out. */
  function Fetched(files: seq<Entry>, disk: Disk, etag: string, leg: Leg): seq<byte>
    requires AllWell(files) && AllAvailable(files, disk) && |Archive(files, disk)| > 0 && Sized(LayoutOf(files).segments)
  {
    var res := Answer(|Archive(files, disk)|, etag, Ask(leg, etag), false);
    if res.body.None? || res.body.value.0 > res.body.value.1 || leg.upto < leg.from then [] else
    var sent := Body(files, disk, res.body.value).bytes;
    if |sent| < leg.upto - leg.from then sent else sent[..leg.upto - leg.from]
  }

  lemma LegFetches(files: seq<Entry>, disk: Disk, etag: string, leg: Leg)
    requires AllWell(files) && AllAvailable(files, disk) && LegOk(leg, |Archive(files, disk)|)
    ensures Sized(LayoutOf(files).segments)
    ensures Answer(|Archive(files, disk)|, etag, Ask(leg, etag), false).status == if leg.plain then 200 else 206
    ensures Fetched(files, disk, etag, leg) == Archive(files, disk)[leg.from..leg.upto]
  {
    hide AllWell, AllAvailable, LayoutOf, Archive, Body, ParseRange, ShowRange, Selected;
    var z := Archive(files, disk);
    if !leg.plain {
      RangeRoundTrip(Span(leg.from, leg.last));
      ShownIsSome(Span(leg.from, leg.last));
    }
    AnswerDelivers(files, disk, etag, Ask(leg, etag), false);
    var res := Answer(|z|, etag, Ask(leg, etag), false);
    assert res.body.Some? && res.body.value.0 == leg.from && leg.upto <= res.body.value.1 + 1;
    assert z[leg.from..res.body.value.1 + 1][..leg.upto - leg.from] == z[leg.from..leg.upto];
  }

  lemma ShownIsSome(spec: Spec)
    ensures ShowRange(spec) != ""
  {
  }

  function Download(files: seq<Entry>, disk: Disk, etag: string, legs: seq<Leg>): seq<byte>
    requires AllWell(files) && AllAvailable(files, disk) && |Archive(files, disk)| > 0 && Sized(LayoutOf(files).segments)
  {
    if legs == [] then [] else Download(files, disk, etag, legs[..|legs| - 1]) + Fetched(files, disk, etag, legs[|legs| - 1])
  }

  /** Each attempt goes on where the one before gave out. */
  predicate Chained(legs: seq<Leg>) { forall i :: 0 <= i < |legs| - 1 ==> legs[i].upto == legs[i + 1].from }

  /** However often a download breaks, resuming it with the archive's tag puts together exactly the archive. */
  lemma {:induction false} ResumeReassembles(files: seq<Entry>, disk: Disk, etag: string, legs: seq<Leg>)
    requires AllWell(files) && AllAvailable(files, disk)
    requires legs != [] && Chained(legs) && forall i :: 0 <= i < |legs| ==> LegOk(legs[i], |Archive(files, disk)|)
    ensures Sized(LayoutOf(files).segments)
    ensures var z := Archive(files, disk); var from, upto := legs[0].from, legs[|legs| - 1].upto;
      && from < upto <= |z|
      && Download(files, disk, etag, legs) == z[from..upto]
      && (from == 0 && upto == |z| ==> Download(files, disk, etag, legs) == z)
  {
    hide AllWell, AllAvailable, LayoutOf, Archive, Fetched, Sized;
    var z := Archive(files, disk);
    var n := |legs| - 1;
    var front := legs[..n];
    LegFetches(files, disk, etag, legs[n]);
    if n == 0 {
      assert Download(files, disk, etag, front) == [];
    } else {
      assert front[|front| - 1] == legs[n - 1] && legs[n - 1].upto == legs[n].from;
      ResumeReassembles(files, disk, etag, front);
      SlicesMeet(z, legs[0].from, legs[n].from, legs[n].upto);
    }
    WholeSlice(z);
  }

  lemma WholeSlice(z: seq<byte>)
    ensures z[0..|z|] == z
  {
  }

  /** A client that resumes with the tag of another archive gets this one from its start, or is asked to come back. */
  lemma StaleResumeRestarts(size: Size, etag: string, stale: string, leg: Leg, full: bool)
    requires stale != "" && stale != etag && !leg.plain
    ensures Answer(size, etag, Ask(leg, stale), full)
      == if full then Response(503, None, None, None) else Response(200, None, Some(size), Some((0, size - 1)))
  {
    hide ShowRange;
  }
}
