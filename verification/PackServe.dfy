/** Streaming the map pack: the order of its entries, and the bytes of a range (web/mappack.js, the sort in
    `buildLayout`, `readRange`). */
module PackServe {
  import opened Extrema
  import opened Bytes
  import opened ZipPack
  import opened ZipTheorems

  // ---- the order of the entries ----------------------------------------------------------------

  /** JavaScript's `a < b` on strings: by code units. */
  predicate Less(a: string, b: string) {
    if b == "" then false
    else if a == "" then true
    else a[0] < b[0] || (a[0] == b[0] && Less(a[1..], b[1..]))
  }

  lemma {:induction false} LessTotal(a: string, b: string)
    ensures !(Less(a, b) && Less(b, a)) && (Less(a, b) || Less(b, a) || a == b) && !Less(a, a)
    decreases |a|
  {
    if a != "" && b != "" {
      LessTotal(a[1..], b[1..]);
      LessTotal(a[1..], a[1..]);
      if a[0] == b[0] && a[1..] == b[1..] { assert a == [a[0]] + a[1..] && b == [b[0]] + b[1..]; }
    } else if a != "" {
      LessTotal(a[1..], a[1..]);
    }
  }

  lemma {:induction false} LessTransitive(a: string, b: string, c: string)
    requires Less(a, b) && Less(b, c)
    ensures Less(a, c)
    decreases |a|
  {
    if a != "" && a[0] == b[0] == c[0] { LessTransitive(a[1..], b[1..], c[1..]); }
  }

  ghost predicate Ordered(files: seq<Entry>) {
    forall i, j :: 0 <= i < j < |files| ==> Less(files[i].name, files[j].name)
  }

  ghost predicate DistinctNames(files: seq<Entry>) {
    forall i, j :: 0 <= i < j < |files| ==> files[i].name != files[j].name
  }

  function Insert(e: Entry, files: seq<Entry>): seq<Entry> {
    if files == [] || Less(e.name, files[0].name) then [e] + files else [files[0]] + Insert(e, files[1..])
  }

  /** The sort of `buildLayout`. */
  function SortByName(files: seq<Entry>): seq<Entry> {
    if files == [] then [] else Insert(files[0], SortByName(files[1..]))
  }

  lemma {:induction false} InsertSorts(e: Entry, files: seq<Entry>)
    requires Ordered(files) && forall i :: 0 <= i < |files| ==> files[i].name != e.name
    ensures Ordered(Insert(e, files)) && multiset(Insert(e, files)) == multiset{e} + multiset(files)
  {
    hide Less, Ordered;
    if files == [] {
      OrderedCons(e, files);
    } else {
      LessTotal(e.name, files[0].name);
      OrderedTail(files);
      assert files == [files[0]] + files[1..];
      if Less(e.name, files[0].name) {
        forall j | 0 <= j < |files| ensures Less(e.name, files[j].name) {
          if j > 0 { LessTransitive(e.name, files[0].name, files[j].name); }
        }
        OrderedCons(e, files);
      } else {
        var tail := Insert(e, files[1..]);
        InsertSorts(e, files[1..]);
        forall j | 0 <= j < |tail| ensures Less(files[0].name, tail[j].name) {
          assert tail[j] in multiset(tail);
          if tail[j] != e { assert tail[j] in files[1..]; }
        }
        OrderedCons(files[0], tail);
      }
    }
  }

  lemma OrderedTail(files: seq<Entry>)
    requires Ordered(files) && files != []
    ensures Ordered(files[1..]) && forall j :: 0 < j < |files| ==> Less(files[0].name, files[j].name)
  {
    hide Less;
  }

  lemma OrderedCons(e: Entry, files: seq<Entry>)
    requires Ordered(files) && forall j :: 0 <= j < |files| ==> Less(e.name, files[j].name)
    ensures Ordered([e] + files)
  {
    hide Less;
  }

  lemma {:induction false} SortSorts(files: seq<Entry>)
    requires DistinctNames(files)
    ensures Ordered(SortByName(files)) && multiset(SortByName(files)) == multiset(files)
  {
    hide Insert;
    if files != [] {
      SortSorts(files[1..]);
      assert files == [files[0]] + files[1..];
      var tail := SortByName(files[1..]);
      forall i | 0 <= i < |tail| ensures tail[i].name != files[0].name {
        assert tail[i] in multiset(tail);
        assert tail[i] in files[1..];
      }
      InsertSorts(files[0], tail);
    }
  }

  lemma SameHead(a: seq<Entry>, b: seq<Entry>)
    requires Ordered(a) && Ordered(b) && multiset(a) == multiset(b) && a != [] && b != []
    ensures a[0] == b[0]
  {
    hide Less;
    assert a[0] in multiset(b) && b[0] in multiset(a);
    var i :| 0 <= i < |b| && b[i] == a[0];
    var j :| 0 <= j < |a| && a[j] == b[0];
    LessTotal(a[0].name, b[0].name);
  }

  /** There is only one way to order distinct names. */
  lemma {:induction false} OrderedIsUnique(a: seq<Entry>, b: seq<Entry>)
    requires Ordered(a) && Ordered(b) && multiset(a) == multiset(b)
    ensures a == b
    decreases |a|
  {
    hide Less;
    assert |a| == |multiset(a)| == |multiset(b)| == |b|;
    if a != [] {
      SameHead(a, b);
      assert a == [a[0]] + a[1..] && b == [b[0]] + b[1..];
      assert multiset(a[1..]) == multiset(a) - multiset{a[0]};
      assert multiset(b[1..]) == multiset(b) - multiset{b[0]};
      OrderedIsUnique(a[1..], b[1..]);
    }
  }

  /** The same entries in any order give the same layout, byte for byte, on every replica. */
  lemma LayoutIgnoresOrder(files: seq<Entry>, shuffled: seq<Entry>)
    requires DistinctNames(files) && DistinctNames(shuffled) && multiset(files) == multiset(shuffled)
    ensures LayoutOf(SortByName(files)) == LayoutOf(SortByName(shuffled))
  {
    SortSorts(files);
    SortSorts(shuffled);
    OrderedIsUnique(SortByName(files), SortByName(shuffled));
  }

  // ---- byte ranges of the archive ---------------------------------------------------------------

  /** A finished stream, or one destroyed because a file came up short after these bytes. */
  datatype Stream = Whole(bytes: seq<byte>) | Torn(bytes: seq<byte>)

  /** What a read of file bytes [from..upto) yields. */
  function FileSlice(disk: Disk, file: string, from: nat, upto: nat): seq<byte>
    requires from <= upto
  {
    if file !in disk then [] else disk[file][Min(from, |disk[file]|)..Min(upto, |disk[file]|)]
  }

  /** Segments are never empty, and literal ones hold exactly their length. */
  predicate Sized(segments: seq<Segment>) {
    forall i :: 0 <= i < |segments| ==>
      segments[i].len > 0 && (segments[i].body.Buf? ==> |segments[i].body.bytes| == segments[i].len)
  }

  /** The part of a segment inside [start..end], as offsets into it. */
  function From(s: Segment, start: nat): nat { Max(start, s.off) - s.off }

  function Upto(s: Segment, end: nat): nat
    requires s.off <= end
  {
    Min(end + 1, s.off + s.len) - s.off
  }

  /** The rest of a stream from segment k on. */
  function StreamFrom(segments: seq<Segment>, k: nat, disk: Disk, start: nat, end: nat, got: seq<byte>): Stream
    requires k <= |segments| && start <= end && Sized(segments)
    decreases |segments| - k
  {
    if k == |segments| then Whole(got) else
    var s := segments[k];
    if s.off + s.len <= start then StreamFrom(segments, k + 1, disk, start, end, got)
    else if s.off > end then Whole(got)
    else
      var from, upto := From(s, start), Upto(s, end);
      var chunk := match s.body case Buf(b) => b[from..upto] case OnDisk(f) => FileSlice(disk, f, from, upto);
      if |chunk| != upto - from then Torn(got + chunk)
      else StreamFrom(segments, k + 1, disk, start, end, got + chunk)
  }

  lemma StreamStep(segments: seq<Segment>, k: nat, disk: Disk, start: nat, end: nat, got: seq<byte>)
    requires k < |segments| && start <= end && Sized(segments)
    ensures segments[k].len > 0 && (segments[k].body.Buf? ==> |segments[k].body.bytes| == segments[k].len)
    ensures var s := segments[k];
      if s.off + s.len <= start then
        StreamFrom(segments, k, disk, start, end, got) == StreamFrom(segments, k + 1, disk, start, end, got)
      else if s.off > end then StreamFrom(segments, k, disk, start, end, got) == Whole(got)
      else
        var from, upto := From(s, start), Upto(s, end);
        && 0 <= from < upto <= s.len
        && var chunk := match s.body case Buf(b) => b[from..upto] case OnDisk(f) => FileSlice(disk, f, from, upto);
        StreamFrom(segments, k, disk, start, end, got)
        == if |chunk| != upto - from then Torn(got + chunk) else StreamFrom(segments, k + 1, disk, start, end, got + chunk)
  {
    hide FileSlice;
  }

  lemma StreamEnds(segments: seq<Segment>, disk: Disk, start: nat, end: nat, got: seq<byte>)
    requires start <= end && Sized(segments)
    ensures StreamFrom(segments, |segments|, disk, start, end, got) == Whole(got)
  {
  }

  /** The generator's loop. */
  method ReadRange(segments: seq<Segment>, disk: Disk, start: nat, end: nat) returns (r: Stream)
    requires start <= end && Sized(segments)
    ensures r == StreamFrom(segments, 0, disk, start, end, [])
  {
    hide FileSlice, StreamFrom, Sized;
    var got: seq<byte> := [];
    for k := 0 to |segments|
      invariant StreamFrom(segments, 0, disk, start, end, []) == StreamFrom(segments, k, disk, start, end, got)
    {
      StreamStep(segments, k, disk, start, end, got);
      var s := segments[k];
      var segEnd := s.off + s.len - 1;
      if segEnd < start { continue; }
      if s.off > end { break; }
      var from := (if start > s.off then start else s.off) - s.off;
      var upto := (if end < segEnd then end else segEnd) - s.off + 1;
      if s.body.Buf? {
        got := got + s.body.bytes[from..upto];
        continue;
      }
      var chunk := FileSlice(disk, s.body.file, from, upto);
      if |chunk| != upto - from { return Torn(got + chunk); }
      got := got + chunk;
    }
    StreamEnds(segments, disk, start, end, got);
    return Whole(got);
  }

  // ---- what a stream delivers -------------------------------------------------------------------

  /** How far bytes before segment k reach into [start..end]. */
  function Reach(segments: seq<Segment>, k: nat, total: nat, start: nat, end: nat): nat
    requires k <= |segments|
  {
    var pos := if k < |segments| then segments[k].off else total;
    Max(start, Min(pos, end + 1))
  }

  lemma ChunkIs(segments: seq<Segment>, k: nat, disk: Disk, bytes: seq<byte>, start: nat, end: nat)
    requires k < |segments| && Sized(segments) && Placed(segments[k], disk, bytes)
    requires start <= end < |bytes| && segments[k].off <= end && start < segments[k].off + segments[k].len
    ensures var s := segments[k]; var from, upto := From(s, start), Upto(s, end);
      && from < upto <= s.len
      && (match s.body case Buf(b) => b[from..upto] case OnDisk(f) => FileSlice(disk, f, from, upto))
        == bytes[Max(start, s.off)..Min(end + 1, s.off + s.len)]
  {
    var s := segments[k];
    var from, upto := From(s, start), Upto(s, end);
    SliceInside(bytes, s.off, SegmentBytes(s, disk), from, upto);
    match s.body {
      case Buf(b) =>
      case OnDisk(f) => assert disk[f][..s.len][from..upto] == disk[f][from..upto];
    }
  }

  lemma ReachSteps(segments: seq<Segment>, k: nat, total: nat, start: nat, end: nat)
    requires k < |segments| && start <= end < total
    requires segments[k].off + segments[k].len == if k + 1 < |segments| then segments[k + 1].off else total
    ensures var s := segments[k]; var here, next := Reach(segments, k, total, start, end), Reach(segments, k + 1, total, start, end);
      if s.off + s.len <= start then here == start == next
      else if s.off > end then here == end + 1
      else here == Max(start, s.off) && next == Min(end + 1, s.off + s.len) && here <= next
  {
  }

  lemma {:induction false} StreamSlices(segments: seq<Segment>, k: nat, disk: Disk, bytes: seq<byte>, start: nat, end: nat, got: seq<byte>)
    requires Spells(segments, disk, bytes) && Sized(segments) && start <= end < |bytes| && k <= |segments|
    requires start <= Reach(segments, k, |bytes|, start, end) <= end + 1
    requires got == bytes[start..Reach(segments, k, |bytes|, start, end)]
    ensures StreamFrom(segments, k, disk, start, end, got) == Whole(bytes[start..end + 1])
    decreases |segments| - k
  {
    hide FileSlice, Spells, Placed, Sized;
    if k < |segments| {
      hide Reach, Min, Max;
      var s := segments[k];
      SpellsAt(segments, k, disk, bytes);
      ReachSteps(segments, k, |bytes|, start, end);
      if s.off + s.len <= start {
        StreamSlices(segments, k + 1, disk, bytes, start, end, got);
      } else if s.off <= end {
        ChunkIs(segments, k, disk, bytes, start, end);
        var a, b := Max(start, s.off), Min(end + 1, s.off + s.len);
        SlicesMeet(bytes, start, a, b);
        hide From, Upto;
        StreamSlices(segments, k + 1, disk, bytes, start, end, bytes[start..b]);
      }
    }
  }

  lemma SlicesMeet(z: seq<byte>, a: nat, b: nat, c: nat)
    requires a <= b <= c <= |z|
    ensures z[a..b] + z[b..c] == z[a..c]
  {
  }

  lemma SpellsAt(segments: seq<Segment>, k: nat, disk: Disk, bytes: seq<byte>)
    requires Spells(segments, disk, bytes) && k < |segments|
    ensures Placed(segments[k], disk, bytes)
    ensures segments[k].off + segments[k].len == if k + 1 < |segments| then segments[k + 1].off else |bytes|
  {
    hide Placed;
  }

  lemma {:induction false} LayoutIsSized(files: seq<Entry>)
    requires AllWell(files)
    ensures Sized(AddAll(files).segments)
    decreases |files|
  {
    hide CentralBytes, LocalBytes;
    if files != [] {
      LayoutIsSized(files[..|files| - 1]);
      LocalLength(files[|files| - 1]);
    }
  }

  lemma PlanIsSized(files: seq<Entry>)
    requires AllWell(files)
    ensures Sized(LayoutOf(files).segments)
  {
    hide AddAll, EndBytes, WellFormed;
    LayoutIsSized(files);
    var p := AddAll(files);
    EndLength(|files|, |p.central|, p.off);
    PushIsSized(p, Tail(p, |files|));
  }

  lemma PushIsSized(p: Plan, tail: seq<byte>)
    requires Sized(p.segments) && |tail| > 0
    ensures Sized(Push(p, |tail|, Buf(tail)).segments)
  {
  }

  lemma EndLength(count: nat, cdSize: nat, cdOff: nat)
    ensures |EndBytes(count, cdSize, cdOff)| >= 22
  {
    EocdReads(count, cdSize, cdOff);
    hide EocdBytes, Z64Bytes, LocatorBytes;
  }

  /** For every range inside the archive, the stream is exactly those bytes of it. */
  lemma RangeIsArchiveSlice(files: seq<Entry>, disk: Disk, start: nat, end: nat)
    requires AllWell(files) && AllAvailable(files, disk) && start <= end < |Archive(files, disk)|
    ensures Sized(LayoutOf(files).segments)
    ensures StreamFrom(LayoutOf(files).segments, 0, disk, start, end, []) == Whole(Archive(files, disk)[start..end + 1])
  {
    hide WellFormed, Available, LayoutOf, Archive, StreamFrom;
    PlanIsSized(files);
    LayoutSpellsArchive(files, disk);
    var z := Archive(files, disk);
    assert z[start..start] == [];
    StreamSlices(LayoutOf(files).segments, 0, disk, z, start, end, []);
  }

  /** The disk still has what a segment must deliver of [start..end]. */
  predicate Enough(s: Segment, disk: Disk, start: nat, end: nat) {
    s.off + s.len <= start || s.off > end || s.body.Buf? || (s.body.file in disk && |disk[s.body.file]| >= Upto(s, end))
  }

  lemma ChunkSize(s: Segment, disk: Disk, start: nat, end: nat)
    requires s.len > 0 && s.off <= end && start <= end && start < s.off + s.len && s.body.OnDisk?
    ensures From(s, start) < Upto(s, end)
    ensures |FileSlice(disk, s.body.file, From(s, start), Upto(s, end))| == Upto(s, end) - From(s, start) <==> Enough(s, disk, start, end)
  {
  }

  /** Files may have changed under the download: the stream finishes exactly when every file it touches
      is still long enough, and a stream that finishes has exactly the promised length. */
  lemma {:induction false} StreamFinishesIff(segments: seq<Segment>, k: nat, total: nat, disk: Disk, start: nat, end: nat, got: seq<byte>)
    requires GapFree(segments, total) && Sized(segments) && start <= end < total && k <= |segments|
    requires |got| == Reach(segments, k, total, start, end) - start
    ensures var r := StreamFrom(segments, k, disk, start, end, got);
      && (r.Whole? <==> forall i :: k <= i < |segments| ==> Enough(segments[i], disk, start, end))
      && (r.Whole? ==> |r.bytes| == end + 1 - start)
    decreases |segments| - k
  {
    hide StreamFrom, FileSlice, Sized, GapFree, Min, Max;
    if k == |segments| {
      StreamEnds(segments, disk, start, end, got);
      ReachEnds(segments, total, start, end);
    } else {
      hide Reach;
      var s := segments[k];
      NextStarts(segments, k, total);
      ReachSteps(segments, k, total, start, end);
      StreamStep(segments, k, disk, start, end, got);
      if s.off + s.len <= start {
        StreamFinishesIff(segments, k + 1, total, disk, start, end, got);
      } else if s.off > end {
        LaterSegments(segments, k, total, end);
      } else {
        if s.body.OnDisk? { ChunkSize(s, disk, start, end); }
        var from, upto := From(s, start), Upto(s, end);
        var chunk := match s.body case Buf(b) => b[from..upto] case OnDisk(f) => FileSlice(disk, f, from, upto);
        ChunkReaches(s, start, end);
        assert s.body.Buf? ==> Enough(s, disk, start, end);
        hide Enough, From, Upto;
        if |chunk| == upto - from { StreamFinishesIff(segments, k + 1, total, disk, start, end, got + chunk); }
      }
    }
  }

  lemma ReachEnds(segments: seq<Segment>, total: nat, start: nat, end: nat)
    requires start <= end < total
    ensures Reach(segments, |segments|, total, start, end) == end + 1
  {
  }

  lemma NextStarts(segments: seq<Segment>, k: nat, total: nat)
    requires GapFree(segments, total) && k < |segments|
    ensures segments[k].off + segments[k].len == if k + 1 < |segments| then segments[k + 1].off else total
  {
  }

  lemma ChunkReaches(s: Segment, start: nat, end: nat)
    requires s.off <= end && start <= end && start < s.off + s.len
    ensures Upto(s, end) - From(s, start) == Min(end + 1, s.off + s.len) - Max(start, s.off)
  {
  }

  lemma {:induction false} LaterSegments(segments: seq<Segment>, k: nat, total: nat, end: nat)
    requires GapFree(segments, total) && k < |segments| && segments[k].off > end
    ensures forall i :: k <= i < |segments| ==> segments[i].off > end
    decreases |segments| - k
  {
    if k + 1 < |segments| { LaterSegments(segments, k + 1, total, end); }
  }
}
