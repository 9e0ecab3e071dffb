/** The writer's archives read back: by the APPNOTE decoder at any size, and by the repository's own
    reader exactly below the ZIP64 limits (web/mappack.js, `buildLayout`; web/random-deck.js,
    `readPackEntry`). */
module ZipTheorems {
  import opened Wrappers
  import opened Bytes
  import opened ZipPack
  import opened ZipRead

  type Disk = map<string, seq<byte>>

  /** The disk still holds at least the indexed length of every file-backed entry. */
  predicate Available(e: Entry, disk: Disk) {
    e.size > 0 && e.data.None? ==> e.name in disk && |disk[e.name]| >= e.size
  }

  predicate AllAvailable(files: seq<Entry>, disk: Disk) {
    forall i :: 0 <= i < |files| ==> Available(files[i], disk)
  }

  predicate AllWell(files: seq<Entry>) { forall i :: 0 <= i < |files| ==> WellFormed(files[i]) }

  /** The bytes of an entry. */
  function Data(e: Entry, disk: Disk): (d: seq<byte>)
    requires WellFormed(e) && Available(e, disk)
    ensures |d| == e.size
  {
    if e.size == 0 then [] else if e.data.Some? then e.data.value else disk[e.name][..e.size]
  }

  function Locals(files: seq<Entry>, disk: Disk): seq<byte>
    requires AllWell(files) && AllAvailable(files, disk)
  {
    if files == [] then [] else
    var e := files[|files| - 1];
    Locals(files[..|files| - 1], disk) + (LocalBytes(e) + Data(e, disk))
  }

  /** The whole archive: local entries, central directory, end records. */
  function Archive(files: seq<Entry>, disk: Disk): seq<byte>
    requires AllWell(files) && AllAvailable(files, disk)
  {
    Locals(files, disk) + DirectoryOf(files) + EndBytes(|files|, |DirectoryOf(files)|, OffsetAfter(files))
  }

  // ---- the planned segments are the archive -----------------------------------------------------

  predicate SegmentAvailable(s: Segment, disk: Disk) {
    match s.body
    case Buf(b) => |b| == s.len
    case OnDisk(f) => f in disk && |disk[f]| >= s.len
  }

  function SegmentBytes(s: Segment, disk: Disk): (r: seq<byte>)
    requires SegmentAvailable(s, disk)
    ensures |r| == s.len
  {
    match s.body
    case Buf(b) => b
    case OnDisk(f) => disk[f][..s.len]
  }

  /** The segments follow each other without gaps from offset 0 up to `total`. */
  ghost predicate GapFree(segments: seq<Segment>, total: nat) {
    && (segments == [] ==> total == 0)
    && (segments != [] ==> segments[0].off == 0 && segments[|segments| - 1].off + segments[|segments| - 1].len == total)
    && (forall i :: 0 <= i < |segments| - 1 ==> segments[i].off + segments[i].len == segments[i + 1].off)
  }

  /** A segment's bytes stand at its offset. */
  predicate Placed(s: Segment, disk: Disk, bytes: seq<byte>) {
    && SegmentAvailable(s, disk)
    && s.off + s.len <= |bytes| && bytes[s.off..s.off + s.len] == SegmentBytes(s, disk)
  }

  /** The segments spell out exactly these bytes. */
  ghost predicate Spells(segments: seq<Segment>, disk: Disk, bytes: seq<byte>) {
    && GapFree(segments, |bytes|)
    && (forall i :: 0 <= i < |segments| ==> Placed(segments[i], disk, bytes))
  }

  lemma PlacedStays(s: Segment, disk: Disk, bytes: seq<byte>, more: seq<byte>)
    requires Placed(s, disk, bytes)
    ensures Placed(s, disk, bytes + more)
  {
    assert (bytes + more)[s.off..s.off + s.len] == bytes[s.off..s.off + s.len];
  }

  lemma NewIsPlaced(s: Segment, disk: Disk, bytes: seq<byte>)
    requires SegmentAvailable(s, disk) && s.off == |bytes|
    ensures Placed(s, disk, bytes + SegmentBytes(s, disk)) && |bytes + SegmentBytes(s, disk)| == s.off + s.len
  {
    var more := bytes + SegmentBytes(s, disk);
    assert more[s.off..s.off + s.len] == SegmentBytes(s, disk);
  }

  lemma PushKeepsGapFree(p: Plan, len: nat, body: Body)
    requires GapFree(p.segments, p.off)
    ensures GapFree(Push(p, len, body).segments, p.off + len)
  {
  }

  lemma PushSpells(p: Plan, len: nat, body: Body, disk: Disk, bytes: seq<byte>)
    requires Spells(p.segments, disk, bytes) && p.off == |bytes|
    requires SegmentAvailable(Segment(p.off, len, body), disk)
    ensures var q := Push(p, len, body); var more := bytes + SegmentBytes(Segment(p.off, len, body), disk);
      Spells(q.segments, disk, more) && q.off == |more|
  {
    hide Placed, SegmentBytes, GapFree;
    var q := Push(p, len, body);
    var s := Segment(p.off, len, body);
    var more := bytes + SegmentBytes(s, disk);
    NewIsPlaced(s, disk, bytes);
    PushKeepsGapFree(p, len, body);
    forall i | 0 <= i < |q.segments| ensures Placed(q.segments[i], disk, more) {
      if i < |p.segments| { PlacedStays(p.segments[i], disk, bytes, SegmentBytes(s, disk)); }
    }
  }

  lemma AddEntrySpells(p: Plan, e: Entry, disk: Disk, bytes: seq<byte>)
    requires Spells(p.segments, disk, bytes) && p.off == |bytes| && WellFormed(e) && Available(e, disk)
    ensures var q := AddEntry(p, e); var more := bytes + (LocalBytes(e) + Data(e, disk));
      Spells(q.segments, disk, more) && q.off == |more|
  {
    hide Spells, LocalBytes, CentralBytes;
    var lh := LocalBytes(e);
    PushSpells(p, |lh|, Buf(lh), disk, bytes);
    if e.size > 0 {
      var q := Push(p, |lh|, Buf(lh));
      PushSpells(q, e.size, if e.data.Some? then Buf(e.data.value) else OnDisk(e.name), disk, bytes + lh);
      assert bytes + lh + Data(e, disk) == bytes + (lh + Data(e, disk));
    } else {
      assert bytes + (lh + Data(e, disk)) == bytes + lh;
    }
  }

  lemma {:induction false} AddAllSpells(files: seq<Entry>, disk: Disk)
    requires AllWell(files) && AllAvailable(files, disk)
    ensures Spells(AddAll(files).segments, disk, Locals(files, disk)) && AddAll(files).off == |Locals(files, disk)|
    decreases |files|
  {
    hide AddEntry, WellFormed;
    if files != [] {
      var front := files[..|files| - 1];
      AddAllSpells(front, disk);
      hide Spells;
      AddEntrySpells(AddAll(front), files[|files| - 1], disk, Locals(front, disk));
    }
  }

  /** The layout's segments, byte for byte and offset for offset, are the archive, and its size is the
      archive's length. */
  lemma LayoutSpellsArchive(files: seq<Entry>, disk: Disk)
    requires AllWell(files) && AllAvailable(files, disk)
    ensures Spells(LayoutOf(files).segments, disk, Archive(files, disk)) && LayoutOf(files).size == |Archive(files, disk)|
  {
    hide EndBytes, Spells, DirectoryOf, WellFormed, AddAll, Locals;
    AddAllSpells(files, disk);
    AddAllIs(files);
    var p := AddAll(files);
    var tail := Tail(p, |files|);
    PushSpells(p, |tail|, Buf(tail), disk, Locals(files, disk));
    assert Locals(files, disk) + tail == Archive(files, disk);
  }

  // ---- fields ----------------------------------------------------------------------------------

  /** h stands in s at position p. */
  predicate Inside(s: seq<byte>, p: nat, h: seq<byte>) { p + |h| <= |s| && s[p..p + |h|] == h }

  lemma UInside(s: seq<byte>, p: nat, h: seq<byte>, off: nat, n: nat)
    requires Inside(s, p, h) && off + n <= |h|
    ensures U(s, p + off, n) == U(h, off, n)
  {
    USlice(s, p, p + |h|, off, n);
  }

  lemma SliceInside(s: seq<byte>, p: nat, h: seq<byte>, a: nat, b: nat)
    requires Inside(s, p, h) && a <= b <= |h|
    ensures s[p + a..p + b] == h[a..b]
  {
    var x, y := s[p + a..p + b], s[p..p + |h|][a..b];
    assert |x| == |y| && forall k :: 0 <= k < b - a ==> x[k] == y[k];
  }

  lemma InsideConcat(a: seq<byte>, h: seq<byte>, c: seq<byte>)
    ensures Inside(a + h + c, |a|, h)
  {
    assert (a + h + c)[|a|..|a| + |h|] == h;
  }

  lemma InsideMore(s: seq<byte>, p: nat, h: seq<byte>, c: seq<byte>)
    requires Inside(s, p, h)
    ensures Inside(s + c, p, h)
  {
    assert (s + c)[p..p + |h|] == s[p..p + |h|];
  }

  /** Plain printable ASCII. */
  predicate IsPlain(name: string) { forall i :: 0 <= i < |name| ==> 0x20 <= name[i] as int <= 0x7e }

  /** What both headers of an entry must say: stored, as UTF-8 when it matters, at its time, with its checksum and size. */
  function FieldsOf(e: Entry, needed: nat): Fields {
    Fields(needed, if IsPlain(e.name) then 0 else 0x800, 0, DosTime(e.mtime), DosDate(e.mtime), e.crc, e.size, e.size)
  }

  lemma FlagIs(name: string)
    ensures Utf8Flag(name) == if IsPlain(name) then 0 else 0x800
  {
    assert (forall i :: 0 <= i < |name| ==> ' ' <= name[i] <= '~') <==> IsPlain(name);
  }

  lemma LocalFrontReads(e: Entry)
    requires WellFormed(e)
    ensures var h := LocalFront(e);
      && |h| == 14 && U(h, 0, 4) == LOCAL_SIG && U(h, 4, 2) == 20 && U(h, 6, 2) == Utf8Flag(e.name) && U(h, 8, 2) == 0
      && U(h, 10, 2) == DosTime(e.mtime) && U(h, 12, 2) == DosDate(e.mtime)
  {
    hide Put, Join, DosTime, DosDate, Utf8Flag;
    DosStampFits(e);
    Limits();
  }

  lemma LocalFixedReads(e: Entry)
    requires WellFormed(e)
    ensures var h := LocalFixed(e);
      && |h| == 30 && U(h, 0, 4) == LOCAL_SIG && FieldsAt(h, 4) == FieldsOf(e, 20) && U(h, 26, 2) == |e.utf8| && U(h, 28, 2) == 0
  {
    LocalFrontReads(e);
    FlagIs(e.name);
    hide Put, Join, DosTime, DosDate, Utf8Flag, LocalFront, IsPlain;
    Limits();
  }

  lemma LocalReads(e: Entry)
    requires WellFormed(e)
    ensures var h := LocalBytes(e);
      && |h| == 30 + |e.utf8| && U(h, 0, 4) == LOCAL_SIG && FieldsAt(h, 4) == FieldsOf(e, 20)
      && U(h, 26, 2) == |e.utf8| && U(h, 28, 2) == 0 && h[30..] == e.utf8
  {
    LocalFixedReads(e);
    hide LocalFixed, U, FieldsOf, WellFormed;
    JoinFields(LocalFixed(e), e.utf8, 4);
    JoinField(LocalFixed(e), e.utf8, 0, 4);
    JoinField(LocalFixed(e), e.utf8, 26, 2);
    JoinField(LocalFixed(e), e.utf8, 28, 2);
    assert (LocalFixed(e) + e.utf8)[30..] == e.utf8;
  }

  lemma JoinField(f: seq<byte>, n: seq<byte>, off: nat, w: nat)
    requires off + w <= |f|
    ensures U(Join(f, n), off, w) == U(f, off, w)
  {
  }

  lemma JoinFields(f: seq<byte>, n: seq<byte>, at: nat)
    requires at + 22 <= |f|
    ensures FieldsAt(Join(f, n), at) == FieldsAt(f, at)
  {
    hide U, Join;
    JoinField(f, n, at, 2); JoinField(f, n, at + 2, 2); JoinField(f, n, at + 4, 2); JoinField(f, n, at + 6, 2);
    JoinField(f, n, at + 8, 2); JoinField(f, n, at + 10, 4); JoinField(f, n, at + 14, 4); JoinField(f, n, at + 18, 4);
  }

  lemma InsideFields(s: seq<byte>, p: nat, h: seq<byte>, at: nat)
    requires Inside(s, p, h) && at + 22 <= |h|
    ensures FieldsAt(s, p + at) == FieldsAt(h, at)
  {
    hide U, Inside;
    UInside(s, p, h, at, 2); UInside(s, p, h, at + 2, 2); UInside(s, p, h, at + 4, 2); UInside(s, p, h, at + 6, 2);
    UInside(s, p, h, at + 8, 2); UInside(s, p, h, at + 10, 4); UInside(s, p, h, at + 14, 4); UInside(s, p, h, at + 18, 4);
  }

  /** Made by Unix, version 4.5 of the format. */
  const UNIX_45 := 0x032d

  /** A regular file that everybody may read. */
  const UNIX_0644 := 0x81a4_0000

  function Needed(off: nat): nat { if FarOffset(off) then 45 else 20 }

  lemma FrontReads(e: Entry, off: nat)
    requires WellFormed(e)
    ensures var h := CentralFront(e, off);
      && |h| == 20 && U(h, 0, 4) == CENTRAL_SIG && U(h, 4, 2) == UNIX_45 && U(h, 6, 2) == Needed(off)
      && U(h, 8, 2) == Utf8Flag(e.name) && U(h, 10, 2) == 0 && U(h, 12, 2) == DosTime(e.mtime) && U(h, 14, 2) == DosDate(e.mtime)
      && U(h, 16, 4) == e.crc
  {
    hide Put, Join, DosTime, DosDate, Utf8Flag;
    DosStampFits(e);
    Limits();
  }

  lemma MiddleReads(e: Entry, off: nat)
    requires WellFormed(e)
    ensures var h := CentralMiddle(e, off);
      && |h| == 32 && U(h, 0, 4) == CENTRAL_SIG && U(h, 4, 2) == UNIX_45 && FieldsAt(h, 6) == FieldsOf(e, Needed(off))
      && U(h, 28, 2) == |e.utf8| && U(h, 30, 2) == if FarOffset(off) then 12 else 0
  {
    FrontReads(e, off);
    FlagIs(e.name);
    hide Put, Join, DosTime, DosDate, Utf8Flag, CentralFront, IsPlain;
    Limits();
  }

  lemma FixedReads(e: Entry, off: nat)
    requires WellFormed(e)
    ensures var h := CentralFixed(e, off);
      && |h| == 46 && U(h, 0, 4) == CENTRAL_SIG && U(h, 4, 2) == UNIX_45 && FieldsAt(h, 6) == FieldsOf(e, Needed(off))
      && U(h, 28, 2) == |e.utf8| && U(h, 30, 2) == (if FarOffset(off) then 12 else 0) && U(h, 32, 2) == 0
      && U(h, 34, 2) == 0 && U(h, 36, 2) == 0 && U(h, 38, 4) == UNIX_0644
      && U(h, 42, 4) == if FarOffset(off) then SENTINEL32 else off
  {
    MiddleReads(e, off);
    hide Put, Join, CentralMiddle, FieldsOf, FieldsAt;
    Limits();
    var m := CentralMiddle(e, off);
    PutFields(m, 0, 2, 6);
    PutFields(Put(m, 0, 2), 0, 2, 6);
    var u := Put(Put(m, 0, 2), 0, 2);
    PutFields(u, 0, 2, 6);
    PutFields(Put(u, 0, 2), UNIX_0644, 4, 6);
    PutFields(Put(Put(u, 0, 2), UNIX_0644, 4), if FarOffset(off) then SENTINEL32 else off, 4, 6);
  }

  lemma PutFields(s: seq<byte>, v: nat, w: nat, at: nat)
    requires at + 22 <= |s|
    ensures FieldsAt(Put(s, v, w), at) == FieldsAt(s, at)
  {
    hide Put, U;
  }

  lemma ExtraReads(off: nat)
    requires FarOffset(off) && off < 0x1_0000_0000_0000_0000
    ensures |ExtraBytes(off)| == 12 && Zip64Offset(ExtraBytes(off)) == Some(off)
  {
    hide Put, Join;
    Limits();
  }

  lemma HeaderReads(e: Entry, off: nat)
    requires WellFormed(e)
    ensures var h, n := CentralBytes(e, off), |e.utf8|;
      && |h| == 46 + n + |ExtraBytes(off)| && U(h, 0, 4) == CENTRAL_SIG && U(h, 4, 2) == UNIX_45
      && FieldsAt(h, 6) == FieldsOf(e, Needed(off)) && U(h, 28, 2) == n
      && U(h, 30, 2) == (if FarOffset(off) then 12 else 0) && U(h, 32, 2) == 0
      && U(h, 34, 2) == 0 && U(h, 36, 2) == 0 && U(h, 38, 4) == UNIX_0644
      && U(h, 42, 4) == (if FarOffset(off) then SENTINEL32 else off)
      && h[46..46 + n] == e.utf8 && h[46 + n..] == ExtraBytes(off)
  {
    FixedReads(e, off);
    hide CentralFixed, U, ExtraBytes, WellFormed, FarOffset, FieldsOf, FieldsAt, Needed;
    var f, x := CentralFixed(e, off), ExtraBytes(off);
    var g := Join(f, e.utf8);
    assert (f + e.utf8 + x)[46..46 + |e.utf8|] == e.utf8;
    assert (f + e.utf8 + x)[46 + |e.utf8|..] == x;
    JoinFields(f, e.utf8, 6);
    JoinFields(g, x, 6);
    FrontFields(f, e.utf8, x, 0, 4); FrontFields(f, e.utf8, x, 4, 2); FrontFields(f, e.utf8, x, 28, 2);
    FrontFields(f, e.utf8, x, 30, 2); FrontFields(f, e.utf8, x, 32, 2); FrontFields(f, e.utf8, x, 34, 2);
    FrontFields(f, e.utf8, x, 36, 2); FrontFields(f, e.utf8, x, 38, 4); FrontFields(f, e.utf8, x, 42, 4);
    hide Join;
  }

  lemma FrontFields(f: seq<byte>, n: seq<byte>, x: seq<byte>, off: nat, w: nat)
    requires off + w <= |f|
    ensures U(Join(Join(f, n), x), off, w) == U(f, off, w)
  {
    assert U(Join(f, n), off, w) == U(f, off, w);
  }

  /** The fields of a directory record that stands in a directory. */
  ghost predicate RecordAt(cd: seq<byte>, p: nat, e: Entry, off: nat) {
    var n, x := |e.utf8|, |ExtraBytes(off)|;
    && p + 46 + n + x <= |cd|
    && U(cd, p, 4) == CENTRAL_SIG && U(cd, p + 4, 2) == UNIX_45 && FieldsAt(cd, p + 6) == FieldsOf(e, Needed(off))
    && U(cd, p + 28, 2) == n && U(cd, p + 30, 2) == x && U(cd, p + 32, 2) == 0
    && U(cd, p + 34, 2) == 0 && U(cd, p + 36, 2) == 0 && U(cd, p + 38, 4) == UNIX_0644
    && U(cd, p + 42, 4) == (if FarOffset(off) then SENTINEL32 else off)
    && cd[p + 46..p + 46 + n] == e.utf8 && cd[p + 46 + n..p + 46 + n + x] == ExtraBytes(off)
  }

  lemma ShiftFields(cd: seq<byte>, p: nat, h: seq<byte>)
    requires Inside(cd, p, h) && |h| >= 46
    ensures U(cd, p, 4) == U(h, 0, 4) && U(cd, p + 4, 2) == U(h, 4, 2) && FieldsAt(cd, p + 6) == FieldsAt(h, 6)
    ensures U(cd, p + 28, 2) == U(h, 28, 2) && U(cd, p + 30, 2) == U(h, 30, 2) && U(cd, p + 32, 2) == U(h, 32, 2)
    ensures U(cd, p + 34, 2) == U(h, 34, 2) && U(cd, p + 36, 2) == U(h, 36, 2) && U(cd, p + 38, 4) == U(h, 38, 4)
    ensures U(cd, p + 42, 4) == U(h, 42, 4)
  {
    hide U, Inside, FieldsAt;
    InsideFields(cd, p, h, 6);
    UInside(cd, p, h, 0, 4); UInside(cd, p, h, 4, 2); UInside(cd, p, h, 28, 2); UInside(cd, p, h, 30, 2); UInside(cd, p, h, 32, 2);
    UInside(cd, p, h, 34, 2); UInside(cd, p, h, 36, 2); UInside(cd, p, h, 38, 4); UInside(cd, p, h, 42, 4);
  }

  lemma ExtraLength(off: nat)
    requires off < 0x1_0000_0000_0000_0000
    ensures |ExtraBytes(off)| == if FarOffset(off) then 12 else 0
  {
    if FarOffset(off) { ExtraReads(off); }
  }

  lemma InsideFits(s: seq<byte>, p: nat, h: seq<byte>)
    requires Inside(s, p, h)
    ensures p + |h| <= |s|
  {
  }

  lemma RecordReads(cd: seq<byte>, p: nat, e: Entry, off: nat)
    requires WellFormed(e) && off < 0x1_0000_0000_0000_0000 && Inside(cd, p, CentralBytes(e, off))
    ensures RecordAt(cd, p, e, off)
  {
    hide CentralBytes, U, WellFormed, ExtraBytes, FarOffset, Inside, FieldsAt, FieldsOf, Needed;
    HeaderReads(e, off);
    var h, n := CentralBytes(e, off), |e.utf8|;
    ExtraLength(off);
    ShiftFields(cd, p, h);
    SliceInside(cd, p, h, 46, 46 + n);
    SliceInside(cd, p, h, 46 + n, |h|);
    assert h[46 + n..|h|] == h[46 + n..];
    InsideFits(cd, p, h);
  }

  /** A directory record found in a directory decodes to its entry. */
  lemma RecordDecodes(cd: seq<byte>, p: nat, e: Entry, off: nat)
    requires RecordAt(cd, p, e, off) && off < 0x1_0000_0000_0000_0000
    ensures ItemAt(cd, p) ==
      Some((Item(e.utf8, UNIX_45, FieldsOf(e, Needed(off)), 0, UNIX_0644, off), 46 + |e.utf8| + |ExtraBytes(off)|))
  {
    if FarOffset(off) { ExtraReads(off); }
    hide U, Zip64Offset, ExtraBytes, FieldsAt, FieldsOf, Needed;
  }

  lemma CentralLength(e: Entry, off: nat)
    ensures |CentralBytes(e, off)| == 46 + |e.utf8| + |ExtraBytes(off)|
  {
    hide Put, Join;
  }

  // ---- positions -------------------------------------------------------------------------------

  /** Where the k-th directory record starts. */
  function RecordPos(files: seq<Entry>, k: nat): nat
    requires k <= |files|
  {
    |DirectoryOf(files[..k])|
  }

  lemma PrefixOfPrefix(files: seq<Entry>, m: nat, k: nat)
    requires k <= m <= |files|
    ensures files[..m][..k] == files[..k]
  {
  }

  lemma {:induction false} DirectoryHolds(files: seq<Entry>, k: nat)
    requires k < |files|
    ensures Inside(DirectoryOf(files), RecordPos(files, k), CentralBytes(files[k], OffsetAfter(files[..k])))
    ensures RecordPos(files, k + 1) == RecordPos(files, k) + |CentralBytes(files[k], OffsetAfter(files[..k]))|
    decreases |files|
  {
    hide CentralBytes;
    var n := |files| - 1;
    PrefixOfPrefix(files, n, k);
    var last := CentralBytes(files[n], OffsetAfter(files[..n]));
    if k < n {
      DirectoryHolds(files[..n], k);
      PrefixOfPrefix(files, n, k + 1);
      InsideMore(DirectoryOf(files[..n]), RecordPos(files, k), CentralBytes(files[k], OffsetAfter(files[..k])), last);
    } else {
      InsideConcat(DirectoryOf(files[..n]), last, []);
      assert DirectoryOf(files[..n]) + last + [] == DirectoryOf(files);
      assert files[..k + 1] == files;
    }
  }

  lemma {:induction false} LocalsLength(files: seq<Entry>, disk: Disk)
    requires AllWell(files) && AllAvailable(files, disk)
    ensures |Locals(files, disk)| == OffsetAfter(files)
    decreases |files|
  {
    hide WellFormed, Available, LocalBytes;
    if files != [] {
      LocalsLength(files[..|files| - 1], disk);
      LocalLength(files[|files| - 1]);
    }
  }

  lemma {:induction false} LocalsHold(files: seq<Entry>, disk: Disk, k: nat)
    requires AllWell(files) && AllAvailable(files, disk) && k < |files|
    ensures Inside(Locals(files, disk), OffsetAfter(files[..k]), LocalBytes(files[k]) + Data(files[k], disk))
    decreases |files|
  {
    hide WellFormed, Available, LocalBytes, Data;
    var n := |files| - 1;
    PrefixOfPrefix(files, n, k);
    LocalsLength(files[..n], disk);
    var last := LocalBytes(files[n]) + Data(files[n], disk);
    if k < n {
      LocalsHold(files[..n], disk, k);
      InsideMore(Locals(files[..n], disk), OffsetAfter(files[..k]), LocalBytes(files[k]) + Data(files[k], disk), last);
    } else {
      InsideConcat(Locals(files[..n], disk), last, []);
      assert Locals(files[..n], disk) + last + [] == Locals(files, disk);
    }
  }

  /** The directory, and each local entry, stand in the archive where the offsets say. */
  lemma ArchiveHolds(files: seq<Entry>, disk: Disk)
    requires AllWell(files) && AllAvailable(files, disk)
    ensures Inside(Archive(files, disk), OffsetAfter(files), DirectoryOf(files))
    ensures Inside(Archive(files, disk), OffsetAfter(files) + |DirectoryOf(files)|,
                   EndBytes(|files|, |DirectoryOf(files)|, OffsetAfter(files)))
    ensures forall k :: 0 <= k < |files| ==>
      Inside(Archive(files, disk), OffsetAfter(files[..k]), LocalBytes(files[k]) + Data(files[k], disk))
  {
    hide WellFormed, Available, LocalBytes, Data, DirectoryOf, EndBytes;
    LocalsLength(files, disk);
    var l, d, e := Locals(files, disk), DirectoryOf(files), EndBytes(|files|, |DirectoryOf(files)|, OffsetAfter(files));
    InsideConcat(l, d, e);
    InsideConcat(l + d, e, []);
    assert l + d + e + [] == l + d + e;
    forall k | 0 <= k < |files|
      ensures Inside(Archive(files, disk), OffsetAfter(files[..k]), LocalBytes(files[k]) + Data(files[k], disk))
    {
      LocalsHold(files, disk, k);
      InsideMore(l, OffsetAfter(files[..k]), LocalBytes(files[k]) + Data(files[k], disk), d + e);
      assert l + (d + e) == l + d + e;
    }
  }

  // ---- the APPNOTE decoder ---------------------------------------------------------------------

  function ItemOf(files: seq<Entry>, k: nat): Item
    requires k < |files|
  {
    var off := OffsetAfter(files[..k]);
    Item(files[k].utf8, UNIX_45, FieldsOf(files[k], Needed(off)), 0, UNIX_0644, off)
  }

  function ItemsOf(files: seq<Entry>, k: nat): (items: seq<Item>)
    requires k <= |files|
    ensures |items| == |files| - k && forall i :: 0 <= i < |items| ==> items[i] == ItemOf(files, k + i)
    decreases |files| - k
  {
    if k == |files| then [] else [ItemOf(files, k)] + ItemsOf(files, k + 1)
  }

  lemma RecordOf(files: seq<Entry>, k: nat)
    requires Fits64(files) && k < |files|
    ensures OffsetAfter(files[..k]) < 0x1_0000_0000_0000_0000
    ensures RecordAt(DirectoryOf(files), RecordPos(files, k), files[k], OffsetAfter(files[..k]))
    ensures RecordPos(files, k + 1) == RecordPos(files, k) + 46 + |files[k].utf8| + |ExtraBytes(OffsetAfter(files[..k]))|
  {
    hide CentralBytes, RecordAt, DirectoryOf, OffsetAfter, WellFormed, ExtraBytes;
    OffsetsGrow(files, k);
    DirectoryHolds(files, k);
    CentralLength(files[k], OffsetAfter(files[..k]));
    RecordReads(DirectoryOf(files), RecordPos(files, k), files[k], OffsetAfter(files[..k]));
  }

  lemma {:induction false} DirectoryDecodes(files: seq<Entry>, k: nat)
    requires Fits64(files) && k <= |files|
    ensures ItemsFrom(DirectoryOf(files), RecordPos(files, k), |files| - k) == Some(ItemsOf(files, k))
    decreases |files| - k
  {
    hide DirectoryOf, OffsetAfter, RecordAt, WellFormed, ItemAt;
    if k < |files| {
      RecordOf(files, k);
      RecordDecodes(DirectoryOf(files), RecordPos(files, k), files[k], OffsetAfter(files[..k]));
      DirectoryDecodes(files, k + 1);
    } else {
      assert files[..k] == files;
    }
  }

  lemma EocdReads(count: nat, cdSize: nat, cdOff: nat)
    ensures var h := EocdBytes(count, cdSize, cdOff);
      |h| == 22 && U(h, 0, 4) == EOCD_SIG && U(h, 10, 2) == Cap(count, SENTINEL16)
      && U(h, 12, 4) == Cap(cdSize, SENTINEL32) && U(h, 16, 4) == Cap(cdOff, SENTINEL32) && OneDisk(h, 0)
  {
    hide Put;
    Limits();
  }

  lemma Z64Reads(count: nat, cdSize: nat, cdOff: nat)
    requires count < 0x1_0000_0000_0000_0000 && cdOff + cdSize < 0x1_0000_0000_0000_0000
    ensures var h := Z64Bytes(count, cdSize, cdOff);
      |h| == 56 && U(h, 0, 4) == Z64_SIG && U(h, 32, 8) == count && U(h, 40, 8) == cdSize && U(h, 48, 8) == cdOff
      && U(h, 4, 8) == 44 && U(h, 14, 2) == 45 && U(h, 16, 4) == 0 && U(h, 20, 4) == 0 && U(h, 24, 8) == count
  {
    hide Put;
    Limits();
  }

  lemma LocatorReads(z64Off: nat)
    requires z64Off < 0x1_0000_0000_0000_0000
    ensures var h := LocatorBytes(z64Off);
      |h| == 20 && U(h, 0, 4) == LOCATOR_SIG && U(h, 8, 8) == z64Off && U(h, 4, 4) == 0 && U(h, 16, 4) == 1
  {
    hide Put;
    Limits();
  }

  /** The last 22 bytes of an archive are its end record. */
  lemma EndHasEocd(z: seq<byte>, count: nat, cdSize: nat, cdOff: nat)
    requires Inside(z, cdOff + cdSize, EndBytes(count, cdSize, cdOff))
    requires |z| == cdOff + cdSize + |EndBytes(count, cdSize, cdOff)|
    ensures |z| >= 22 && Inside(z, |z| - 22, EocdBytes(count, cdSize, cdOff))
  {
    var end, h := EndBytes(count, cdSize, cdOff), EocdBytes(count, cdSize, cdOff);
    var from := |end| - |h|;
    EocdReads(count, cdSize, cdOff);
    hide EocdBytes, Z64Bytes, LocatorBytes;
    assert end[from..] == h;
    hide EndBytes;
    assert end[from..|end|] == h && cdOff + cdSize + from == |z| - 22;
    SliceInside(z, cdOff + cdSize, end, from, |end|);
  }

  lemma EocdFields(z: seq<byte>, e: nat, count: nat, cdSize: nat, cdOff: nat)
    requires Inside(z, e, EocdBytes(count, cdSize, cdOff))
    ensures U(z, e, 4) == EOCD_SIG && U(z, e + 10, 2) == Cap(count, SENTINEL16)
    ensures U(z, e + 12, 4) == Cap(cdSize, SENTINEL32) && U(z, e + 16, 4) == Cap(cdOff, SENTINEL32)
    ensures OneDisk(z, e)
  {
    var h := EocdBytes(count, cdSize, cdOff);
    EocdReads(count, cdSize, cdOff);
    hide EocdBytes, U, Cap, Inside;
    UInside(z, e, h, 0, 4);
    UInside(z, e, h, 10, 2);
    UInside(z, e, h, 12, 4);
    UInside(z, e, h, 16, 4);
    UInside(z, e, h, 4, 2);
    UInside(z, e, h, 6, 2);
    UInside(z, e, h, 8, 2);
    UInside(z, e, h, 20, 2);
  }

  lemma EndsWithEocd(z: seq<byte>, count: nat, cdSize: nat, cdOff: nat)
    requires Inside(z, cdOff + cdSize, EndBytes(count, cdSize, cdOff))
    requires |z| == cdOff + cdSize + |EndBytes(count, cdSize, cdOff)|
    ensures |z| >= 22
    ensures U(z, |z| - 22, 4) == EOCD_SIG && U(z, |z| - 12, 2) == Cap(count, SENTINEL16)
    ensures U(z, |z| - 10, 4) == Cap(cdSize, SENTINEL32) && U(z, |z| - 6, 4) == Cap(cdOff, SENTINEL32)
    ensures OneDisk(z, |z| - 22)
  {
    hide EocdBytes, EndBytes, U, Cap, Inside, OneDisk;
    EndHasEocd(z, count, cdSize, cdOff);
    EocdFields(z, |z| - 22, count, cdSize, cdOff);
  }

  lemma ZipEndPieces(z: seq<byte>, count: nat, cdSize: nat, cdOff: nat)
    requires NeedsZip64(count, cdSize, cdOff) && |Z64Bytes(count, cdSize, cdOff)| == 56
    requires |LocatorBytes(cdOff + cdSize)| == 20 && |EocdBytes(count, cdSize, cdOff)| == 22
    requires Inside(z, cdOff + cdSize, EndBytes(count, cdSize, cdOff))
    ensures |EndBytes(count, cdSize, cdOff)| == 98
    ensures Inside(z, cdOff + cdSize, Z64Bytes(count, cdSize, cdOff))
    ensures Inside(z, cdOff + cdSize + 56, LocatorBytes(cdOff + cdSize))
  {
    hide EocdBytes, Z64Bytes, LocatorBytes;
    var end, h := EndBytes(count, cdSize, cdOff), EocdBytes(count, cdSize, cdOff);
    var r, l, p := Z64Bytes(count, cdSize, cdOff), LocatorBytes(cdOff + cdSize), cdOff + cdSize;
    assert end == r + l + h;
    assert end[0..56] == r && end[56..76] == l;
    hide EndBytes;
    SliceInside(z, p, end, 0, 56);
    SliceInside(z, p, end, 56, 76);
  }

  lemma EndsWithZip64(z: seq<byte>, count: nat, cdSize: nat, cdOff: nat)
    requires NeedsZip64(count, cdSize, cdOff) && count < 0x1_0000_0000_0000_0000 && cdOff + cdSize < 0x1_0000_0000_0000_0000
    requires Inside(z, cdOff + cdSize, EndBytes(count, cdSize, cdOff))
    requires |z| == cdOff + cdSize + |EndBytes(count, cdSize, cdOff)|
    ensures |z| - 22 - 20 - 56 == cdOff + cdSize
    ensures var e := |z| - 22;
      && U(z, e - 20, 4) == LOCATOR_SIG && U(z, e - 12, 8) == cdOff + cdSize
      && U(z, cdOff + cdSize, 4) == Z64_SIG && U(z, cdOff + cdSize + 32, 8) == count
      && U(z, cdOff + cdSize + 40, 8) == cdSize && U(z, cdOff + cdSize + 48, 8) == cdOff
      && U(z, cdOff + cdSize + 14, 2) == 45 && OneDisk64(z, cdOff + cdSize, e - 20)
  {
    hide EndBytes, EocdBytes, Z64Bytes, LocatorBytes, U, Cap, Inside;
    EocdReads(count, cdSize, cdOff);
    Z64Reads(count, cdSize, cdOff);
    LocatorReads(cdOff + cdSize);
    ZipEndPieces(z, count, cdSize, cdOff);
    var r, l, p := Z64Bytes(count, cdSize, cdOff), LocatorBytes(cdOff + cdSize), cdOff + cdSize;
    UInside(z, p, r, 0, 4); UInside(z, p, r, 32, 8); UInside(z, p, r, 40, 8); UInside(z, p, r, 48, 8);
    UInside(z, p, r, 4, 8); UInside(z, p, r, 14, 2); UInside(z, p, r, 16, 4); UInside(z, p, r, 20, 4); UInside(z, p, r, 24, 8);
    UInside(z, p + 56, l, 0, 4); UInside(z, p + 56, l, 8, 8); UInside(z, p + 56, l, 4, 4); UInside(z, p + 56, l, 16, 4);
  }

  /** The end records give back the true count, directory size and directory offset at any size. */
  lemma EndDecodes(z: seq<byte>, count: nat, cdSize: nat, cdOff: nat)
    requires count < 0x1_0000_0000_0000_0000 && cdOff + cdSize < 0x1_0000_0000_0000_0000
    requires Inside(z, cdOff + cdSize, EndBytes(count, cdSize, cdOff))
    requires |z| == cdOff + cdSize + |EndBytes(count, cdSize, cdOff)|
    ensures EndOf(z) == Some((count, cdSize, cdOff))
  {
    hide U, EndBytes, Inside, OneDisk, OneDisk64, EndOf, NeedsZip64;
    EndsWithEocd(z, count, cdSize, cdOff);
    if NeedsZip64(count, cdSize, cdOff) {
      EndsWithZip64(z, count, cdSize, cdOff);
      EndOf64(z, count, cdSize, cdOff);
    } else {
      EndOf32(z, count, cdSize, cdOff);
    }
  }

  lemma EndOf32(z: seq<byte>, count: nat, cdSize: nat, cdOff: nat)
    requires |z| >= 22 && !NeedsZip64(count, cdSize, cdOff) && OneDisk(z, |z| - 22)
    requires U(z, |z| - 22, 4) == EOCD_SIG && U(z, |z| - 12, 2) == Cap(count, SENTINEL16)
    requires U(z, |z| - 10, 4) == Cap(cdSize, SENTINEL32) && U(z, |z| - 6, 4) == Cap(cdOff, SENTINEL32)
    ensures EndOf(z) == Some((count, cdSize, cdOff))
  {
    hide U, OneDisk;
  }

  lemma EndOf64(z: seq<byte>, count: nat, cdSize: nat, cdOff: nat)
    requires NeedsZip64(count, cdSize, cdOff) && |z| - 22 - 20 - 56 == cdOff + cdSize && OneDisk(z, |z| - 22)
    requires U(z, |z| - 22, 4) == EOCD_SIG && U(z, |z| - 12, 2) == Cap(count, SENTINEL16)
    requires U(z, |z| - 10, 4) == Cap(cdSize, SENTINEL32) && U(z, |z| - 6, 4) == Cap(cdOff, SENTINEL32)
    requires var e, r := |z| - 22, cdOff + cdSize;
      && U(z, e - 20, 4) == LOCATOR_SIG && U(z, e - 12, 8) == r && U(z, r, 4) == Z64_SIG && U(z, r + 14, 2) == 45
      && U(z, r + 32, 8) == count && U(z, r + 40, 8) == cdSize && U(z, r + 48, 8) == cdOff && OneDisk64(z, r, e - 20)
    ensures EndOf(z) == Some((count, cdSize, cdOff))
  {
    hide U, OneDisk, OneDisk64;
  }

  lemma ArchiveLength(files: seq<Entry>, disk: Disk)
    requires AllWell(files) && AllAvailable(files, disk)
    ensures |Archive(files, disk)| == OffsetAfter(files) + |DirectoryOf(files)| + |EndBytes(|files|, |DirectoryOf(files)|, OffsetAfter(files))|
  {
    hide WellFormed, Available, DirectoryOf, EndBytes;
    LocalsLength(files, disk);
  }

  /** Decoding an archive of any size and any number of entries recovers the count, the directory's
      size and offset, and every entry's name, checksum, size and true local offset. */
  lemma ArchiveDecodes(files: seq<Entry>, disk: Disk)
    requires Fits64(files) && AllAvailable(files, disk)
    ensures Decode(Archive(files, disk)) ==
      Some(Directory(|files|, |DirectoryOf(files)|, OffsetAfter(files), ItemsOf(files, 0)))
  {
    hide WellFormed, Available, DirectoryOf, EndBytes, OffsetAfter, EndOf, ItemsFrom, Archive;
    ArchiveHolds(files, disk);
    ArchiveLength(files, disk);
    EndDecodes(Archive(files, disk), |files|, |DirectoryOf(files)|, OffsetAfter(files));
    DirectoryDecodes(files, 0);
    EmptyDirectory(files);
  }

  lemma EmptyDirectory(files: seq<Entry>)
    ensures RecordPos(files, 0) == 0
  {
    assert files[..0] == [];
  }

  /** At an offset stands the entry's local header, without an extra field, then d. */
  ghost predicate StoredAt(z: seq<byte>, off: nat, e: Entry, d: seq<byte>) {
    var n := |e.utf8|;
    && off + 30 + n + |d| <= |z|
    && U(z, off, 4) == LOCAL_SIG && FieldsAt(z, off + 4) == FieldsOf(e, 20) && U(z, off + 26, 2) == n && U(z, off + 28, 2) == 0
    && z[off + 30..off + 30 + n] == e.utf8
    && z[off + 30 + n..off + 30 + n + |d|] == d
  }

  /** What stands at an entry's offset: its local header, then its bytes. */
  lemma EntryIsStored(files: seq<Entry>, disk: Disk, k: nat)
    requires Fits64(files) && AllAvailable(files, disk) && k < |files|
    ensures StoredAt(Archive(files, disk), OffsetAfter(files[..k]), files[k], Data(files[k], disk))
  {
    hide WellFormed, Available, DirectoryOf, EndBytes, OffsetAfter, Archive, LocalBytes, Data, U, Inside, FieldsAt, FieldsOf;
    ArchiveHolds(files, disk);
    LocalReads(files[k]);
    EntryPieces(Archive(files, disk), OffsetAfter(files[..k]), LocalBytes(files[k]), Data(files[k], disk));
  }

  lemma EntryPieces(z: seq<byte>, off: nat, l: seq<byte>, d: seq<byte>)
    requires Inside(z, off, l + d) && |l| >= 30
    ensures off + |l| + |d| <= |z| && z[off + 30..off + |l|] == l[30..] && z[off + |l|..off + |l| + |d|] == d
    ensures U(z, off, 4) == U(l, 0, 4) && U(z, off + 26, 2) == U(l, 26, 2) && U(z, off + 28, 2) == U(l, 28, 2)
    ensures FieldsAt(z, off + 4) == FieldsAt(l, 4)
  {
    hide U, FieldsAt;
    SliceInside(z, off, l + d, 0, |l|);
    SliceInside(z, off, l + d, |l|, |l + d|);
    assert (l + d)[0..|l|] == l && (l + d)[|l|..|l + d|] == d;
    assert Inside(z, off, l);
    SliceInside(z, off, l, 30, |l|);
    assert l[30..|l|] == l[30..];
    InsideFields(z, off, l, 4);
    UInside(z, off, l, 0, 4);
    UInside(z, off, l, 26, 2);
    UInside(z, off, l, 28, 2);
  }

  lemma LocalFrom(z: seq<byte>, off: nat, e: Entry, d: seq<byte>)
    requires StoredAt(z, off, e, d)
    ensures LocalAt(z, off) == Some(Local(e.utf8, FieldsOf(e, 20), off + 30 + |e.utf8|))
    ensures Extract(z, off, |d|) == Some(d)
  {
    hide U, FieldsAt, FieldsOf;
  }

  /** Extracting at a decoded offset returns exactly the entry's bytes. */
  lemma ExtractReturnsData(files: seq<Entry>, disk: Disk, k: nat)
    requires Fits64(files) && AllAvailable(files, disk) && k < |files|
    ensures var item := ItemOf(files, k); Extract(Archive(files, disk), item.localOffset, item.fields.size) == Some(Data(files[k], disk))
  {
    hide Archive, Extract, StoredAt, Data, OffsetAfter, WellFormed, Available, DirectoryOf;
    EntryIsStored(files, disk, k);
    LocalFrom(Archive(files, disk), OffsetAfter(files[..k]), files[k], Data(files[k], disk));
  }

  /** The moment a pair of DOS stamps stands for. */
  function MomentOf(f: Fields): Utc {
    Utc(f.date / 0x200 + 1980, f.date / 0x20 % 0x10, f.date % 0x20, f.time / 0x800, f.time / 0x20 % 0x40, f.time % 0x20 * 2)
  }

  /** What is left of a file time: even seconds, and 1980 at the earliest. */
  function Rounded(m: Option<Utc>): Utc {
    if m.Some? && m.value.year >= 1980 then m.value.(second := m.value.second - m.value.second % 2) else Utc(1980, 1, 1, 0, 0, 0)
  }

  lemma MomentIsRounded(e: Entry, needed: nat)
    requires WellFormed(e)
    ensures MomentOf(FieldsOf(e, needed)) == Rounded(e.mtime)
  {
    DosStampDecodes(e.mtime);
    hide DosTime, DosDate, IsPlain;
  }

  /** At its decoded offset every entry has a local header that says what its directory record says: name, flags, stored
      without compression, checksum, both sizes and a file time right to two seconds. Only the version may differ, which
      is 4.5 in the directory where the offset needs 64 bits. */
  lemma HeadersAgree(files: seq<Entry>, disk: Disk, k: nat)
    requires Fits64(files) && AllAvailable(files, disk) && k < |files|
    ensures var item, e := ItemOf(files, k), files[k]; var l := LocalAt(Archive(files, disk), item.localOffset);
      && l.Some? && l.value.name == item.name == e.utf8 && l.value.fields == item.fields.(needed := 20)
      && item.fields.needed == (if item.localOffset < 0xffff_ffff then 20 else 45)
      && item.fields.flags == (if IsPlain(e.name) then 0 else 0x800) && item.fields.how == 0
      && item.fields.crc == e.crc && item.fields.packed == item.fields.size == e.size
      && MomentOf(item.fields) == Rounded(e.mtime)
      && item.madeBy == 0x032d && item.internal == 0 && item.external == 0x81a4_0000
  {
    hide Archive, StoredAt, Data, OffsetAfter, WellFormed, Available, DirectoryOf, LocalAt, MomentOf, Rounded;
    EntryIsStored(files, disk, k);
    LocalFrom(Archive(files, disk), OffsetAfter(files[..k]), files[k], Data(files[k], disk));
    MomentIsRounded(files[k], ItemOf(files, k).fields.needed);
  }

  // ---- the repository's reader -----------------------------------------------------------------

  lemma RecordName(cd: seq<byte>, p: nat, e: Entry, off: nat)
    requires RecordAt(cd, p, e, off)
    ensures p + 46 <= |cd| && U(cd, p, 4) == CENTRAL_SIG && NameAt(cd, p) == LatinText(e.utf8)
    ensures U(cd, p + 28, 2) + U(cd, p + 30, 2) + U(cd, p + 32, 2) == |e.utf8| + |ExtraBytes(off)|
    ensures U(cd, p + 10, 2) == 0 && U(cd, p + 20, 4) == e.size && (!FarOffset(off) ==> U(cd, p + 42, 4) == off)
  {
    hide U, ExtraBytes, LatinText, IsPlain, DosTime, DosDate;
  }

  lemma WalkStep(z: seq<byte>, files: seq<Entry>, j: nat, count: nat, want: string, lower: Lowering)
    requires Fits64(files) && j < |files| && count > 0
    ensures Walk(z, DirectoryOf(files), RecordPos(files, j), count, want, lower) ==
      if lower(LatinText(files[j].utf8)) == want then EntryData(z, DirectoryOf(files), RecordPos(files, j))
      else Walk(z, DirectoryOf(files), RecordPos(files, j + 1), count - 1, want, lower)
  {
    hide DirectoryOf, OffsetAfter, U, EntryData, WellFormed, ExtraBytes, LatinText, RecordAt, NameAt, RecordPos;
    RecordOf(files, j);
    RecordName(DirectoryOf(files), RecordPos(files, j), files[j], OffsetAfter(files[..j]));
  }

  /** The walk from record j finds record k when k is the first match and is within the count. */
  lemma {:induction false} WalkFinds(z: seq<byte>, files: seq<Entry>, j: nat, k: nat, count: nat, want: string, lower: Lowering)
    requires Fits64(files) && j <= k < |files| && lower(LatinText(files[k].utf8)) == want
    requires forall i :: j <= i < k ==> lower(LatinText(files[i].utf8)) != want
    ensures Walk(z, DirectoryOf(files), RecordPos(files, j), count, want, lower) ==
      if count > k - j then EntryData(z, DirectoryOf(files), RecordPos(files, k)) else Nothing
    decreases k - j
  {
    hide DirectoryOf, LatinText, EntryData, WellFormed, RecordPos, LowersLatin, Fits64, U, NameAt;
    if count > 0 {
      WalkStep(z, files, j, count, want, lower);
      if j < k { WalkFinds(z, files, j + 1, k, count - 1, want, lower); }
    }
  }

  lemma {:induction false} WalkMisses(z: seq<byte>, files: seq<Entry>, j: nat, count: nat, want: string, lower: Lowering)
    requires Fits64(files) && j <= |files| && count <= |files| - j
    requires forall i :: j <= i < |files| ==> lower(LatinText(files[i].utf8)) != want
    ensures Walk(z, DirectoryOf(files), RecordPos(files, j), count, want, lower) == Nothing
    decreases |files| - j
  {
    hide DirectoryOf, LatinText, EntryData, WellFormed, RecordPos, LowersLatin, Fits64, U, NameAt;
    if count > 0 {
      WalkStep(z, files, j, count, want, lower);
      WalkMisses(z, files, j + 1, count - 1, want, lower);
    }
  }

  lemma EntryDataFrom(z: seq<byte>, cd: seq<byte>, p: nat, e: Entry, off: nat, d: seq<byte>)
    requires RecordAt(cd, p, e, off) && !FarOffset(off) && |d| == e.size
    requires StoredAt(z, off, e, d)
    ensures EntryData(z, cd, p) == Stored(d)
  {
    RecordName(cd, p, e, off);
    hide U, RecordAt, NameAt, FieldsAt, FieldsOf;
  }

  lemma EntryDataIs(files: seq<Entry>, disk: Disk, k: nat)
    requires Fits64(files) && AllAvailable(files, disk) && k < |files| && OffsetAfter(files) < SENTINEL32
    ensures EntryData(Archive(files, disk), DirectoryOf(files), RecordPos(files, k)) == Stored(Data(files[k], disk))
  {
    hide Archive, DirectoryOf, OffsetAfter, Data, WellFormed, Available, RecordAt, RecordPos, StoredAt, EntryData;
    RecordOf(files, k);
    EntryIsStored(files, disk, k);
    OffsetsGrow(files, k);
    EntryDataFrom(Archive(files, disk), DirectoryOf(files), RecordPos(files, k), files[k], OffsetAfter(files[..k]), Data(files[k], disk));
  }

  lemma TailUs(z: seq<byte>, off: nat, w: nat)
    requires |z| >= 22 && |z| - 22 <= off && off + w <= |z|
    ensures var t := TailOf(z); |t| <= |z| && U(t, off - (|z| - |t|), w) == U(z, off, w)
  {
    var t := TailOf(z);
    var from := |z| - |t|;
    assert z[from..|z|] == t;
    USlice(z, from, |z|, off - from, w);
  }

  /** The reader finds the last end record at once, and starts the walk unless a slot is a sentinel. */
  lemma ReadWithEocd(z: seq<byte>, entry: string, lower: Lowering, count: nat, cdSize: nat, cdOff: nat)
    requires |z| >= 22 && U(z, |z| - 22, 4) == EOCD_SIG && U(z, |z| - 12, 2) == Cap(count, SENTINEL16)
    requires U(z, |z| - 10, 4) == Cap(cdSize, SENTINEL32) && U(z, |z| - 6, 4) == Cap(cdOff, SENTINEL32)
    requires cdOff + cdSize <= |z|
    ensures ReadEntry(z, entry, lower) ==
      if cdOff >= SENTINEL32 || cdSize >= SENTINEL32 then Nothing
      else Walk(z, z[cdOff..cdOff + cdSize], 0, Cap(count, SENTINEL16), lower(entry), lower)
  {
    hide U, Walk, TailOf, LastEocd, LowersLatin;
    TailReads(z);
  }

  lemma TailReads(z: seq<byte>)
    requires |z| >= 22 && U(z, |z| - 22, 4) == EOCD_SIG
    ensures var t := TailOf(z); var e := |t| - 22;
      && e >= 0 && LastEocd(t, e) == e
      && U(t, e + 10, 2) == U(z, |z| - 12, 2) && U(t, e + 12, 4) == U(z, |z| - 10, 4) && U(t, e + 16, 4) == U(z, |z| - 6, 4)
  {
    hide U, TailOf;
    LongTail(z);
    TailUs(z, |z| - 22, 4);
    TailUs(z, |z| - 12, 2);
    TailUs(z, |z| - 10, 4);
    TailUs(z, |z| - 6, 4);
  }

  lemma LongTail(z: seq<byte>)
    requires |z| >= 22
    ensures |TailOf(z)| >= 22
  {
  }

  lemma ReadStarts(files: seq<Entry>, disk: Disk, entry: string, lower: Lowering)
    requires Fits64(files) && AllAvailable(files, disk)
    ensures ReadEntry(Archive(files, disk), entry, lower) ==
      if OffsetAfter(files) >= SENTINEL32 || |DirectoryOf(files)| >= SENTINEL32 then Nothing
      else Walk(Archive(files, disk), DirectoryOf(files), RecordPos(files, 0), Cap(|files|, SENTINEL16), lower(entry), lower)
  {
    hide WellFormed, Available, DirectoryOf, EndBytes, OffsetAfter, Archive, U, Walk, ReadEntry, RecordPos, Cap;
    ArchiveHolds(files, disk);
    ArchiveLength(files, disk);
    EmptyDirectory(files);
    var z := Archive(files, disk);
    EndsWithEocd(z, |files|, |DirectoryOf(files)|, OffsetAfter(files));
    ReadWithEocd(z, entry, lower, |files|, |DirectoryOf(files)|, OffsetAfter(files));
  }

  // ---- names through the reader ------------------------------------------------------------------

  /** The header names are the names in UTF-8. */
  predicate Encoded(files: seq<Entry>) { forall i :: 0 <= i < |files| ==> files[i].utf8 == Utf8(files[i].name) }

  lemma {:induction false} Utf8IsLonger(s: string)
    ensures |Utf8(s)| >= |s| && (|Utf8(s)| == |s| <==> IsAscii(s))
    ensures IsAscii(s) ==> LatinText(Utf8(s)) == s
  {
    if s != "" {
      Utf8IsLonger(s[1..]);
      assert s == [s[0]] + s[1..];
      if IsAscii(s) { assert Utf8(s) == [s[0] as int] + Utf8(s[1..]) && LatinText(Utf8(s))[0] == s[0]; }
    }
  }

  lemma {:induction false} Utf8HasHighByte(s: string) returns (i: nat)
    requires !IsAscii(s)
    ensures i < |Utf8(s)| && Utf8(s)[i] >= 0x80
  {
    if s[0] as int >= 0x80 {
      i := 0;
      assert Utf8Char(s[0])[0] >= 0x80;
    } else {
      assert s == [s[0]] + s[1..];
      var j := Utf8HasHighByte(s[1..]);
      i := j + 1;
    }
  }

  /** Read as latin1, a stored name is the caller's, ignoring case, exactly when the name is ASCII. */
  lemma LatinReadsIff(name: string, lower: Lowering)
    ensures lower(LatinText(Utf8(name))) == lower(name) <==> IsAscii(name)
  {
    hide Utf8;
    Utf8IsLonger(name);
    var text := LatinText(Utf8(name));
    assert lower(text) == LatinLower(text);
    assert IsLatin(LatinLower(text)) by { LatinStaysLatin(text); }
  }

  lemma LatinStaysLatin(s: string)
    requires IsLatin(s)
    ensures IsLatin(LatinLower(s)) && (IsAscii(s) <==> IsAscii(LatinLower(s)))
  {
    forall i | 0 <= i < |s| ensures LatinLowerChar(s[i]) as int < 0x100 && (s[i] as int < 0x80 <==> LatinLowerChar(s[i]) as int < 0x80) {}
    if IsAscii(LatinLower(s)) {
      forall i | 0 <= i < |s| ensures s[i] as int < 0x80 { assert LatinLower(s)[i] as int < 0x80; }
    }
  }

  /** Asked for an entry's own name, the repository's reader returns exactly its bytes if and only if the directory
      lies below the 32-bit sentinels, the entry is among the first 65535, and the name is ASCII: the header holds
      UTF-8 and the reader takes it for latin1. Otherwise it returns nothing. */
  lemma ReaderFindsEntryIff(files: seq<Entry>, disk: Disk, k: nat, lower: Lowering)
    requires Fits64(files) && AllAvailable(files, disk) && Encoded(files) && k < |files|
    requires forall i :: 0 <= i < |files| && i != k ==> lower(LatinText(files[i].utf8)) != lower(files[k].name)
    ensures ReadEntry(Archive(files, disk), files[k].name, lower) ==
      if OffsetAfter(files) < SENTINEL32 && |DirectoryOf(files)| < SENTINEL32 && k < SENTINEL16 && IsAscii(files[k].name)
      then Stored(Data(files[k], disk)) else Nothing
  {
    hide WellFormed, Available, DirectoryOf, OffsetAfter, Archive, LatinText, Data, ReadEntry, EntryData, Walk, RecordPos, Utf8;
    var name := files[k].name;
    LatinReadsIff(name, lower);
    if IsAscii(name) {
      ReadStarts(files, disk, name, lower);
      WalkFinds(Archive(files, disk), files, 0, k, Cap(|files|, SENTINEL16), lower(name), lower);
      if OffsetAfter(files) < SENTINEL32 { EntryDataIs(files, disk, k); }
    } else {
      ReaderMissesUnread(files, disk, name, lower);
    }
  }

  /** A name that no stored name reads as, ignoring case, is not found. */
  lemma ReaderMissesUnread(files: seq<Entry>, disk: Disk, entry: string, lower: Lowering)
    requires Fits64(files) && AllAvailable(files, disk)
    requires forall i :: 0 <= i < |files| ==> lower(LatinText(files[i].utf8)) != lower(entry)
    ensures ReadEntry(Archive(files, disk), entry, lower) == Nothing
  {
    hide WellFormed, Available, DirectoryOf, OffsetAfter, Archive, LatinText, ReadEntry, Walk, RecordPos;
    ReadStarts(files, disk, entry, lower);
    WalkMisses(Archive(files, disk), files, 0, Cap(|files|, SENTINEL16), lower(entry), lower);
  }

  /** An ASCII name that no entry has, ignoring case, is not found, whatever the other entries are called. */
  lemma ReaderMissesOthers(files: seq<Entry>, disk: Disk, entry: string, lower: Lowering)
    requires Fits64(files) && AllAvailable(files, disk) && Encoded(files)
    requires IsAscii(entry) && forall i :: 0 <= i < |files| ==> lower(files[i].name) != lower(entry)
    ensures ReadEntry(Archive(files, disk), entry, lower) == Nothing
  {
    hide WellFormed, Available, Archive, LatinText, ReadEntry, Utf8;
    forall i | 0 <= i < |files| ensures lower(LatinText(files[i].utf8)) != lower(entry) {
      var name := files[i].name;
      LatinReadsIff(name, lower);
      if !IsAscii(name) { MisreadIsNotAscii(name, lower); AsciiLowersAscii(entry, lower); }
    }
    ReaderMissesUnread(files, disk, entry, lower);
  }

  lemma MisreadIsNotAscii(name: string, lower: Lowering)
    requires !IsAscii(name)
    ensures !IsAscii(lower(LatinText(Utf8(name))))
  {
    hide Utf8;
    var i := Utf8HasHighByte(name);
    var text := LatinText(Utf8(name));
    assert text[i] as int >= 0x80;
    LatinStaysLatin(text);
  }

  lemma AsciiLowersAscii(entry: string, lower: Lowering)
    requires IsAscii(entry)
    ensures IsAscii(lower(entry))
  {
    LatinStaysLatin(entry);
  }
}
