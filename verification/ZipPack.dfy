/** The byte plan of the streamed map pack (web/mappack.js, `dosStamp`, `localHeader`, `centralHeader`,
    `endRecords`, `buildLayout`): a stored ZIP archive in the ZIP64 format of PKWARE's APPNOTE. */
module ZipPack {
  import opened Wrappers
  import opened Bytes

  /** A file time in UTC, as `Date` splits it. */
  datatype Utc = Utc(year: int, month: nat, day: nat, hour: nat, minute: nat, second: nat)

  predicate ValidUtc(d: Utc) {
    1 <= d.month <= 12 && 1 <= d.day <= 31 && d.hour < 24 && d.minute < 60 && d.second < 60
  }

  /** An index record, or the inline README: `name` in code units and in UTF-8; `mtime` is None when it
      is not a finite time. */
  datatype Entry = Entry(name: string, utf8: seq<byte>, size: nat, crc: nat, mtime: Option<Utc>, data: Option<seq<byte>>)

  const MAX_ENTRY_BYTES := 0xffff_fffe
  const SENTINEL32 := 0xffff_ffff
  const SENTINEL16 := 0xffff

  /** What the header fields can hold; Node throws on anything else. */
  predicate WellFormed(e: Entry) {
    && |e.utf8| <= 0xffff && e.size <= MAX_ENTRY_BYTES && e.crc < 0x1_0000_0000
    && (e.mtime.Some? ==> ValidUtc(e.mtime.value) && e.mtime.value.year <= 2107)
    && (e.data.Some? ==> |e.data.value| == e.size)
  }

  // ---- DOS time --------------------------------------------------------------------------------

  function DosTime(m: Option<Utc>): nat {
    if m.None? || m.value.year < 1980 then 0
    else m.value.hour * 0x800 + m.value.minute * 0x20 + m.value.second / 2
  }

  function DosDate(m: Option<Utc>): nat {
    if m.None? || m.value.year < 1980 then 0x21
    else (m.value.year - 1980) * 0x200 + m.value.month * 0x20 + m.value.day
  }

  lemma Pack(a: nat, b: nat, c: nat, bHigh: nat, cHigh: nat)
    requires b < bHigh && c < cHigh
    ensures (a * (bHigh * cHigh) + b * cHigh + c) % cHigh == c
    ensures (a * (bHigh * cHigh) + b * cHigh + c) / cHigh == a * bHigh + b
    ensures (a * bHigh + b) % bHigh == b && (a * bHigh + b) / bHigh == a
  {
    var n := a * (bHigh * cHigh) + b * cHigh + c;
    assert n == (a * bHigh + b) * cHigh + c;
    DivMod(a * bHigh + b, cHigh, c);
    DivMod(a, bHigh, b);
  }

  lemma DivMod(q: nat, d: nat, r: nat)
    requires r < d
    ensures (q * d + r) / d == q && (q * d + r) % d == r
  {
    var n, k := q * d + r, q - (q * d + r) / d;
    assert n == d * (n / d) + n % d;
    assert d * k == n % d - r;
    assert 0 - d < d * k < d;
    SmallMultiple(d, k);
  }

  lemma SmallMultiple(d: nat, k: int)
    requires 0 - d < d * k < d
    ensures k == 0
  {
  }

  lemma DosDateDecodes(m: Option<Utc>)
    requires m.Some? ==> ValidUtc(m.value) && m.value.year <= 2107
    ensures var d := DosDate(m);
      && d < 0x1_0000
      && (if m.Some? && m.value.year >= 1980 then
            d / 0x200 + 1980 == m.value.year && d / 0x20 % 0x10 == m.value.month && d % 0x20 == m.value.day
          else d / 0x200 + 1980 == 1980 && d / 0x20 % 0x10 == 1 && d % 0x20 == 1)
  {
    if m.Some? && m.value.year >= 1980 {
      Pack(m.value.year - 1980, m.value.month, m.value.day, 0x10, 0x20);
    }
  }

  /** Both stamps fit 16 bits, and the bit fields give the time back to two seconds; times that are not
      finite or lie before 1980 clamp to the first moment of 1980. */
  lemma DosStampDecodes(m: Option<Utc>)
    requires m.Some? ==> ValidUtc(m.value) && m.value.year <= 2107
    ensures var t, d := DosTime(m), DosDate(m);
      && t < 0x1_0000 && d < 0x1_0000
      && (if m.Some? && m.value.year >= 1980 then
            d / 0x200 + 1980 == m.value.year && d / 0x20 % 0x10 == m.value.month && d % 0x20 == m.value.day
            && t / 0x800 == m.value.hour && t / 0x20 % 0x40 == m.value.minute && t % 0x20 == m.value.second / 2
          else
            d / 0x200 + 1980 == 1980 && d / 0x20 % 0x10 == 1 && d % 0x20 == 1 && t == 0)
  {
    DosDateDecodes(m);
    hide DosDate;
    if m.Some? && m.value.year >= 1980 {
      Pack(m.value.hour, m.value.minute, m.value.second / 2, 0x40, 0x20);
    }
  }

  /** Bit 11: the name is UTF-8 and not plain printable ASCII. */
  function Utf8Flag(name: string): nat {
    if forall i :: 0 <= i < |name| ==> ' ' <= name[i] <= '~' then 0 else 0x800
  }

  // ---- the headers as byte strings -------------------------------------------------------------

  const LOCAL_SIG := 0x04034b50
  const CENTRAL_SIG := 0x02014b50
  const EOCD_SIG := 0x06054b50
  const Z64_SIG := 0x06064b50
  const LOCATOR_SIG := 0x07064b50
  const MADE_BY := 3 * 0x100 + 45

  function LocalFront(e: Entry): seq<byte> {
    Put(Put(Put(Put(Put(Put([], LOCAL_SIG, 4), 20, 2), Utf8Flag(e.name), 2), 0, 2), DosTime(e.mtime), 2), DosDate(e.mtime), 2)
  }

  function LocalFixed(e: Entry): seq<byte> {
    Put(Put(Put(Put(Put(LocalFront(e), e.crc, 4), e.size, 4), e.size, 4), |e.utf8|, 2), 0, 2)
  }

  function LocalBytes(e: Entry): seq<byte> { Join(LocalFixed(e), e.utf8) }

  predicate FarOffset(off: nat) { off >= SENTINEL32 }

  function CentralFront(e: Entry, off: nat): seq<byte> {
    var s := Put(Put(Put([], CENTRAL_SIG, 4), MADE_BY, 2), if FarOffset(off) then 45 else 20, 2);
    Put(Put(Put(Put(Put(s, Utf8Flag(e.name), 2), 0, 2), DosTime(e.mtime), 2), DosDate(e.mtime), 2), e.crc, 4)
  }

  function CentralMiddle(e: Entry, off: nat): seq<byte> {
    Put(Put(Put(Put(CentralFront(e, off), e.size, 4), e.size, 4), |e.utf8|, 2), if FarOffset(off) then 12 else 0, 2)
  }

  function CentralFixed(e: Entry, off: nat): seq<byte> {
    var u := Put(Put(CentralMiddle(e, off), 0, 2), 0, 2);
    Put(Put(Put(u, 0, 2), 0x81a4_0000, 4), if FarOffset(off) then SENTINEL32 else off, 4)
  }

  /** The zip64 extra field: only the offset is a sentinel, so only the offset is in it. */
  function ExtraBytes(off: nat): seq<byte> {
    if FarOffset(off) then Put(Put(Put([], 1, 2), 8, 2), off, 8) else []
  }

  function CentralBytes(e: Entry, off: nat): seq<byte> {
    Join(Join(CentralFixed(e, off), e.utf8), ExtraBytes(off))
  }

  function Cap(n: nat, limit: nat): nat { if n < limit then n else limit }

  predicate NeedsZip64(count: nat, cdSize: nat, cdOff: nat) {
    cdOff >= SENTINEL32 || cdSize >= SENTINEL32 || count >= SENTINEL16
  }

  function EocdBytes(count: nat, cdSize: nat, cdOff: nat): seq<byte> {
    var s := Put(Put(Put(Put(Put([], EOCD_SIG, 4), 0, 2), 0, 2), Cap(count, SENTINEL16), 2), Cap(count, SENTINEL16), 2);
    Put(Put(Put(s, Cap(cdSize, SENTINEL32), 4), Cap(cdOff, SENTINEL32), 4), 0, 2)
  }

  function Z64Bytes(count: nat, cdSize: nat, cdOff: nat): seq<byte> {
    var s := Put(Put(Put(Put(Put(Put([], Z64_SIG, 4), 44, 8), MADE_BY, 2), 45, 2), 0, 4), 0, 4);
    Put(Put(Put(Put(s, count, 8), count, 8), cdSize, 8), cdOff, 8)
  }

  function LocatorBytes(z64Off: nat): seq<byte> {
    Put(Put(Put(Put([], LOCATOR_SIG, 4), 0, 4), z64Off, 8), 1, 4)
  }

  function EndBytes(count: nat, cdSize: nat, cdOff: nat): seq<byte> {
    if NeedsZip64(count, cdSize, cdOff)
    then Join(Join(Z64Bytes(count, cdSize, cdOff), LocatorBytes(cdOff + cdSize)), EocdBytes(count, cdSize, cdOff))
    else EocdBytes(count, cdSize, cdOff)
  }

  // ---- the headers written in place ------------------------------------------------------------

  method LocalHeader(e: Entry) returns (b: array<byte>)
    requires WellFormed(e)
    ensures fresh(b) && b[..] == LocalBytes(e)
  {
    hide Put, Join, LocalFront;
    Limits();
    b := new byte[30 + |e.utf8|](_ => 0);
    WriteLocalFront(b, e);
    Write(b, 14, e.crc, 4);
    Write(b, 18, e.size, 4);
    Write(b, 22, e.size, 4);
    Write(b, 26, |e.utf8|, 2);
    Write(b, 28, 0, 2);
    Copy(e.utf8, b, 30);
    assert b[..] == b[..30 + |e.utf8|];
  }

  method WriteLocalFront(b: array<byte>, e: Entry)
    requires WellFormed(e) && b.Length >= 30
    modifies b
    ensures b[..14] == LocalFront(e)
  {
    hide Put, DosTime, DosDate, Utf8Flag;
    DosStampFits(e);
    Limits();
    assert b[..0] == [];
    Write(b, 0, LOCAL_SIG, 4);
    Write(b, 4, 20, 2);
    Write(b, 6, Utf8Flag(e.name), 2);
    Write(b, 8, 0, 2);
    Write(b, 10, DosTime(e.mtime), 2);
    Write(b, 12, DosDate(e.mtime), 2);
  }

  lemma DosStampFits(e: Entry)
    requires WellFormed(e)
    ensures DosTime(e.mtime) < 0x1_0000 && DosDate(e.mtime) < 0x1_0000 && Utf8Flag(e.name) <= 0x800
  {
    DosStampDecodes(e.mtime);
  }

  method WriteCentralFront(b: array<byte>, e: Entry, off: nat)
    requires WellFormed(e) && b.Length >= 46
    modifies b
    ensures b[..20] == CentralFront(e, off)
  {
    hide Put, Join, DosTime, DosDate, Utf8Flag;
    DosStampFits(e);
    Limits();
    assert b[..0] == [];
    Write(b, 0, CENTRAL_SIG, 4);
    Write(b, 4, MADE_BY, 2);
    Write(b, 6, if off >= SENTINEL32 then 45 else 20, 2);
    Write(b, 8, Utf8Flag(e.name), 2);
    Write(b, 10, 0, 2);
    Write(b, 12, DosTime(e.mtime), 2);
    Write(b, 14, DosDate(e.mtime), 2);
    Write(b, 16, e.crc, 4);
  }

  method WriteCentralMiddle(b: array<byte>, e: Entry, off: nat)
    requires WellFormed(e) && b.Length >= 46
    modifies b
    ensures b[..32] == CentralMiddle(e, off)
  {
    WriteCentralFront(b, e, off);
    hide Put, Join, CentralFront;
    Limits();
    Write(b, 20, e.size, 4);
    Write(b, 24, e.size, 4);
    Write(b, 28, |e.utf8|, 2);
    Write(b, 30, if off >= SENTINEL32 then 12 else 0, 2);
  }

  method WriteCentralFixed(b: array<byte>, e: Entry, off: nat)
    requires WellFormed(e) && b.Length >= 46
    modifies b
    ensures b[..46] == CentralFixed(e, off)
  {
    WriteCentralMiddle(b, e, off);
    hide Put, Join, CentralMiddle;
    Limits();
    Write(b, 32, 0, 2);
    Write(b, 34, 0, 2);
    Write(b, 36, 0, 2);
    Write(b, 38, 0x81a4_0000, 4);
    Write(b, 42, if off >= SENTINEL32 then SENTINEL32 else off, 4);
  }

  method CentralHeader(e: Entry, off: nat) returns (b: array<byte>)
    requires WellFormed(e) && off < 0x1_0000_0000_0000_0000
    ensures fresh(b) && b[..] == CentralBytes(e, off)
  {
    hide Put, Join, CentralFixed;
    var zip64 := off >= SENTINEL32;
    var n := |e.utf8|;
    b := new byte[46 + n + if zip64 then 12 else 0](_ => 0);
    WriteCentralFixed(b, e, off);
    Copy(e.utf8, b, 46);
    if zip64 {
      WriteExtra(b, 46 + n, off);
    } else {
      assert b[..] == b[..46 + n];
      JoinEmpty(b[..46 + n]);
    }
  }

  lemma JoinEmpty(s: seq<byte>)
    ensures Join(s, []) == s
  {
  }

  /** The last twelve bytes of a central header whose offset does not fit 32 bits. */
  method WriteExtra(b: array<byte>, at: nat, off: nat)
    requires b.Length == at + 12 && FarOffset(off) && off < 0x1_0000_0000_0000_0000
    modifies b
    ensures b[..] == Join(old(b[..at]), ExtraBytes(off))
  {
    hide Put, Join, LE, ExtraBytes;
    Limits();
    ghost var before := b[..at];
    Write(b, at, 0x0001, 2);
    Write(b, at + 2, 8, 2);
    Write(b, at + 4, off, 8);
    assert b[..] == b[..at + 12];
    ExtraAfter(before, off);
  }

  lemma PutJoin(s: seq<byte>, t: seq<byte>, v: nat, w: nat)
    ensures Put(Join(s, t), v, w) == Join(s, Put(t, v, w))
  {
    PutIs(s + t, v, w);
    PutIs(t, v, w);
    assert s + t + LE(v, w) == s + (t + LE(v, w));
  }

  lemma ExtraAfter(s: seq<byte>, off: nat)
    requires FarOffset(off)
    ensures Put(Put(Put(s, 1, 2), 8, 2), off, 8) == Join(s, ExtraBytes(off))
  {
    JoinEmpty(s);
    PutJoin(s, [], 1, 2);
    PutJoin(s, Put([], 1, 2), 8, 2);
    PutJoin(s, Put(Put([], 1, 2), 8, 2), off, 8);
    hide Put, Join;
  }

  method EocdRecord(count: nat, cdSize: nat, cdOff: nat) returns (b: array<byte>)
    ensures fresh(b) && b[..] == EocdBytes(count, cdSize, cdOff)
  {
    hide Put;
    Limits();
    b := new byte[22](_ => 0);
    assert b[..0] == [];
    Write(b, 0, EOCD_SIG, 4);
    Write(b, 4, 0, 2);
    Write(b, 6, 0, 2);
    Write(b, 8, Cap(count, SENTINEL16), 2);
    Write(b, 10, Cap(count, SENTINEL16), 2);
    Write(b, 12, Cap(cdSize, SENTINEL32), 4);
    Write(b, 16, Cap(cdOff, SENTINEL32), 4);
    Write(b, 20, 0, 2);
    assert b[..] == b[..22];
  }

  method Z64Record(count: nat, cdSize: nat, cdOff: nat) returns (b: array<byte>)
    requires count < 0x1_0000_0000_0000_0000 && cdOff + cdSize < 0x1_0000_0000_0000_0000
    ensures fresh(b) && b[..] == Z64Bytes(count, cdSize, cdOff)
  {
    hide Put;
    Limits();
    b := new byte[56](_ => 0);
    assert b[..0] == [];
    Write(b, 0, Z64_SIG, 4);
    Write(b, 4, 44, 8);
    Write(b, 12, MADE_BY, 2);
    Write(b, 14, 45, 2);
    Write(b, 16, 0, 4);
    Write(b, 20, 0, 4);
    Write(b, 24, count, 8);
    Write(b, 32, count, 8);
    Write(b, 40, cdSize, 8);
    Write(b, 48, cdOff, 8);
    assert b[..] == b[..56];
  }

  method Locator(z64Off: nat) returns (b: array<byte>)
    requires z64Off < 0x1_0000_0000_0000_0000
    ensures fresh(b) && b[..] == LocatorBytes(z64Off)
  {
    hide Put;
    Limits();
    b := new byte[20](_ => 0);
    assert b[..0] == [];
    Write(b, 0, LOCATOR_SIG, 4);
    Write(b, 4, 0, 4);
    Write(b, 8, z64Off, 8);
    Write(b, 16, 1, 4);
    assert b[..] == b[..20];
  }

  method EndRecords(count: nat, cdSize: nat, cdOff: nat) returns (bytes: seq<byte>)
    requires count < 0x1_0000_0000_0000_0000 && cdOff + cdSize < 0x1_0000_0000_0000_0000
    ensures bytes == EndBytes(count, cdSize, cdOff)
  {
    hide EocdBytes, Z64Bytes, LocatorBytes;
    var eocd := EocdRecord(count, cdSize, cdOff);
    if !(cdOff >= SENTINEL32 || cdSize >= SENTINEL32 || count >= SENTINEL16) { return eocd[..]; }
    var z64 := Z64Record(count, cdSize, cdOff);
    var loc := Locator(cdOff + cdSize);
    bytes := z64[..] + loc[..] + eocd[..];
  }

  // ---- the layout ------------------------------------------------------------------------------

  /** A segment is literal bytes, or the start of a file on disk. */
  datatype Body = Buf(bytes: seq<byte>) | OnDisk(file: string)

  datatype Segment = Segment(off: nat, len: nat, body: Body)

  datatype Plan = Plan(segments: seq<Segment>, central: seq<byte>, off: nat)

  datatype Layout = Layout(segments: seq<Segment>, entries: seq<Entry>, size: nat)

  function Push(p: Plan, len: nat, body: Body): Plan {
    p.(segments := p.segments + [Segment(p.off, len, body)], off := p.off + len)
  }

  function AddEntry(p: Plan, e: Entry): Plan {
    var lh := LocalBytes(e);
    var q := Push(p, |lh|, Buf(lh));
    var r := if e.size == 0 then q else Push(q, e.size, if e.data.Some? then Buf(e.data.value) else OnDisk(e.name));
    r.(central := p.central + CentralBytes(e, p.off))
  }

  function AddAll(files: seq<Entry>): Plan {
    if files == [] then Plan([], [], 0) else AddEntry(AddAll(files[..|files| - 1]), files[|files| - 1])
  }

  function Tail(p: Plan, count: nat): seq<byte> { p.central + EndBytes(count, |p.central|, p.off) }

  /** The layout of entries already in order. */
  function LayoutOf(files: seq<Entry>): Layout {
    var p := AddAll(files);
    var tail := Tail(p, |files|);
    var q := Push(p, |tail|, Buf(tail));
    Layout(q.segments, files, q.off)
  }

  /** Where the local header of the entry after `files` goes. */
  function OffsetAfter(files: seq<Entry>): nat {
    if files == [] then 0 else
    OffsetAfter(files[..|files| - 1]) + 30 + |files[|files| - 1].utf8| + files[|files| - 1].size
  }

  function DirectoryOf(files: seq<Entry>): seq<byte> {
    if files == [] then [] else
    DirectoryOf(files[..|files| - 1]) + CentralBytes(files[|files| - 1], OffsetAfter(files[..|files| - 1]))
  }

  /** Everything the 64-bit fields must hold. */
  predicate Fits64(files: seq<Entry>) {
    && (forall i :: 0 <= i < |files| ==> WellFormed(files[i]))
    && |files| + OffsetAfter(files) + |DirectoryOf(files)| < 0x1_0000_0000_0000_0000
  }

  lemma {:induction false} AddAllIs(files: seq<Entry>)
    ensures AddAll(files).off == OffsetAfter(files) && AddAll(files).central == DirectoryOf(files)
    decreases |files|
  {
    hide CentralBytes, LocalFixed;
    if files != [] {
      AddAllIs(files[..|files| - 1]);
      LocalLength(files[|files| - 1]);
    }
  }

  lemma LocalLength(e: Entry)
    ensures |LocalBytes(e)| == 30 + |e.utf8|
  {
    hide Put;
  }

  lemma {:induction false} OffsetsGrow(files: seq<Entry>, n: nat)
    requires n <= |files|
    ensures OffsetAfter(files[..n]) <= OffsetAfter(files)
    decreases |files|
  {
    if n < |files| {
      OffsetsGrow(files[..|files| - 1], n);
      assert files[..|files| - 1][..n] == files[..n];
    } else {
      assert files[..n] == files;
    }
  }

  /** The loop over the sorted entries. */
  method BuildLayout(files: seq<Entry>) returns (layout: Layout)
    requires Fits64(files)
    ensures layout == LayoutOf(files)
  {
    hide LocalBytes, CentralBytes, EndBytes;
    var segments: seq<Segment> := [];
    var central: seq<byte> := [];
    var off: nat := 0;
    for n := 0 to |files|
      invariant Plan(segments, central, off) == AddAll(files[..n])
    {
      assert files[..n + 1][..n] == files[..n];
      var e := files[n];
      var localOffset := off;
      AddAllIs(files[..n]);
      OffsetsGrow(files, n);
      var lh := LocalHeader(e);
      segments, off := segments + [Segment(off, lh.Length, Buf(lh[..]))], off + lh.Length;
      if e.size > 0 {
        segments := segments + [Segment(off, e.size, if e.data.Some? then Buf(e.data.value) else OnDisk(e.name))];
        off := off + e.size;
      }
      var ch := CentralHeader(e, localOffset);
      central := central + ch[..];
    }
    assert files[..|files|] == files;
    AddAllIs(files);
    var end := EndRecords(|files|, |central|, off);
    var tail := central + end;
    layout := Layout(segments + [Segment(off, |tail|, Buf(tail))], files, off + |tail|);
  }
}
