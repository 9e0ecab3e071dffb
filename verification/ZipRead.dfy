/** Two readers of ZIP archives. `Decode` follows PKWARE's APPNOTE (4.3.7, 4.3.12, 4.3.14 to 4.3.16,
    4.5.3) for archives on one disk without a comment, ZIP64 included; `ReadPackEntry` is the repository's own
    reader of one entry (web/random-deck.js, `readPackEntry`), which leaves ZIP64 alone. */
module ZipRead {
  import opened Wrappers
  import opened Bytes
  import opened ZipPack

  // ---- the reference decoder -------------------------------------------------------------------

  /** The 22 bytes local headers and directory records have in common: version needed, general purpose flags, method,
      DOS time and date, checksum, and the compressed and the plain size. */
  datatype Fields = Fields(needed: nat, flags: nat, how: nat, time: nat, date: nat, crc: nat, packed: nat, size: nat)

  function FieldsAt(s: seq<byte>, at: nat): Fields {
    Fields(U(s, at, 2), U(s, at + 2, 2), U(s, at + 4, 2), U(s, at + 6, 2), U(s, at + 8, 2), U(s, at + 10, 4), U(s, at + 14, 4), U(s, at + 18, 4))
  }

  /** What the central directory says of one entry. */
  datatype Item = Item(name: seq<byte>, madeBy: nat, fields: Fields, internal: nat, external: nat, localOffset: nat)

  /** 4.3.7: what a local header says of its entry, and where the data starts. */
  datatype Local = Local(name: seq<byte>, fields: Fields, data: nat)

  function LocalAt(z: seq<byte>, off: nat): Option<Local> {
    if off + 30 > |z| || U(z, off, 4) != LOCAL_SIG then None else
    var n, x := U(z, off + 26, 2), U(z, off + 28, 2);
    if off + 30 + n + x > |z| then None
    else Some(Local(z[off + 30..off + 30 + n], FieldsAt(z, off + 4), off + 30 + n + x))
  }

  datatype Directory = Directory(count: nat, cdSize: nat, cdOff: nat, items: seq<Item>)

  /** 4.5.3: the 64-bit offset out of a list of extra fields, when both sizes stand in their own slots. */
  function Zip64Offset(extra: seq<byte>): Option<nat> {
    if |extra| < 4 then None else
    var id, n := U(extra, 0, 2), U(extra, 2, 2);
    if |extra| < 4 + n then None
    else if id == 1 then (if n >= 8 then Some(U(extra, 4, 8)) else None)
    else Zip64Offset(extra[4 + n..])
  }

  /** 4.3.12: the record at a position, and how long it is. */
  function ItemAt(cd: seq<byte>, p: nat): Option<(Item, nat)> {
    if p + 46 > |cd| || U(cd, p, 4) != CENTRAL_SIG || U(cd, p + 34, 2) != 0 then None else
    var n, x, c := U(cd, p + 28, 2), U(cd, p + 30, 2), U(cd, p + 32, 2);
    if p + 46 + n + x + c > |cd| then None else
    var slot := U(cd, p + 42, 4);
    var off := if slot == SENTINEL32 then Zip64Offset(cd[p + 46 + n..p + 46 + n + x]) else Some(slot);
    if off.None? then None
    else Some((Item(cd[p + 46..p + 46 + n], U(cd, p + 4, 2), FieldsAt(cd, p + 6), U(cd, p + 36, 2), U(cd, p + 38, 4), off.value), 46 + n + x + c))
  }

  function ItemsFrom(cd: seq<byte>, p: nat, count: nat): Option<seq<Item>>
    decreases count
  {
    if count == 0 then (if p == |cd| then Some([]) else None) else
    match ItemAt(cd, p)
    case None => None
    case Some(r) =>
      var rest := ItemsFrom(cd, p + r.1, count - 1);
      if rest.None? then None else Some([r.0] + rest.value)
  }

  /** The end record is of an archive on one disk without a comment. */
  predicate OneDisk(z: seq<byte>, e: nat) {
    U(z, e + 4, 2) == 0 && U(z, e + 6, 2) == 0 && U(z, e + 8, 2) == U(z, e + 10, 2) && U(z, e + 20, 2) == 0
  }

  /** So are the zip64 record, which has no extensible data, and its locator. */
  predicate OneDisk64(z: seq<byte>, r: nat, l: nat) {
    && U(z, r + 4, 8) == 44 && U(z, r + 16, 4) == 0 && U(z, r + 20, 4) == 0 && U(z, r + 24, 8) == U(z, r + 32, 8)
    && U(z, l + 4, 4) == 0 && U(z, l + 16, 4) == 1
  }

  /** 4.3.14 to 4.3.16: count, directory size and directory offset; a sentinel sends the reader to the
      zip64 record through the locator. */
  function EndOf(z: seq<byte>): Option<(nat, nat, nat)> {
    if |z| < 22 || U(z, |z| - 22, 4) != EOCD_SIG || !OneDisk(z, |z| - 22) then None else
    var e := |z| - 22;
    var count, size, off := U(z, e + 10, 2), U(z, e + 12, 4), U(z, e + 16, 4);
    if count != SENTINEL16 && size != SENTINEL32 && off != SENTINEL32 then Some((count, size, off)) else
    if e < 20 || U(z, e - 20, 4) != LOCATOR_SIG then None else
    var z64 := U(z, e - 12, 8);
    if z64 + 56 > |z| || U(z, z64, 4) != Z64_SIG || U(z, z64 + 14, 2) != 45 || !OneDisk64(z, z64, e - 20) then None else
    Some((if count == SENTINEL16 then U(z, z64 + 32, 8) else count,
          if size == SENTINEL32 then U(z, z64 + 40, 8) else size,
          if off == SENTINEL32 then U(z, z64 + 48, 8) else off))
  }

  function Decode(z: seq<byte>): Option<Directory> {
    match EndOf(z)
    case None => None
    case Some(e) =>
      if e.2 + e.1 > |z| then None else
      var items := ItemsFrom(z[e.2..e.2 + e.1], 0, e.0);
      if items.None? then None else Some(Directory(e.0, e.1, e.2, items.value))
  }

  /** 4.3.7: the stored bytes behind the local header at an offset. */
  function Extract(z: seq<byte>, off: nat, size: nat): Option<seq<byte>> {
    var l := LocalAt(z, off);
    if l.None? || l.value.data + size > |z| then None else Some(z[l.value.data..l.value.data + size])
  }

  // ---- the repository's reader -----------------------------------------------------------------

  /** `buf.toString("latin1")`: each byte is a character. */
  function LatinText(s: seq<byte>): (r: string)
    ensures |r| == |s| && forall i :: 0 <= i < |s| ==> r[i] == s[i] as char
  {
    seq(|s|, i requires 0 <= i < |s| => s[i] as char)
  }

  predicate IsLatin(s: string) { forall i :: 0 <= i < |s| ==> s[i] as int < 0x100 }

  predicate IsAscii(s: string) { forall i :: 0 <= i < |s| ==> s[i] as int < 0x80 }

  function LatinLowerChar(c: char): char {
    if 'A' <= c <= 'Z' || ('\U{C0}' <= c <= '\U{DE}' && c != '\U{D7}') then (c as int + 32) as char else c
  }

  function LatinLower(s: string): (r: string)
    ensures |r| == |s| && forall i :: 0 <= i < |s| ==> r[i] == LatinLowerChar(s[i])
  {
    seq(|s|, i requires 0 <= i < |s| => LatinLowerChar(s[i]))
  }

  /** What the reader needs of `toLowerCase`: on latin1 text it is the usual one, and when it changes a length there
      is a character beyond latin1 in the result (as the combining dot of a lower-cased U+0130). */
  ghost predicate LowersLatin(lower: string -> string) {
    && (forall s :: IsLatin(s) ==> lower(s) == LatinLower(s))
    && (forall s :: |lower(s)| == |s| || !IsLatin(lower(s)))
  }

  type Lowering = f: string -> string | LowersLatin(f) witness LatinLower

  /** `Buffer.from(s, "utf8")`. */
  function Utf8Char(c: char): seq<byte> {
    var n := c as int;
    if n < 0x80 then [n]
    else if n < 0x800 then [0xC0 + n / 0x40, 0x80 + n % 0x40]
    else if n < 0x1_0000 then [0xE0 + n / 0x1000, 0x80 + n / 0x40 % 0x40, 0x80 + n % 0x40]
    else [0xF0 + n / 0x4_0000, 0x80 + n / 0x1000 % 0x40, 0x80 + n / 0x40 % 0x40, 0x80 + n % 0x40]
  }

  function Utf8(s: string): seq<byte> { if s == "" then [] else Utf8Char(s[0]) + Utf8(s[1..]) }

  /** The reader's null, or the stored bytes, or compressed bytes for the inflater. */
  datatype Found = Nothing | Stored(bytes: seq<byte>) | Deflated(bytes: seq<byte>)

  /** The last end record at or before position i of the tail, -1 without one. */
  function LastEocd(tail: seq<byte>, i: int): (e: int)
    requires i + 22 <= |tail|
    ensures e == -1 || 0 <= e <= i
    decreases i + 1
  {
    if i < 0 then -1 else if U(tail, i, 4) == EOCD_SIG then i else LastEocd(tail, i - 1)
  }

  /** The data of a directory entry found at p. */
  function EntryData(z: seq<byte>, cd: seq<byte>, p: nat): Found {
    var method_, comp, off := U(cd, p + 10, 2), U(cd, p + 20, 4), U(cd, p + 42, 4);
    if method_ != 0 && method_ != 8 then Nothing
    else if off + 30 > |z| || U(z, off, 4) != LOCAL_SIG then Nothing
    else
      var data := off + 30 + U(z, off + 26, 2) + U(z, off + 28, 2);
      if data + comp > |z| then Nothing
      else if method_ == 0 then Stored(z[data..data + comp]) else Deflated(z[data..data + comp])
  }

  /** The name of the record at p, clipped to the directory like `toString` clips it. */
  function NameAt(cd: seq<byte>, p: nat): string
    requires p + 46 <= |cd|
  {
    var end := p + 46 + U(cd, p + 28, 2);
    LatinText(cd[p + 46..if end <= |cd| then end else |cd|])
  }

  /** The walk over `count` directory records from p. */
  function Walk(z: seq<byte>, cd: seq<byte>, p: nat, count: nat, want: string, lower: Lowering): Found
    decreases count
  {
    if count == 0 || p + 46 > |cd| || U(cd, p, 4) != CENTRAL_SIG then Nothing
    else if lower(NameAt(cd, p)) == want then EntryData(z, cd, p)
    else Walk(z, cd, p + 46 + U(cd, p + 28, 2) + U(cd, p + 30, 2) + U(cd, p + 32, 2), count - 1, want, lower)
  }

  function TailOf(z: seq<byte>): seq<byte> { if |z| <= 22 + 0xffff then z else z[|z| - (22 + 0xffff)..] }

  function ReadEntry(z: seq<byte>, entry: string, lower: Lowering): Found {
    var tail := TailOf(z);
    var e := LastEocd(tail, |tail| - 22);
    if e < 0 then Nothing else
    var count, cdSize, cdOff := U(tail, e + 10, 2), U(tail, e + 12, 4), U(tail, e + 16, 4);
    if cdOff == SENTINEL32 || cdSize == SENTINEL32 || cdOff + cdSize > |z| then Nothing
    else Walk(z, z[cdOff..cdOff + cdSize], 0, count, lower(entry), lower)
  }

  /** The backward scan for the end record. */
  method FindEocd(tail: seq<byte>) returns (eocd: int)
    ensures eocd == LastEocd(tail, |tail| - 22)
  {
    hide U;
    var i := |tail| - 22;
    while i >= 0
      invariant i + 22 <= |tail| && LastEocd(tail, |tail| - 22) == LastEocd(tail, i)
    {
      if U(tail, i, 4) == EOCD_SIG { return i; }
      i := i - 1;
    }
    return -1;
  }

  /** The forward walk over the directory. */
  method WalkDirectory(z: seq<byte>, cd: seq<byte>, count: nat, want: string, lower: Lowering) returns (found: Found)
    ensures found == Walk(z, cd, 0, count, want, lower)
  {
    hide U, NameAt, EntryData;
    var p: nat := 0;
    for n := 0 to count
      invariant Walk(z, cd, 0, count, want, lower) == Walk(z, cd, p, count - n, want, lower)
    {
      if p + 46 > |cd| || U(cd, p, 4) != CENTRAL_SIG { break; }
      if lower(NameAt(cd, p)) == want { return EntryData(z, cd, p); }
      p := p + 46 + U(cd, p + 28, 2) + U(cd, p + 30, 2) + U(cd, p + 32, 2);
    }
    return Nothing;
  }

  /** The source's reader, on a file's bytes and the name the caller asks for. */
  method ReadPackEntry(z: seq<byte>, entry: string, lower: Lowering) returns (found: Found)
    ensures found == ReadEntry(z, entry, lower)
  {
    hide U, Walk, LastEocd;
    var want := lower(entry);
    var tailLen := if |z| < 22 + 0xffff then |z| else 22 + 0xffff;
    var tail := z[|z| - tailLen..];
    assert tail == TailOf(z);
    var eocd := FindEocd(tail);
    if eocd < 0 { return Nothing; }
    var count, cdSize, cdOff := U(tail, eocd + 10, 2), U(tail, eocd + 12, 4), U(tail, eocd + 16, 4);
    if cdOff == SENTINEL32 || cdSize == SENTINEL32 { return Nothing; }
    if cdOff + cdSize > |z| { return Nothing; }
    found := WalkDirectory(z, z[cdOff..cdOff + cdSize], count, want, lower);
  }
}
