/** The repository's reader (web/random-deck.js, `readPackEntry`) on archives of any origin: on every archive
    the strict decoder of `ZipRead` reads, it returns what the decoder's directory says. */
module ZipForeign {
  import opened Wrappers
  import opened Bytes
  import opened ZipPack
  import opened ZipRead
  import opened ZipTheorems

  /** The backward scan stops at the last signature, whatever comment follows the end record. */
  lemma {:induction false} EocdIsLast(tail: seq<byte>, i: int)
    requires i + 22 <= |tail|
    ensures var e := LastEocd(tail, i);
      && (e >= 0 ==> e <= i && U(tail, e, 4) == EOCD_SIG)
      && forall k: nat :: e < k <= i ==> U(tail, k, 4) != EOCD_SIG
    decreases i + 1
  {
    hide U;
    if i >= 0 && U(tail, i, 4) != EOCD_SIG { EocdIsLast(tail, i - 1); }
  }

  /** The bytes of an entry as its directory item describes them: stored, deflated, or not readable. */
  function FoundOf(z: seq<byte>, item: Item): Found {
    match Extract(z, item.localOffset, item.fields.packed)
    case None => Nothing
    case Some(b) => if item.fields.how == 0 then Stored(b) else if item.fields.how == 8 then Deflated(b) else Nothing
  }

  /** The first item whose name is the wanted one. */
  function Pick(z: seq<byte>, items: seq<Item>, want: string, lower: Lowering): Found {
    if items == [] then Nothing
    else if lower(LatinText(items[0].name)) == want then FoundOf(z, items[0])
    else Pick(z, items[1..], want, lower)
  }

  /** None of the records has its offset moved to an extra field. */
  predicate Near(cd: seq<byte>, p: nat, count: nat)
    decreases count
  {
    count > 0 ==> U(cd, p + 42, 4) != SENTINEL32
                  && Near(cd, p + 46 + U(cd, p + 28, 2) + U(cd, p + 30, 2) + U(cd, p + 32, 2), count - 1)
  }

  /** One record, read by both. */
  lemma RecordAgrees(z: seq<byte>, cd: seq<byte>, p: nat)
    requires ItemAt(cd, p).Some? && U(cd, p + 42, 4) != SENTINEL32
    ensures var item := ItemAt(cd, p).value.0;
      && p + 46 <= |cd| && U(cd, p, 4) == CENTRAL_SIG
      && ItemAt(cd, p).value.1 == 46 + U(cd, p + 28, 2) + U(cd, p + 30, 2) + U(cd, p + 32, 2)
      && NameAt(cd, p) == LatinText(item.name) && EntryData(z, cd, p) == FoundOf(z, item)
  {
    hide U, LatinText;
  }

  lemma {:induction false} WalkAgrees(z: seq<byte>, cd: seq<byte>, p: nat, n: nat, count: nat, want: string, lower: Lowering)
    requires ItemsFrom(cd, p, n).Some? && Near(cd, p, n)
    ensures var items := ItemsFrom(cd, p, n).value;
      |items| == n && Walk(z, cd, p, count, want, lower) == Pick(z, if count < n then items[..count] else items, want, lower)
    decreases n
  {
    hide U, LatinText, LowersLatin, EntryData, FoundOf, NameAt, ItemAt;
    if n > 0 {
      RecordAgrees(z, cd, p);
      var q := p + ItemAt(cd, p).value.1;
      WalkAgrees(z, cd, q, n - 1, if count > 0 then count - 1 else 0, want, lower);
      var rest := ItemsFrom(cd, q, n - 1).value;
      assert ItemsFrom(cd, p, n).value == [ItemAt(cd, p).value.0] + rest;
      if 0 < count < n { assert ([ItemAt(cd, p).value.0] + rest)[..count] == [ItemAt(cd, p).value.0] + rest[..count - 1]; }
    }
  }

  lemma EndFields(z: seq<byte>)
    requires EndOf(z).Some?
    ensures |z| >= 22 && U(z, |z| - 22, 4) == EOCD_SIG
    ensures U(z, |z| - 10, 4) != SENTINEL32 ==> EndOf(z).value.1 == U(z, |z| - 10, 4)
    ensures U(z, |z| - 6, 4) != SENTINEL32 ==> EndOf(z).value.2 == U(z, |z| - 6, 4)
  {
    hide U, OneDisk, OneDisk64;
  }

  lemma DecodeIs(z: seq<byte>)
    requires Decode(z).Some?
    ensures var d := Decode(z).value;
      && EndOf(z) == Some((d.count, d.cdSize, d.cdOff)) && d.cdOff + d.cdSize <= |z|
      && ItemsFrom(z[d.cdOff..d.cdOff + d.cdSize], 0, d.count) == Some(d.items)
  {
    hide EndOf, ItemsFrom;
  }

  /** The central directory of a decodable archive. */
  function DirectoryBytes(z: seq<byte>): seq<byte>
    requires Decode(z).Some?
  {
    DecodeIs(z);
    z[Decode(z).value.cdOff..Decode(z).value.cdOff + Decode(z).value.cdSize]
  }

  lemma ReaderStarts(z: seq<byte>, entry: string, lower: Lowering)
    requires |z| >= 22 && U(z, |z| - 22, 4) == EOCD_SIG
    ensures var size, off := U(z, |z| - 10, 4), U(z, |z| - 6, 4);
      ReadEntry(z, entry, lower) == if off == SENTINEL32 || size == SENTINEL32 || off + size > |z| then Nothing
                                    else Walk(z, z[off..off + size], 0, U(z, |z| - 12, 2), lower(entry), lower)
  {
    hide U, Walk, TailOf, LastEocd, LowersLatin;
    TailReads(z);
  }

  /** On every archive the strict decoder reads and whose records hold their own offsets, the reader gives nothing when the
      end record leaves the directory's place to ZIP64, and else the first of the entries the end record counts that has the
      name, by its method. */
  lemma ReaderAgrees(z: seq<byte>, entry: string, lower: Lowering)
    requires Decode(z).Some? && Near(DirectoryBytes(z), 0, Decode(z).value.count)
    ensures var items := Decode(z).value.items; var counted := U(z, |z| - 12, 2);
      |z| >= 22 && ReadEntry(z, entry, lower) ==
        if U(z, |z| - 10, 4) == SENTINEL32 || U(z, |z| - 6, 4) == SENTINEL32 then Nothing
        else Pick(z, if counted < |items| then items[..counted] else items, lower(entry), lower)
  {
    hide U, LatinText, LowersLatin, Pick, Walk, EndOf, ItemsFrom, Near, ReadEntry, Decode;
    DecodeIs(z);
    EndFields(z);
    ReaderStarts(z, entry, lower);
    WalkAgrees(z, DirectoryBytes(z), 0, Decode(z).value.count, U(z, |z| - 12, 2), lower(entry), lower);
  }
}
