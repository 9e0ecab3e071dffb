/** Little-endian fields in byte sequences, and Node's in-place Buffer writes. */
module Bytes {

  type byte = x: int | 0 <= x < 0x100

  /** 256 to the w. */
  function Limit(w: nat): (r: nat)
    ensures r > 0
  {
    if w == 0 then 1 else 0x100 * Limit(w - 1)
  }

  function LE(v: nat, w: nat): (s: seq<byte>)
    ensures |s| == w
  {
    if w == 0 then [] else [v % 0x100] + LE(v / 0x100, w - 1)
  }

  function Value(s: seq<byte>): nat {
    if s == [] then 0 else s[0] + 0x100 * Value(s[1..])
  }

  /** Splitting off the low byte. */
  lemma DivLimit(v: nat, w: nat)
    requires w > 0 && v < Limit(w)
    ensures v / 0x100 < Limit(w - 1) && v == v % 0x100 + 0x100 * (v / 0x100)
  {
  }

  /** Reading a field gives back the value written, when it fits. */
  lemma {:induction false} ValueOfLE(v: nat, w: nat)
    requires v < Limit(w)
    ensures Value(LE(v, w)) == v
  {
    if w > 0 {
      DivLimit(v, w);
      ValueOfLE(v / 0x100, w - 1);
      assert LE(v, w)[1..] == LE(v / 0x100, w - 1);
    }
  }

  lemma Limits()
    ensures Limit(2) == 0x1_0000 && Limit(4) == 0x1_0000_0000 && Limit(8) == 0x1_0000_0000_0000_0000
  {
    assert Limit(1) == 0x100;
    assert Limit(3) == 0x100_0000;
    assert Limit(5) == 0x100_0000_0000;
    assert Limit(6) == 0x1_0000_0000_0000;
    assert Limit(7) == 0x100_0000_0000_0000;
  }

  /** The w-byte unsigned field of s at an offset. */
  function U(s: seq<byte>, off: nat, w: nat): nat {
    if off + w <= |s| then Value(s[off..off + w]) else 0
  }

  /** s with one more field. Fields before it read as they did, and the new one reads back. */
  function Put(s: seq<byte>, v: nat, w: nat): (r: seq<byte>)
    ensures |r| == |s| + w
    ensures forall off: nat, n: nat {:trigger U(r, off, n)} :: off + n <= |s| ==> U(r, off, n) == U(s, off, n)
    ensures v < Limit(w) ==> U(r, |s|, w) == v
    ensures r[..|s|] == s
  {
    var r := s + LE(v, w);
    assert v < Limit(w) ==> U(r, |s|, w) == v by {
      if v < Limit(w) { ValueOfLE(v, w); assert r[|s|..|s| + w] == LE(v, w); }
    }
    assert forall off: nat, n: nat {:trigger U(r, off, n)} :: off + n <= |s| ==> U(r, off, n) == U(s, off, n) by {
      forall off: nat, n: nat | off + n <= |s| ensures U(r, off, n) == U(s, off, n) {
        assert r[off..off + n] == s[off..off + n];
      }
    }
    r
  }

  /** Concatenation, with what it does to fields on either side. */
  function Join(s: seq<byte>, t: seq<byte>): (r: seq<byte>)
    ensures r == s + t
    ensures forall off: nat, n: nat {:trigger U(r, off, n)} :: off + n <= |s| ==> U(r, off, n) == U(s, off, n)
    ensures forall off: nat, n: nat {:trigger U(t, off, n)} :: off + n <= |t| ==> U(r, |s| + off, n) == U(t, off, n)
  {
    var r := s + t;
    assert forall off: nat, n: nat {:trigger U(r, off, n)} :: off + n <= |s| ==> U(r, off, n) == U(s, off, n) by {
      forall off: nat, n: nat | off + n <= |s| ensures U(r, off, n) == U(s, off, n) {
        assert r[off..off + n] == s[off..off + n];
      }
    }
    assert forall off: nat, n: nat {:trigger U(t, off, n)} :: off + n <= |t| ==> U(r, |s| + off, n) == U(t, off, n) by {
      forall off: nat, n: nat | off + n <= |t| ensures U(r, |s| + off, n) == U(t, off, n) {
        assert r[|s| + off..|s| + off + n] == t[off..off + n];
      }
    }
    r
  }

  /** A field inside a slice is the field of the whole at the shifted offset. */
  lemma USlice(s: seq<byte>, from: nat, upto: nat, off: nat, n: nat)
    requires from <= upto <= |s| && off + n <= upto - from
    ensures U(s[from..upto], off, n) == U(s, from + off, n)
  {
    var a, b := s[from..upto][off..off + n], s[from + off..from + off + n];
    assert |a| == |b| && forall k :: 0 <= k < n ==> a[k] == b[k];
    assert a == b;
  }

  /** `b.writeUIntLE` of w bytes: Node refuses a value that does not fit. Everything before the field is
      kept, so consecutive writes at increasing offsets build up a prefix. */
  method Write(b: array<byte>, off: nat, v: nat, w: nat)
    requires off + w <= b.Length && v < Limit(w)
    modifies b
    ensures b[..off + w] == Put(old(b[..off]), v, w)
    ensures b[off + w..] == old(b[off + w..])
  {
    var rest := v;
    ghost var field := LE(v, w);
    for i := 0 to w
      invariant b[..off] == old(b[..off]) && b[off + w..] == old(b[off + w..])
      invariant LE(rest, w - i) == field[i..]
      invariant forall k :: 0 <= k < i ==> b[off + k] == field[k]
    {
      assert field[i] == LE(rest, w - i)[0];
      assert field[i + 1..] == field[i..][1..];
      b[off + i] := rest % 0x100;
      rest := rest / 0x100;
    }
    assert b[off..off + w] == field;
    assert b[..off + w] == b[..off] + b[off..off + w];
    PutIs(old(b[..off]), v, w);
  }

  lemma PutIs(s: seq<byte>, v: nat, w: nat)
    ensures Put(s, v, w) == s + LE(v, w)
  {
  }

  /** `name.copy(b, off)`. */
  method Copy(name: seq<byte>, b: array<byte>, off: nat)
    requires off + |name| <= b.Length
    modifies b
    ensures b[..off + |name|] == Join(old(b[..off]), name)
    ensures b[off + |name|..] == old(b[off + |name|..])
  {
    ghost var before := b[..off];
    for i := 0 to |name|
      invariant b[..off] == before && b[off + |name|..] == old(b[off + |name|..])
      invariant b[off..off + i] == name[..i]
    {
      b[off + i] := name[i];
    }
    assert b[..off + |name|] == before + name;
  }
}
