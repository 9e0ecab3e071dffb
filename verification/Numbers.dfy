/** Decimal numerals as JavaScript prints and reads them. */
module Numbers {
  import opened Wrappers
  import opened Text

  function DigitChar(d: nat): char
    requires d < 10
  {
    '0' + d as char
  }

  function DigitValue(c: char): (d: nat)
    requires IsDigit(c)
    ensures d < 10
  {
    (c - '0') as nat
  }

  function ToDec(n: nat): (s: string)
    ensures s != "" && forall i :: 0 <= i < |s| ==> IsDigit(s[i])
  {
    if n < 10 then [DigitChar(n)] else ToDec(n / 10) + [DigitChar(n % 10)]
  }

  /** `String(n)` for an integer. */
  function ShowInt(n: int): string { if n < 0 then "-" + ToDec(-n) else ToDec(n) }

  /** The number of digits at the start of s. */
  function DigitRun(s: string): (n: nat)
    ensures n <= |s| && forall i :: 0 <= i < n ==> IsDigit(s[i])
    ensures n < |s| ==> !IsDigit(s[n])
  {
    if s != "" && IsDigit(s[0]) then 1 + DigitRun(s[1..]) else 0
  }

  function DecValue(s: string): nat
    requires forall i :: 0 <= i < |s| ==> IsDigit(s[i])
  {
    if s == "" then 0 else DecValue(s[..|s| - 1]) * 10 + DigitValue(s[|s| - 1])
  }

  function ParseDigits(s: string): Option<int> {
    if DigitRun(s) == 0 then None else Some(DecValue(s[..DigitRun(s)]))
  }

  /** `parseInt(s, 10)`, with None for NaN. */
  function ParseInt(s: string): Option<int> {
    var t := TrimLeft(s);
    var negative := t != "" && t[0] == '-';
    var digits := ParseDigits(if negative || (t != "" && t[0] == '+') then t[1..] else t);
    if digits.None? then None else Some(if negative then -digits.value else digits.value)
  }

  lemma {:induction false} ReadToDec(n: nat)
    ensures DecValue(ToDec(n)) == n
  {
    if n >= 10 {
      ReadToDec(n / 10);
      var s := ToDec(n);
      assert s[..|s| - 1] == ToDec(n / 10);
    }
  }

  lemma ParseToDec(n: nat)
    ensures ParseDigits(ToDec(n)) == Some(n)
  {
    ReadToDec(n);
    var s := ToDec(n);
    assert DigitRun(s) == |s| && s[..|s|] == s;
  }

  lemma TrimDigits(s: string)
    requires s != "" && (IsDigit(s[0]) || s[0] == '-')
    ensures TrimLeft(s) == s
  {
  }

  /** Reading a printed integer gives it back. */
  lemma ParseShown(n: int)
    ensures ParseInt(ShowInt(n)) == Some(n)
  {
    var s := ShowInt(n);
    TrimDigits(s);
    ParseToDec(if n < 0 then -n else n);
    hide ToDec, ParseDigits, TrimLeft;
    if n < 0 { assert s[1..] == ToDec(-n); }
  }

  // ---- any text -----------------------------------------------------------------------------------

  predicate IsSign(sign: string) { sign == "" || sign == "+" || sign == "-" }

  predicate AllDigits(d: string) { d != "" && forall i :: 0 <= i < |d| ==> IsDigit(d[i]) }

  /** White space, a sign, digits, and a rest that does not start with one. */
  predicate Numeral(s: string, w: string, sign: string, d: string, rest: string) {
    && s == w + (sign + (d + rest)) && (forall i :: 0 <= i < |w| ==> IsSpace(w[i]))
    && IsSign(sign) && AllDigits(d) && (rest != "" ==> !IsDigit(rest[0]))
  }

  function SignOf(t: string): string { if t != "" && (t[0] == '-' || t[0] == '+') then [t[0]] else "" }

  lemma ParseIntBy(s: string)
    ensures var t := TrimLeft(s); var sign := SignOf(t); var v := ParseDigits(t[|sign|..]);
      ParseInt(s) == if v.None? then None else Some(if sign == "-" then -v.value else v.value)
  {
    hide TrimLeft, ParseDigits;
  }

  lemma SignIs(sign: string, d: string, rest: string)
    requires IsSign(sign) && AllDigits(d)
    ensures var t := sign + (d + rest);
      SignOf(t) == sign && t[|sign|..] == d + rest && t != "" && !IsSpace(t[0])
  {
  }

  /** A text that starts with a number reads as that number, whatever follows it. */
  lemma ParseIntIs(s: string, w: string, sign: string, d: string, rest: string)
    requires Numeral(s, w, sign, d, rest)
    ensures ParseInt(s) == Some(if sign == "-" then 0 - DecValue(d) else DecValue(d))
  {
    hide TrimLeft, DecValue, ParseDigits, ParseInt, SignOf, AllDigits, IsSign;
    SignIs(sign, d, rest);
    TrimLeftIs(w, sign + (d + rest));
    ParseIntBy(s);
    DigitsAre(d, rest);
  }

  lemma DigitsAre(d: string, rest: string)
    requires AllDigits(d) && (rest != "" ==> !IsDigit(rest[0]))
    ensures ParseDigits(d + rest) == Some(DecValue(d))
  {
    hide DecValue, DigitRun;
    DigitRunIs(d, rest);
    assert (d + rest)[..|d|] == d;
  }

  lemma {:induction false} TrimLeftIs(w: string, t: string)
    requires (forall i :: 0 <= i < |w| ==> IsSpace(w[i])) && t != "" && !IsSpace(t[0])
    ensures TrimLeft(w + t) == t
  {
    if w != "" {
      assert (w + t)[1..] == w[1..] + t;
      TrimLeftIs(w[1..], t);
    } else {
      assert w + t == t;
    }
  }

  lemma {:induction false} DigitRunIs(d: string, rest: string)
    requires (forall i :: 0 <= i < |d| ==> IsDigit(d[i])) && (rest != "" ==> !IsDigit(rest[0]))
    ensures DigitRun(d + rest) == |d|
  {
    if d != "" {
      assert (d + rest)[1..] == d[1..] + rest;
      DigitRunIs(d[1..], rest);
    } else {
      assert d + rest == rest;
    }
  }

  lemma DigitsOf(u: string) returns (d: string, rest: string)
    requires ParseDigits(u).Some?
    ensures u == d + rest && AllDigits(d) && (rest != "" ==> !IsDigit(rest[0]))
  {
    hide DigitRun, DecValue;
    d, rest := u[..DigitRun(u)], u[DigitRun(u)..];
  }

  /** Only such a text is a number. */
  lemma NumberStarts(s: string) returns (w: string, sign: string, d: string, rest: string)
    requires ParseInt(s).Some?
    ensures Numeral(s, w, sign, d, rest)
  {
    hide TrimLeft, ParseDigits, ParseInt, AllDigits;
    ParseIntBy(s);
    w := SpacesBefore(s);
    var t := TrimLeft(s);
    sign := SignOf(t);
    d, rest := DigitsOf(t[|sign|..]);
    assert sign + t[|sign|..] == t;
  }

  lemma {:induction false} SpacesBefore(s: string) returns (w: string)
    ensures s == w + TrimLeft(s) && forall i :: 0 <= i < |w| ==> IsSpace(w[i])
  {
    if s != "" && IsSpace(s[0]) {
      var v := SpacesBefore(s[1..]);
      w := [s[0]] + v;
    } else {
      w := "";
    }
  }
}
