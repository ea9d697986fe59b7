/** Decimal numbers and delimited fields as the standard library's streams and conversion functions
  write and read them.
 */
module TextFields {

  datatype Option<T> = None | Some(value: T)

  // ---------------------------------------------------------------- numbers

  predicate IsDigit(c: char) {
    '0' <= c <= '9'
  }

  predicate AllDigits(s: string) {
    forall i | 0 <= i < |s| :: IsDigit(s[i])
  }

  function Digit(d: nat): char
    requires d < 10
  {
    '0' + d as char
  }

  function Digits(n: nat): string {
    if n < 10 then [Digit(n)] else Digits(n / 10) + [Digit(n % 10)]
  }

  /** What an output stream writes for a number. */
  function Print(n: int): string {
    if n < 0 then "-" + Digits(-n) else Digits(n)
  }

  function Value(s: string): nat
    requires AllDigits(s)
  {
    if s == "" then 0 else Value(s[..|s| - 1]) * 10 + (s[|s| - 1] as int - '0' as int)
  }

  predicate IsSpace(c: char) {
    c == ' ' || '\t' <= c <= '\r'
  }

  function SkipSpaces(s: string): string {
    if s != "" && IsSpace(s[0]) then SkipSpaces(s[1..]) else s
  }

  function LeadingDigits(s: string): (d: string)
    ensures AllDigits(d) && d <= s
  {
    if s != "" && IsDigit(s[0]) then [s[0]] + LeadingDigits(s[1..]) else ""
  }

  function ReadDigits(s: string): Option<int> {
    var d := LeadingDigits(s);
    if d == "" then None else Some(Value(d))
  }

  function Negated(n: Option<int>): Option<int> {
    if n.None? then None else Some(-n.value)
  }

  /** White space, a sign, digits; what follows is ignored. Nothing without a digit. */
  function ReadNumber(s: string): Option<int> {
    var t := SkipSpaces(s);
    if t == "" then None
    else if t[0] == '-' then Negated(ReadDigits(t[1..]))
    else if t[0] == '+' then ReadDigits(t[1..])
    else ReadDigits(t)
  }

  /** stoi and stoll: a number out of range is an error. */
  function ReadWithin(s: string, lo: int, hi: int): Option<int> {
    var n := ReadNumber(s);
    if n.None? || !(lo <= n.value <= hi) then None else n
  }

  type int32 = x: int | -0x8000_0000 <= x <= 0x7FFF_FFFF
  type int64 = x: int | -0x8000_0000_0000_0000 <= x <= 0x7FFF_FFFF_FFFF_FFFF
  type uint64 = x: int | 0 <= x <= 0xFFFF_FFFF_FFFF_FFFF

  function ReadInt32(s: string): Option<int32> {
    ReadWithin(s, -0x8000_0000, 0x7FFF_FFFF)
  }

  function ReadInt64(s: string): Option<int64> {
    ReadWithin(s, -0x8000_0000_0000_0000, 0x7FFF_FFFF_FFFF_FFFF)
  }

  /** stoull: a minus sign negates modulo 2^64. */
  function ReadUint64(s: string): Option<uint64> {
    var n := ReadWithin(s, -0xFFFF_FFFF_FFFF_FFFF, 0xFFFF_FFFF_FFFF_FFFF);
    if n.Some? && n.value < 0 then Some(n.value + 0x1_0000_0000_0000_0000) else n
  }

  lemma {:induction false} DigitsRead(n: nat)
    ensures AllDigits(Digits(n)) && Digits(n) != "" && Value(Digits(n)) == n
  {
    if n >= 10 {
      DigitsRead(n / 10);
      var s := Digits(n);
      assert s[..|s| - 1] == Digits(n / 10) && s[|s| - 1] == Digit(n % 10);
    } else {
      assert Digits(n)[..0] == "";
    }
  }

  lemma {:induction false} LeadingAll(d: string)
    requires AllDigits(d)
    ensures LeadingDigits(d) == d
  {
    if d != "" {
      LeadingAll(d[1..]);
      assert d == [d[0]] + d[1..];
    }
  }

  /** A printed number reads back. */
  lemma PrintRead(n: int)
    ensures ReadNumber(Print(n)) == Some(n)
  {
    var m := if n < 0 then -n else n;
    DigitsRead(m);
    LeadingAll(Digits(m));
    assert ReadDigits(Digits(m)) == Some(m);
    if n < 0 {
      assert Print(n)[1..] == Digits(m);
    } else {
      assert IsDigit(Digits(n)[0]);
    }
  }

  /** No printed number holds a delimiter. */
  /** Numbers are decimal. */
  lemma PrintExamples()
    ensures Print(3) == "3" && Print(1700) == "1700" && Print(-29) == "-29"
  {
    assert Digits(1) == "1";
    assert Digits(17) == "1" + "7";
    assert Digits(170) == "17" + "0";
    assert Digits(1700) == "170" + "0";
    assert Digits(2) == "2";
    assert Digits(29) == "2" + "9";
  }

  lemma {:induction false} SkipAll(spaces: string, t: string)
    requires (forall c <- spaces :: IsSpace(c)) && (t != "" ==> !IsSpace(t[0]))
    ensures SkipSpaces(spaces + t) == t
  {
    if spaces == "" {
      assert spaces + t == t;
    } else {
      assert (spaces + t)[1..] == spaces[1..] + t;
      SkipAll(spaces[1..], t);
    }
  }

  lemma {:induction false} LeadingStops(d: string, rest: string)
    requires AllDigits(d) && (rest != "" ==> !IsDigit(rest[0]))
    ensures LeadingDigits(d + rest) == d
  {
    if d == "" {
      assert d + rest == rest;
    } else {
      assert (d + rest)[1..] == d[1..] + rest && IsDigit(d[0]);
      LeadingStops(d[1..], rest);
    }
  }

  lemma ReadSkips(spaces: string, t: string)
    requires (forall c <- spaces :: IsSpace(c)) && t != "" && !IsSpace(t[0])
    ensures ReadNumber(spaces + t) == ReadNumber(t)
  {
    SkipAll(spaces, t);
    SkipAll("", t);
    assert "" + t == t;
  }

  lemma ReadSigned(sign: char, t: string)
    requires sign == '+' || sign == '-'
    ensures ReadNumber([sign] + t) == if sign == '-' then Negated(ReadDigits(t)) else ReadDigits(t)
  {
    assert ([sign] + t)[1..] == t;
  }

  lemma ReadPlain(t: string)
    requires t != "" && IsDigit(t[0])
    ensures ReadNumber(t) == ReadDigits(t)
  {
  }

  lemma DigitsMean(d: string, rest: string)
    requires d != "" && AllDigits(d) && (rest != "" ==> !IsDigit(rest[0]))
    ensures ReadDigits(d + rest) == Some(Value(d)) && IsDigit((d + rest)[0])
  {
    LeadingStops(d, rest);
    assert IsDigit(d[0]);
  }

  /** White space and a sign may stand before the digits, and anything but a digit behind them. */
  lemma ReadMeans(spaces: string, t: string)
    requires (forall c <- spaces :: IsSpace(c)) && t != "" && IsDigit(t[0])
    ensures ReadNumber(spaces + t) == ReadDigits(t) == ReadNumber(spaces + (['+'] + t))
    ensures ReadNumber(spaces + (['-'] + t)) == Negated(ReadDigits(t))
  {
    ReadSkips(spaces, t);
    ReadSkips(spaces, ['+'] + t);
    ReadSkips(spaces, ['-'] + t);
    ReadPlain(t);
    ReadSigned('+', t);
    ReadSigned('-', t);
  }

  lemma PrintPlain(n: int, c: char)
    requires !IsDigit(c) && c != '-'
    ensures c !in Print(n)
  {
    DigitsRead(if n < 0 then -n else n);
  }

  // ---------------------------------------------------------------- fields

  /** What is before the first delimiter, or everything. */
  function Before(s: string, d: char): (t: string)
    ensures t <= s && d !in t
    ensures |t| < |s| ==> s[|t|] == d
    ensures d !in s ==> t == s
  {
    if s == "" || s[0] == d then "" else [s[0]] + Before(s[1..], d)
  }

  function After(s: string, d: char): string {
    var n := |Before(s, d)|;
    if n < |s| then s[n + 1..] else ""
  }

  lemma {:induction false} WhatIsBefore(s: string, d: char, n: nat)
    requires n <= |s| && d !in s[..n] && (n < |s| ==> s[n] == d)
    ensures Before(s, d) == s[..n]
  {
    if n > 0 {
      assert s[..n] == [s[0]] + s[1..][..n - 1];
      WhatIsBefore(s[1..], d, n - 1);
    }
  }

  lemma BeforeAfter(t: string, d: char, u: string)
    requires d !in t
    ensures Before(t + [d] + u, d) == t && After(t + [d] + u, d) == u
  {
    assert (t + [d] + u)[..|t|] == t;
    WhatIsBefore(t + [d] + u, d, |t|);
    assert (t + [d] + u)[|t| + 1..] == u;
  }

  /** An input stream over a string. Reading up to a delimiter fails only at the end. */
  class Stream {
    var rest: string

    constructor (s: string)
      ensures rest == s
    {
      rest := s;
    }

    method GetLine(d: char) returns (ok: bool, token: string)
      modifies this
      ensures ok == (old(rest) != "") && token == Before(old(rest), d) && rest == After(old(rest), d)
    {
      ok := rest != "";
      var n := 0;
      while n < |rest| && rest[n] != d
        invariant n <= |rest| && d !in rest[..n]
      {
        n := n + 1;
      }
      token := rest[..n];
      WhatIsBefore(rest, d, n);
      rest := if n < |rest| then rest[n + 1..] else "";
    }
  }
}
