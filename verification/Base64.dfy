/** Base64 as the WebSocket handshake uses it, against the 24-bit groups of section 4 of RFC 4648.
 */
module Base64 {
  import opened Bytes

  type sextet = x: int | 0 <= x < 64

  /** The alphabet: A to Z, a to z, 0 to 9, plus and slash. */
  function Digit(v: sextet): char {
    if v < 26 then 'A' + v as char
    else if v < 52 then 'a' + (v - 26) as char
    else if v < 62 then '0' + (v - 52) as char
    else if v == 62 then '+' else '/'
  }

  predicate IsDigit(c: char) {
    'A' <= c <= 'Z' || 'a' <= c <= 'z' || '0' <= c <= '9' || c == '+' || c == '/'
  }

  predicate AllDigits(t: string) {
    forall i | 0 <= i < |t| :: IsDigit(t[i])
  }

  /** The position of a character in the alphabet, cut to eight bits. A character that does not
      occur is at the largest position there is, 255 after the cut. */
  function Find(c: char): (v: byte)
    ensures v < 64 <==> IsDigit(c)
  {
    if 'A' <= c <= 'Z' then c as int - 'A' as int
    else if 'a' <= c <= 'z' then c as int - 'a' as int + 26
    else if '0' <= c <= '9' then c as int - '0' as int + 52
    else if c == '+' then 62 else if c == '/' then 63 else 255
  }

  const UPPER: string := "ABCDEFGHIJKLMNOPQRSTUVWXYZ"
  const LOWER: string := "abcdefghijklmnopqrstuvwxyz"
  const ALPHABET := UPPER + LOWER + "0123456789" + "+/"

  lemma UpperDigit(v: sextet)
    requires v < 26
    ensures Digit(v) == UPPER[v]
  {
  }

  lemma LowerDigit(v: sextet)
    requires 26 <= v < 52
    ensures Digit(v) == LOWER[v - 26]
  {
  }

  /** The characters are those of the 64-character table, in its order. */
  lemma DigitInTable(v: sextet)
    ensures |ALPHABET| == 64 && Digit(v) == ALPHABET[v]
  {
    if v < 26 {
      UpperDigit(v);
    } else if v < 52 {
      LowerDigit(v);
    } else {
      assert ALPHABET[v] == ("0123456789" + "+/")[v - 52];
    }
  }

  lemma FindDigit(v: sextet, c: char)
    ensures IsDigit(Digit(v)) && Digit(v) != '=' && Find(Digit(v)) == v
    ensures IsDigit(c) ==> Find(c) < 64 && Digit(Find(c)) == c
  {
  }

  /** The four values of six bits in three octets, as characters. */
  function GroupText(b0: byte, b1: byte, b2: byte): string {
    [Digit(b0 / 4), Digit(b0 % 4 * 16 + b1 / 16), Digit(b1 % 16 * 4 + b2 / 64), Digit(b2 % 64)]
  }

  /** Whole groups, then one or two octets padded with zero bits and with one equals sign for
      each missing octet. */
  function Encode(b: seq<byte>): string {
    if |b| == 0 then ""
    else if |b| == 1 then GroupText(b[0], 0, 0)[..2] + "=="
    else if |b| == 2 then GroupText(b[0], b[1], 0)[..3] + "="
    else GroupText(b[0], b[1], b[2]) + Encode(b[3..])
  }

  /** The characters up to the first one outside the alphabet. */
  function Text(s: string): (t: string)
    ensures t <= s && AllDigits(t)
    ensures |t| < |s| ==> !IsDigit(s[|t|])
  {
    if s == "" || !IsDigit(s[0]) then "" else [s[0]] + Text(s[1..])
  }

  /** The three octets in four values of six bits. */
  function GroupOctets(v0: sextet, v1: sextet, v2: sextet, v3: sextet): seq<byte> {
    [v0 * 4 + v1 / 16, v1 % 16 * 16 + v2 / 4, v2 % 4 * 64 + v3]
  }

  /** Whole groups of four characters, then as many octets as the characters left over fill. */
  function Octets(t: string): seq<byte>
    requires AllDigits(t)
  {
    if |t| <= 1 then []
    else if |t| == 2 then GroupOctets(Find(t[0]), Find(t[1]), 0, 0)[..1]
    else if |t| == 3 then GroupOctets(Find(t[0]), Find(t[1]), Find(t[2]), 0)[..2]
    else GroupOctets(Find(t[0]), Find(t[1]), Find(t[2]), Find(t[3])) + Octets(t[4..])
  }

  function Decode(s: string): seq<byte> {
    Octets(Text(s))
  }

  // ---------------------------------------------------------------- the loops

  /** The three octets that the decoder computes from four slots, each cut to eight bits. */
  function Triple(c0: int, c1: int, c2: int, c3: int): (s: seq<byte>)
    ensures |s| == 3
  {
    [(c0 * 4 + c1 / 16 % 4) % 256, c1 % 16 * 16 + c2 / 4 % 16, (c2 % 4 * 64 + c3) % 256]
  }

  lemma FirstFits(c0: int, c1: int)
    requires 0 <= c0 < 64 && 0 <= c1 < 64
    ensures (c0 * 4 + c1 / 16 % 4) % 256 == c0 * 4 + c1 / 16
  {
    assert c1 / 16 % 4 == c1 / 16;
  }

  lemma ThirdFits(c2: int, c3: int)
    requires 0 <= c2 < 64 && 0 <= c3 < 64
    ensures c2 / 4 % 16 == c2 / 4 && (c2 % 4 * 64 + c3) % 256 == c2 % 4 * 64 + c3
  {
  }

  lemma TripleFits(c0: int, c1: int, c2: int, c3: int)
    requires 0 <= c0 < 64 && 0 <= c1 < 64
    ensures Triple(c0, c1, c2, c3)[..1] == GroupOctets(c0, c1, 0, 0)[..1]
    ensures 0 <= c2 < 64 ==> Triple(c0, c1, c2, c3)[..2] == GroupOctets(c0, c1, c2, 0)[..2]
    ensures 0 <= c2 < 64 && 0 <= c3 < 64 ==> Triple(c0, c1, c2, c3) == GroupOctets(c0, c1, c2, c3)
  {
    FirstFits(c0, c1);
    if 0 <= c2 < 64 {
      ThirdFits(c2, 0);
      if 0 <= c3 < 64 {
        ThirdFits(c2, c3);
      }
    }
  }

  method AppendDigits(ret: string, c: array<byte>, n: nat) returns (out: string)
    requires c.Length == 4 && n <= 4 && (forall i | 0 <= i < 4 :: c[i] < 64)
    ensures out == ret + [Digit(c[0]), Digit(c[1]), Digit(c[2]), Digit(c[3])][..n]
  {
    out := ret;
    for j := 0 to n
      invariant out == ret + [Digit(c[0]), Digit(c[1]), Digit(c[2]), Digit(c[3])][..j]
    {
      out := out + [Digit(c[j])];
    }
  }

  /** The first n characters of the group in the input slots. */
  method AppendGroup(ret: string, a: array<byte>, c: array<byte>, n: nat) returns (out: string)
    requires a.Length == 3 && c.Length == 4 && a != c && n <= 4
    modifies c
    ensures out == ret + GroupText(a[0], a[1], a[2])[..n]
  {
    c[0] := a[0] / 4;
    c[1] := a[0] % 4 * 16 + a[1] / 16;
    c[2] := a[1] % 16 * 4 + a[2] / 64;
    c[3] := a[2] % 64;
    out := AppendDigits(ret, c, n);
  }

  /** The one or two octets that are left when the input ends. */
  method AppendRest(ret: string, a: array<byte>, c: array<byte>, left: nat) returns (out: string)
    requires a.Length == 3 && c.Length == 4 && a != c && 0 < left < 3
    modifies a, c
    ensures out == ret + Encode(old(a[..left]))
  {
    var i := left;
    ghost var rest := a[..left];
    for j := i to 3
      invariant a[..left] == rest
      invariant forall m | left <= m < j :: a[m] == 0
    {
      a[j] := 0;
    }
    assert a[0] == rest[0] && (left == 2 ==> a[1] == rest[1]);
    out := AppendGroup(ret, a, c, i + 1);
    ghost var text := out;
    while i < 3
      invariant left <= i <= 3
      invariant out == text + "=="[..i - left]
    {
      out := out + "=";
      i := i + 1;
    }
  }

  lemma Start<S, T>(s: seq<S>, t: seq<T>)
    ensures s[0..] == s && [] + t == t
  {
  }

  /** The next octet goes into the input slots; full slots are written out and emptied. */
  method PutOctet(ret: string, a: array<byte>, c: array<byte>, i: nat, x: byte) returns (out: string, n: nat)
    requires a.Length == 3 && c.Length == 4 && a != c && i < 3
    modifies a, c
    ensures i < 2 ==> n == i + 1 && out == ret && a[..n] == old(a[..i]) + [x]
    ensures i == 2 ==> n == 0 && out == ret + GroupText(old(a[0]), old(a[1]), x)
  {
    out := ret;
    a[i] := x;
    n := i + 1;
    if n == 3 {
      out := AppendGroup(ret, a, c, 4);
      n := 0;
    }
  }

  /** What is left to encode while the octets before `k` are being encoded and the last `i` of
      them wait in the slots. */
  lemma EncodeStep(b: seq<byte>, k: nat, i: nat, pending: seq<byte>)
    requires i <= k < |b| && i < 3 && pending == b[k - i..k]
    ensures i < 2 ==> pending + [b[k]] == b[k - i..k + 1]
    ensures i == 2 ==> Encode(b[k - i..]) == GroupText(pending[0], pending[1], b[k]) + Encode(b[k + 1..])
  {
    if i == 2 {
      assert b[k - i..][3..] == b[k + 1..];
    }
  }

  /** `ret` is what the octets before `k` encode to, but for those that wait in the slots. */
  ghost predicate Encoded(b: seq<byte>, k: nat, ret: string, pending: seq<byte>) {
    && |pending| <= k <= |b| && |pending| < 3 && pending == b[k - |pending|..k]
    && Encode(b) == ret + Encode(b[k - |pending|..])
  }

  lemma EncodedMore(b: seq<byte>, k: nat, ret: string, pending: seq<byte>, out: string, next: seq<byte>)
    requires k < |b| && Encoded(b, k, ret, pending)
    requires |pending| < 2 ==> out == ret && next == pending + [b[k]]
    requires |pending| == 2 ==> out == ret + GroupText(pending[0], pending[1], b[k]) && next == []
    ensures Encoded(b, k + 1, out, next)
  {
    EncodeStep(b, k, |pending|, pending);
    if |pending| == 2 {
      Assoc(ret, GroupText(pending[0], pending[1], b[k]), Encode(b[k + 1..]));
    }
  }

  lemma EncodedEnd(b: seq<byte>, ret: string, pending: seq<byte>)
    requires Encoded(b, |b|, ret, pending)
    ensures Encode(b) == ret + Encode(pending)
  {
  }

  /** The loop over the octets, which leaves fewer than three of them in the slots. */
  method EncodeSlots(bytes: seq<byte>, a: array<byte>, c: array<byte>) returns (ret: string, i: nat)
    requires a.Length == 3 && c.Length == 4 && a != c
    modifies a, c
    ensures i < 3 && Encoded(bytes, |bytes|, ret, a[..i])
  {
    ret, i := "", 0;
    Start(bytes, Encode(bytes));
    for k := 0 to |bytes|
      invariant i < 3 && Encoded(bytes, k, ret, a[..i])
    {
      ghost var before, pending := ret, a[..i];
      ret, i := PutOctet(ret, a, c, i, bytes[k]);
      EncodedMore(bytes, k, before, pending, ret, a[..i]);
    }
  }

  method EncodeBytes(bytes: seq<byte>) returns (ret: string)
    ensures ret == Encode(bytes)
  {
    var a := new byte[3];
    var c := new byte[4];
    var i;
    ret, i := EncodeSlots(bytes, a, c);
    EncodedEnd(bytes, ret, a[..i]);
    if i != 0 {
      ret := AppendRest(ret, a, c, i);
    }
  }

  // ---------------------------------------------------------------- decoding

  /** The slots hold characters; each is replaced by its position in the alphabet. */
  method ToValues(t: string, c: array<byte>)
    requires |t| == c.Length == 4
    modifies c
    ensures forall i | 0 <= i < 4 :: c[i] == Find(t[i])
  {
    for i := 0 to 4
      invariant forall m | 0 <= m < i :: c[m] == Find(t[m])
    {
      c[i] := Find(t[i]);
    }
  }

  /** The first n octets of the group in the input slots. */
  method AppendTriple(ret: seq<byte>, t: string, c: array<byte>, a: array<byte>, n: nat) returns (out: seq<byte>)
    requires |t| == c.Length == 4 && a.Length == 3 && a != c && n <= 3
    modifies c, a
    ensures out == ret + Triple(Find(t[0]), Find(t[1]), Find(t[2]), Find(t[3]))[..n]
  {
    ToValues(t, c);
    a[0] := (c[0] as int * 4 + c[1] / 16 % 4) % 256;
    a[1] := c[1] % 16 * 16 + c[2] / 4 % 16;
    a[2] := (c[2] % 4 * 64 + c[3] as int) % 256;
    assert a[..] == Triple(Find(t[0]), Find(t[1]), Find(t[2]), Find(t[3]));
    out := ret;
    for j := 0 to n
      invariant out == ret + a[..j]
    {
      out := out + [a[j]];
    }
  }

  method PutChar(ret: seq<byte>, slots: string, c: array<byte>, a: array<byte>, i: nat, x: char)
    returns (out: seq<byte>, full: string, n: nat)
    requires |slots| == c.Length == 4 && a.Length == 3 && a != c && i < 4
    modifies c, a
    ensures full == slots[i := x]
    ensures i < 3 ==> n == i + 1 && out == ret
    ensures i == 3 ==> n == 0 && out == ret + Triple(Find(slots[0]), Find(slots[1]), Find(slots[2]), Find(x))
  {
    out := ret;
    full := slots[i := x];
    n := i + 1;
    if n == 4 {
      out := AppendTriple(ret, full, c, a, 3);
      n := 0;
    }
  }

  lemma DecodeGroup(t: string, k: nat)
    requires 3 <= k < |t| && AllDigits(t)
    ensures Octets(t[k - 3..]) ==
            Triple(Find(t[k - 3]), Find(t[k - 2]), Find(t[k - 1]), Find(t[k])) + Octets(t[k + 1..])
  {
    var u := t[k - 3..];
    assert u[0] == t[k - 3] && u[1] == t[k - 2] && u[2] == t[k - 1] && u[3] == t[k];
    assert u[4..] == t[k + 1..];
    TripleFits(Find(u[0]), Find(u[1]), Find(u[2]), Find(u[3]));
  }

  lemma DecodeStep(t: string, k: nat, i: nat, slots: string)
    requires i <= k < |t| && i < 4 && |slots| == 4 && slots[..i] == t[k - i..k] && AllDigits(t)
    ensures i < 3 ==> slots[i := t[k]][..i + 1] == t[k - i..k + 1]
    ensures i == 3 ==> Octets(t[k - i..]) ==
                       Triple(Find(slots[0]), Find(slots[1]), Find(slots[2]), Find(t[k])) + Octets(t[k + 1..])
  {
    if i == 3 {
      DecodeGroup(t, k);
      assert slots[0] == slots[..3][0] == t[k - 3] && slots[1] == slots[..3][1] == t[k - 2];
      assert slots[2] == slots[..3][2] == t[k - 1];
    } else {
      assert slots[i := t[k]][..i + 1] == slots[..i] + [t[k]];
    }
  }

  /** The slots that the input did not fill hold a NUL, whose position is 255; no octet that is
      kept depends on them. */
  lemma OctetsRest(t: string, slots: string)
    requires 0 < |t| < 4 && AllDigits(t)
    requires |slots| == 4 && slots[..|t|] == t
    ensures Octets(t) == Triple(Find(slots[0]), Find(slots[1]), Find(slots[2]), Find(slots[3]))[..|t| - 1]
  {
    var c0: int, c1: int, c2: int, c3: int := Find(slots[0]), Find(slots[1]), Find(slots[2]), Find(slots[3]);
    assert t[0] == slots[..|t|][0] == slots[0];
    if |t| >= 2 {
      assert t[1] == slots[..|t|][1] == slots[1];
      TripleFits(c0, c1, c2, c3);
      if |t| == 3 {
        assert t[2] == slots[..|t|][2] == slots[2];
        assert Octets(t) == GroupOctets(c0, c1, c2, 0)[..2];
      } else {
        assert Octets(t) == GroupOctets(c0, c1, 0, 0)[..1];
      }
    } else {
      assert Octets(t) == [];
    }
  }

  /** The one to three characters that are left when the text ends. */
  method DecodeRest(ret: seq<byte>, filled: string, i: nat, c: array<byte>, a: array<byte>) returns (out: seq<byte>)
    requires |filled| == c.Length == 4 && a.Length == 3 && a != c && 0 < i < 4
    requires AllDigits(filled[..i])
    modifies c, a
    ensures out == ret + Octets(filled[..i])
  {
    var slots := filled;
    for j := i to 4
      invariant |slots| == 4 && slots[..i] == filled[..i]
    {
      slots := slots[j := '\0'];
    }
    OctetsRest(filled[..i], slots);
    out := AppendTriple(ret, slots, c, a, i - 1);
  }

  lemma TextAt(s: string, k: nat)
    requires k <= |Text(s)|
    ensures k < |Text(s)| <==> k < |s| && s[k] != '=' && IsDigit(s[k])
  {
  }

  ghost predicate Decoded(t: string, k: nat, ret: seq<byte>, pending: string)
    requires AllDigits(t)
  {
    && |pending| <= k <= |t| && |pending| < 4 && pending == t[k - |pending|..k]
    && Octets(t) == ret + Octets(t[k - |pending|..])
  }

  lemma DecodedMore(t: string, k: nat, ret: seq<byte>, slots: string, i: nat, out: seq<byte>, n: nat)
    requires AllDigits(t)
    requires i < 4 == |slots| && k < |t| && Decoded(t, k, ret, slots[..i])
    requires i < 3 ==> n == i + 1 && out == ret
    requires i == 3 ==> n == 0 && out == ret + Triple(Find(slots[0]), Find(slots[1]), Find(slots[2]), Find(t[k]))
    ensures n < 4 && Decoded(t, k + 1, out, slots[i := t[k]][..n])
  {
    DecodeStep(t, k, i, slots);
    if i == 3 {
      DecodedGroup(t, k, ret, slots[..3], Triple(Find(slots[0]), Find(slots[1]), Find(slots[2]), Find(t[k])));
      assert slots[i := t[k]][..0] == [];
    } else {
      DecodedKeep(t, k, ret, slots[..i], slots[i := t[k]][..i + 1]);
    }
  }

  lemma DecodedKeep(t: string, k: nat, ret: seq<byte>, pending: string, next: string)
    requires AllDigits(t) && k < |t| && Decoded(t, k, ret, pending)
    requires |pending| < 3 && next == t[k - |pending|..k + 1]
    ensures Decoded(t, k + 1, ret, next)
  {
  }

  lemma DecodedGroup(t: string, k: nat, ret: seq<byte>, pending: string, o: seq<byte>)
    requires AllDigits(t) && k < |t| && Decoded(t, k, ret, pending) && |pending| == 3
    requires Octets(t[k - 3..]) == o + Octets(t[k + 1..])
    ensures Decoded(t, k + 1, ret + o, "")
  {
    Assoc(ret, o, Octets(t[k + 1..]));
  }

  lemma DecodedEnd(t: string, ret: seq<byte>, pending: string)
    requires AllDigits(t)
    requires Decoded(t, |t|, ret, pending)
    ensures AllDigits(pending) && Octets(t) == ret + Octets(pending)
  {
  }

  method DecodeString(s: string) returns (ret: seq<byte>)
    ensures ret == Decode(s)
  {
    ret := [];
    var i: nat, k: nat := 0, 0;
    var slots := seq(4, _ => '\0');
    var c := new byte[4];
    var a := new byte[3];
    ghost var t := Text(s);
    Start(t, Octets(t));
    assert Decoded(t, 0, ret, slots[..0]);
    TextAt(s, k);
    while k < |s| && s[k] != '=' && IsDigit(s[k])
      invariant k <= |t| && i < 4 == |slots|
      invariant k < |t| <==> k < |s| && s[k] != '=' && IsDigit(s[k])
      invariant Decoded(t, k, ret, slots[..i])
    {
      ghost var before, slots0, i0 := ret, slots, i;
      ret, slots, i := PutChar(ret, slots, c, a, i, s[k]);
      DecodedMore(t, k, before, slots0, i0, ret, i);
      k := k + 1;
      TextAt(s, k);
    }
    DecodedEnd(t, ret, slots[..i]);
    if i != 0 {
      ret := DecodeRest(ret, slots, i, c, a);
    }
  }

  // ---------------------------------------------------------------- what the encoding is

  /** The four characters of a group are, as six-bit values in a row, the same 24-bit number as
      its three octets in a row (section 4 of RFC 4648). */
  lemma SameNumber(b0: byte, b1: byte, b2: byte)
    ensures var t := GroupText(b0, b1, b2);
            Find(t[0]) as int * 0x40000 + Find(t[1]) as int * 0x1000 + Find(t[2]) as int * 64 + Find(t[3]) ==
            b0 as int * 0x10000 + b1 as int * 0x100 + b2
  {
    FindDigit(b0 / 4, '=');
    FindDigit(b0 % 4 * 16 + b1 / 16, '=');
    FindDigit(b1 % 16 * 4 + b2 / 64, '=');
    FindDigit(b2 % 64, '=');
  }

  lemma GroupDigits(b0: byte, b1: byte, b2: byte)
    ensures var t := GroupText(b0, b1, b2);
            AllDigits(t) && Find(t[0]) == b0 / 4 && Find(t[1]) == b0 % 4 * 16 + b1 / 16 &&
            Find(t[2]) == b1 % 16 * 4 + b2 / 64 && Find(t[3]) == b2 % 64
  {
    FindDigit(b0 / 4, '=');
    FindDigit(b0 % 4 * 16 + b1 / 16, '=');
    FindDigit(b1 % 16 * 4 + b2 / 64, '=');
    FindDigit(b2 % 64, '=');
  }

  lemma ValuesBack(b0: int, b1: int)
    requires 0 <= b0 < 256 && 0 <= b1 < 256
    ensures (b0 % 4 * 16 + b1 / 16) / 16 == b0 % 4 && (b0 % 4 * 16 + b1 / 16) % 16 == b1 / 16
    ensures (b1 % 16 * 4 + b0 / 64) / 4 == b1 % 16 && (b1 % 16 * 4 + b0 / 64) % 4 == b0 / 64
  {
  }

  lemma GroupBack(b0: byte, b1: byte, b2: byte)
    ensures GroupOctets(b0 / 4, b0 % 4 * 16 + b1 / 16, b1 % 16 * 4 + b2 / 64, b2 % 64) == [b0, b1, b2]
  {
    ValuesBack(b0, b1);
    ValuesBack(b2, b1);
  }

  lemma {:induction false} TextConcat(d: string, x: string)
    requires AllDigits(d)
    ensures Text(d + x) == d + Text(x)
  {
    if d == "" {
      assert d + x == x;
    } else {
      assert (d + x)[1..] == d[1..] + x;
      TextConcat(d[1..], x);
    }
  }

  /** Decoding undoes encoding. */
  lemma {:induction false} RoundTrip(b: seq<byte>)
    ensures Decode(Encode(b)) == b
  {
    if |b| == 1 {
      assert b == [b[0]];
      RoundTripOne(b[0]);
    } else if |b| == 2 {
      assert b == [b[0], b[1]];
      RoundTripTwo(b[0], b[1]);
    } else if |b| >= 3 {
      assert b == [b[0], b[1], b[2]] + b[3..];
      RoundTripGroup(b[0], b[1], b[2], Encode(b[3..]));
      RoundTrip(b[3..]);
    }
  }

  lemma RoundTripOne(b0: byte)
    ensures Decode(GroupText(b0, 0, 0)[..2] + "==") == [b0]
  {
    GroupDigits(b0, 0, 0);
    GroupBack(b0, 0, 0);
    TextConcat(GroupText(b0, 0, 0)[..2], "==");
  }

  lemma RoundTripTwo(b0: byte, b1: byte)
    ensures Decode(GroupText(b0, b1, 0)[..3] + "=") == [b0, b1]
  {
    GroupDigits(b0, b1, 0);
    GroupBack(b0, b1, 0);
    TextConcat(GroupText(b0, b1, 0)[..3], "=");
  }

  lemma RoundTripGroup(b0: byte, b1: byte, b2: byte, x: string)
    ensures Decode(GroupText(b0, b1, b2) + x) == [b0, b1, b2] + Decode(x)
  {
    var t := GroupText(b0, b1, b2);
    GroupDigits(b0, b1, b2);
    GroupBack(b0, b1, b2);
    TextConcat(t, x);
    assert (t + Text(x))[4..] == Text(x);
  }

  /** Groups of four characters; the last one may end in equals signs if the bits they stand for
      are zero. */
  predicate Canonical(s: string) {
    if |s| < 4 then s == ""
    else if |s| == 4 && s[3] == '=' then
      if s[2] == '=' then AllDigits(s[..2]) && Find(s[1]) % 16 == 0 else AllDigits(s[..3]) && Find(s[2]) % 4 == 0
    else AllDigits(s[..4]) && Canonical(s[4..])
  }

  lemma {:induction false} EncodeCanonical(b: seq<byte>)
    ensures Canonical(Encode(b))
  {
    if |b| == 1 {
      GroupDigits(b[0], 0, 0);
    } else if |b| == 2 {
      GroupDigits(b[0], b[1], 0);
    } else if |b| >= 3 {
      var t := GroupText(b[0], b[1], b[2]);
      GroupDigits(b[0], b[1], b[2]);
      assert Encode(b)[..4] == t && Encode(b)[4..] == Encode(b[3..]);
      EncodeCanonical(b[3..]);
    }
  }

  lemma ValuesForth(v0: int, v1: int, v2: int)
    requires 0 <= v0 < 64 && 0 <= v1 < 64 && 0 <= v2 < 64
    ensures (v0 * 4 + v1 / 16) / 4 == v0 && (v0 * 4 + v1 / 16) % 4 == v1 / 16
    ensures (v1 % 16 * 16 + v2 / 4) / 16 == v1 % 16 && (v1 % 16 * 16 + v2 / 4) % 16 == v2 / 4
    ensures (v1 % 4 * 64 + v2) / 64 == v1 % 4 && (v1 % 4 * 64 + v2) % 64 == v2
  {
  }

  lemma OctetsValues(v0: sextet, v1: sextet, v2: sextet, v3: sextet)
    ensures var o := GroupOctets(v0, v1, v2, v3);
            GroupText(o[0], o[1], o[2]) == [Digit(v0), Digit(v1), Digit(v2), Digit(v3)]
  {
    ValuesForth(v0, v1, v2);
    ValuesForth(v0, v2, v3);
    var o := GroupOctets(v0, v1, v2, v3);
    assert o[0] / 4 == v0;
    assert o[0] % 4 * 16 + o[1] / 16 == v1;
    assert o[1] % 16 * 4 + o[2] / 64 == v2;
    assert o[2] % 64 == v3;
  }

  lemma DigitsBack(t: string)
    requires |t| == 4 && AllDigits(t)
    ensures var o := GroupOctets(Find(t[0]), Find(t[1]), Find(t[2]), Find(t[3]));
            GroupText(o[0], o[1], o[2]) == t
  {
    OctetsValues(Find(t[0]), Find(t[1]), Find(t[2]), Find(t[3]));
    FindDigit(0, t[0]);
    FindDigit(0, t[1]);
    FindDigit(0, t[2]);
    FindDigit(0, t[3]);
  }

  lemma DecodeOne(t: string)
    requires |t| == 2 && AllDigits(t)
    ensures Decode(t + "==") == GroupOctets(Find(t[0]), Find(t[1]), 0, 0)[..1]
  {
    TextConcat(t, "==");
    assert t + Text("==") == t;
  }

  lemma CanonicalOne(t: string)
    requires |t| == 2 && AllDigits(t) && Find(t[1]) % 16 == 0
    ensures Encode(Decode(t + "==")) == t + "=="
  {
    var o := GroupOctets(Find(t[0]), Find(t[1]), 0, 0);
    DecodeOne(t);
    assert o[1] == 0 && o[2] == 0 && o[..1] == [o[0]];
    DigitsBack(t + "AA");
    assert GroupText(o[0], 0, 0)[..2] == t;
  }

  lemma DecodeTwo(t: string)
    requires |t| == 3 && AllDigits(t)
    ensures Decode(t + "=") == GroupOctets(Find(t[0]), Find(t[1]), Find(t[2]), 0)[..2]
  {
    TextConcat(t, "=");
    assert t + Text("=") == t;
  }

  lemma CanonicalTwo(t: string)
    requires |t| == 3 && AllDigits(t) && Find(t[2]) % 4 == 0
    ensures Encode(Decode(t + "=")) == t + "="
  {
    var o := GroupOctets(Find(t[0]), Find(t[1]), Find(t[2]), 0);
    DecodeTwo(t);
    assert o[2] == 0 && o[..2] == [o[0], o[1]];
    DigitsBack(t + "A");
    assert GroupText(o[0], o[1], 0)[..3] == t;
  }

  lemma CanonicalGroup(t: string, x: string)
    requires |t| == 4 && AllDigits(t)
    ensures Encode(Decode(t + x)) == t + Encode(Decode(x))
  {
    TextConcat(t, x);
    DigitsBack(t);
    assert (t + Text(x))[4..] == Text(x);
    var o := GroupOctets(Find(t[0]), Find(t[1]), Find(t[2]), Find(t[3]));
    assert (o + Decode(x))[3..] == Decode(x);
  }

  lemma {:induction false} CanonicalBack(s: string)
    requires Canonical(s)
    ensures Encode(Decode(s)) == s
  {
    if |s| == 4 && s[3] == '=' && s[2] == '=' {
      assert s == s[..2] + "==";
      CanonicalOne(s[..2]);
    } else if |s| == 4 && s[3] == '=' {
      assert s == s[..3] + "=";
      CanonicalTwo(s[..3]);
    } else if |s| >= 4 {
      assert s == s[..4] + s[4..];
      CanonicalGroup(s[..4], s[4..]);
      CanonicalBack(s[4..]);
    }
  }

  /** Encoding undoes decoding exactly on canonical text. */
  lemma CanonicalExactly(s: string)
    ensures Encode(Decode(s)) == s <==> Canonical(s)
  {
    EncodeCanonical(Decode(s));
    if Canonical(s) {
      CanonicalBack(s);
    }
  }
}
