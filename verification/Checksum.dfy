/** The Internet checksum of RFC 1071 as section 3.1 of RFC 791 uses it for the IP header. */
module Checksum {
  import opened Bytes

  type uint16 = x: int | 0 <= x < 0x10000

  const WORD: nat := 0x1_0000_0000

  /** The sum of the 16-bit words, the more significant octet first; an odd octet at the end is not
      part of any word. */
  function Sum(h: seq<byte>): nat {
    if |h| < 2 then 0 else h[0] as int * 256 + h[1] as int + Sum(h[2..])
  }

  /** The ones' complement sum: zero only for zero, otherwise the number from 1 to 65535 that is
      the same modulo 65535. */
  function Folded(s: nat): uint16 {
    if s == 0 then 0 else (s - 1) % 65535 + 1
  }

  /** One carry. */
  lemma FoldedCarry(s: nat)
    requires s >= 0x10000
    ensures s % 0x10000 + s / 0x10000 < s && Folded(s % 0x10000 + s / 0x10000) == Folded(s)
  {
    var q := s / 0x10000;
    var t := s % 0x10000 + q;
    assert s == q * 0x10000 + s % 0x10000 && s == t + q * 65535;
    ModShift(t - 1, q);
  }

  lemma {:induction false} ModShift(a: int, q: nat)
    requires a >= 0
    ensures (a + q * 65535) % 65535 == a % 65535
  {
    if q > 0 {
      ModShift(a, q - 1);
      assert (a + q * 65535) == (a + (q - 1) * 65535) + 65535;
    }
  }

  lemma {:induction false} SumConcat(a: seq<byte>, b: seq<byte>)
    requires |a| % 2 == 0
    ensures Sum(a + b) == Sum(a) + Sum(b)
    decreases |a|
  {
    if a == [] {
      assert a + b == b;
    } else {
      assert (a + b)[2..] == a[2..] + b;
      SumConcat(a[2..], b);
    }
  }

  lemma {:induction false} SumBound(h: seq<byte>)
    ensures Sum(h) <= |h| / 2 * 65535
    decreases |h|
  {
    if |h| >= 2 {
      SumBound(h[2..]);
    }
  }

  lemma SumWord(h: seq<byte>, i: nat)
    requires 2 * i + 1 < |h|
    ensures Sum(h[..2 * i + 2]) == Sum(h[..2 * i]) + h[2 * i] as int * 256 + h[2 * i + 1] as int
  {
    var two := [h[2 * i], h[2 * i + 1]];
    assert h[..2 * i + 2] == h[..2 * i] + two;
    SumConcat(h[..2 * i], two);
    assert two[2..] == [];
    assert Sum(two) == h[2 * i] as int * 256 + h[2 * i + 1] as int + Sum([]);
  }

  /** The carries are folded in until none is left. */
  method Fold(s: nat) returns (r: uint16)
    ensures r == Folded(s)
  {
    var sum := s;
    while sum >= 0x10000
      invariant Folded(sum) == Folded(s)
    {
      FoldedCarry(sum);
      sum := sum % 0x10000 + sum / 0x10000;
    }
    r := sum;
  }

  /** The complement of the folded sum. The sum is kept in 32 bits, which is enough for any header
      of up to 65537 words. */
  method HeaderChecksum(h: seq<byte>) returns (c: uint16)
    ensures c == 0xFFFF - Folded(Sum(h) % WORD)
    ensures |h| / 2 <= 65537 ==> c == 0xFFFF - Folded(Sum(h))
  {
    var sum := 0;
    for i := 0 to |h| / 2
      invariant sum == Sum(h[..2 * i]) % WORD
    {
      SumWord(h, i);
      sum := (sum + (h[2 * i] as int * 256 + h[2 * i + 1] as int)) % WORD;
    }
    SumAll(h);
    SumBound(h);
    var f := Fold(sum);
    c := 0xFFFF - f;
  }

  lemma SumAll(h: seq<byte>)
    ensures Sum(h[..|h| / 2 * 2]) == Sum(h)
  {
    var n := |h| / 2 * 2;
    assert h == h[..n] + h[n..];
    SumConcat(h[..n], h[n..]);
  }

  function Stored(h: seq<byte>, k: nat, c: uint16): (r: seq<byte>)
    requires k + 1 < |h|
    ensures |r| == |h|
  {
    h[k := c / 256][k + 1 := c % 256]
  }

  lemma SumStored(h: seq<byte>, k: nat, c: uint16)
    requires k % 2 == 0 && k + 1 < |h| && h[k] == 0 && h[k + 1] == 0
    ensures Sum(Stored(h, k, c)) == Sum(h) + c
  {
    var r := Stored(h, k, c);
    var i := k / 2;
    SumWord(h, i);
    SumWord(r, i);
    assert r[..k] == h[..k];
    assert h == h[..k + 2] + h[k + 2..] && r == r[..k + 2] + r[k + 2..] && r[k + 2..] == h[k + 2..];
    SumConcat(h[..k + 2], h[k + 2..]);
    SumConcat(r[..k + 2], r[k + 2..]);
  }

  /** Stored in a field that was zero, the checksum makes the ones' complement sum of the header
      all ones, which is how a receiver checks it. */
  lemma StoredChecks(h: seq<byte>, k: nat)
    requires k % 2 == 0 && k + 1 < |h| && h[k] == 0 && h[k + 1] == 0
    ensures Folded(Sum(Stored(h, k, 0xFFFF - Folded(Sum(h))))) == 0xFFFF
  {
    var s := Sum(h);
    SumStored(h, k, 0xFFFF - Folded(s));
    Complement(s);
  }

  lemma Complement(s: nat)
    ensures Folded(s + (0xFFFF - Folded(s))) == 0xFFFF
  {
    if s > 0 {
      var q := (s - 1) / 65535;
      assert s == q * 65535 + Folded(s);
      ModShift(65534, q);
    }
  }

  /** And only that value does, apart from the two forms of zero. */
  lemma OnlyThatChecks(h: seq<byte>, k: nat, c: uint16)
    requires k % 2 == 0 && k + 1 < |h| && h[k] == 0 && h[k + 1] == 0
    ensures Folded(Sum(Stored(h, k, c))) == 0xFFFF <==>
            c % 65535 == (0xFFFF - Folded(Sum(h))) % 65535 && Sum(h) + c > 0
  {
    SumStored(h, k, c);
    Congruent(Sum(h), c);
  }

  lemma Congruent(s: nat, c: uint16)
    ensures Folded(s + c) == 0xFFFF <==> c % 65535 == (0xFFFF - Folded(s)) % 65535 && s + c > 0
  {
    if s > 0 {
      var q := (s - 1) / 65535;
      var f := Folded(s) as int;
      assert s == q * 65535 + f;
      ModShift(f + c - 1, q);
    }
  }
}
