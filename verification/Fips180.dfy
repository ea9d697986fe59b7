/** SHA-1 as FIPS PUB 180-1 defines it for messages of whole octets: the functions and constants
  of sections 5 and 6, the padding of section 4 and the computation of section 7.
 */
module Fips180 {
  import opened Bytes

  /** 32-bit words. */
  datatype Word = Word(bits: bv32)

  function And(x: Word, y: Word): Word {
    Word(x.bits & y.bits)
  }

  function Or(x: Word, y: Word): Word {
    Word(x.bits | y.bits)
  }

  function Xor(x: Word, y: Word): Word {
    Word(x.bits ^ y.bits)
  }

  function Not(x: Word): Word {
    Word(!x.bits)
  }

  function Add(x: Word, y: Word): Word {
    Word(x.bits + y.bits)
  }

  /** S^n(x), section 3. */
  function RotL(n: bv32, x: Word): Word
    requires 0 < n < 32
  {
    Word((x.bits << n) | (x.bits >> (32 - n)))
  }

  datatype Regs = Regs(a: Word, b: Word, c: Word, d: Word, e: Word)

  const H0 := Regs(Word(0x67452301), Word(0xEFCDAB89), Word(0x98BADCFE), Word(0x10325476), Word(0xC3D2E1F0))

  function F(t: nat, b: Word, c: Word, d: Word): Word {
    if t < 20 then Or(And(b, c), And(Not(b), d))
    else if t < 40 then Xor(Xor(b, c), d)
    else if t < 60 then Or(Or(And(b, c), And(b, d)), And(c, d))
    else Xor(Xor(b, c), d)
  }

  function K(t: nat): Word {
    if t < 20 then Word(0x5A827999) else if t < 40 then Word(0x6ED9EBA1) else if t < 60 then Word(0x8F1BBCDC)
    else Word(0xCA62C1D6)
  }

  /** The word of four octets, the first the most significant. */
  function WordOf(b0: byte, b1: byte, b2: byte, b3: byte): Word {
    Word((b0 as bv32 << 24) | (b1 as bv32 << 16) | (b2 as bv32 << 8) | (b3 as bv32))
  }

  /** W(t), section 7 (a) and (b). */
  function W(block: seq<byte>, t: nat): Word
    requires |block| == 64
  {
    if t < 16 then WordOf(block[4 * t], block[4 * t + 1], block[4 * t + 2], block[4 * t + 3])
    else NextWord(W(block, t - 3), W(block, t - 8), W(block, t - 14), W(block, t - 16))
  }

  function NextWord(w3: Word, w8: Word, w14: Word, w16: Word): Word {
    RotL(1, Xor(Xor(Xor(w3, w8), w14), w16))
  }

  function Mixed(r: Regs, f: Word, w: Word, k: Word): Word {
    Add(Add(Add(Add(RotL(5, r.a), f), r.e), w), k)
  }

  /** Step t of section 7 (d), with the word of that step. */
  function Step(t: nat, r: Regs, w: Word): Regs {
    Regs(Mixed(r, F(t, r.b, r.c, r.d), w, K(t)), r.a, RotL(30, r.b), r.c, r.d)
  }

  /** W(0) to W(79). */
  function Schedule(block: seq<byte>): (w: seq<Word>)
    requires |block| == 64
    ensures |w| == 80 && (forall t | 0 <= t < 80 :: w[t] == W(block, t))
  {
    seq(80, t requires 0 <= t < 80 => W(block, t))
  }

  /** The registers after one step for each of the words. */
  function Steps(w: seq<Word>, r: Regs): Regs {
    if w == [] then r else
      var t := |w| - 1;
      Step(t, Steps(w[..t], r), w[t])
  }

  function Sum(x: Regs, y: Regs): Regs {
    Regs(Add(x.a, y.a), Add(x.b, y.b), Add(x.c, y.c), Add(x.d, y.d), Add(x.e, y.e))
  }

  /** Processing one block. */
  function Compress(h: Regs, block: seq<byte>): Regs
    requires |block| == 64
  {
    Sum(h, Steps(Schedule(block), h))
  }

  function Absorb(h: Regs, blocks: seq<byte>): Regs
    requires |blocks| % 64 == 0
    decreases |blocks|
  {
    if blocks == [] then h else Absorb(Compress(h, blocks[..64]), blocks[64..])
  }

  function Zeros(n: nat): (z: seq<byte>)
    ensures |z| == n && (forall i | 0 <= i < n :: z[i] == 0)
  {
    seq(n, _ => 0)
  }

  /** The last k octets of a number, the first the most significant. */
  function Octets(n: nat, k: nat): (o: seq<byte>)
    ensures |o| == k
  {
    if k == 0 then [] else Octets(n / 256, k - 1) + [n % 256]
  }

  /** Section 4: a one bit, as few zero bits as bring the length to 448 modulo 512, and the
      length of the message in bits. */
  function Padding(n: nat, length: seq<byte>): (p: seq<byte>)
    requires |length| == 8
    ensures (n + |p|) % 64 == 0
  {
    [0x80] + Zeros((119 - n % 64) % 64) + length
  }

  function DigestWith(m: seq<byte>, length: seq<byte>): Regs
    requires |length| == 8
  {
    Absorb(H0, m + Padding(|m|, length))
  }

  function Digest(m: seq<byte>): Regs {
    DigestWith(m, Octets(8 * |m|, 8))
  }

  lemma {:induction false} AbsorbConcat(h: Regs, x: seq<byte>, y: seq<byte>)
    requires |x| % 64 == 0 && |y| % 64 == 0
    ensures Absorb(h, x + y) == Absorb(Absorb(h, x), y)
    decreases |x|
  {
    if x == [] {
      assert x + y == y;
    } else {
      assert (x + y)[..64] == x[..64] && (x + y)[64..] == x[64..] + y;
      AbsorbConcat(Compress(h, x[..64]), x[64..], y);
    }
  }

  lemma AbsorbBlock(h: Regs, x: seq<byte>, block: seq<byte>)
    requires |x| % 64 == 0 && |block| == 64
    ensures Absorb(h, x + block) == Compress(Absorb(h, x), block)
  {
    AbsorbConcat(h, x, block);
    assert block[..64] == block && block[64..] == [];
  }
}
