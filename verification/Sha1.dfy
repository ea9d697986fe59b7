/** The streaming hash object. Its state after any number of `Input` calls is that of the one
  message they make up.
 */
module Sha1 {
  import opened Bytes
  import opened Fips180

  const LIMIT: nat := 0x2000_0000_0000_0000    // 2^61 octets are 2^64 bits
  const MASK: nat := 0x1_0000_0000

  /** From the sixteenth on, every word comes from four earlier ones. */
  predicate NextAt(w: seq<Word>, t: nat)
    requires 16 <= t < |w|
  {
    w[t] == NextWord(w[t - 3], w[t - 8], w[t - 14], w[t - 16])
  }

  predicate Recurrent(w: seq<Word>, n: nat)
    requires n <= |w|
  {
    forall t: nat | 16 <= t < n :: NextAt(w, t)
  }

  /** The first sixteen are the octets of the block. */
  predicate OctetsAt(w: seq<Word>, b: seq<byte>, t: nat)
    requires t < |w| && t < 16 && |b| == 64
  {
    w[t] == WordOf(b[4 * t], b[4 * t + 1], b[4 * t + 2], b[4 * t + 3])
  }

  predicate Loaded(w: seq<Word>, b: seq<byte>, n: nat)
    requires n <= |w| && n <= 16 && |b| == 64
  {
    forall t: nat | t < n :: OctetsAt(w, b, t)
  }

  lemma {:induction false} RecurrentIsW(w: seq<Word>, b: seq<byte>, t: nat)
    requires t < |w| == 80 && |b| == 64 && Loaded(w, b, 16) && Recurrent(w, 80)
    ensures w[t] == W(b, t)
  {
    if t < 16 {
      assert OctetsAt(w, b, t);
    } else {
      assert NextAt(w, t);
      RecurrentIsW(w, b, t - 3);
      RecurrentIsW(w, b, t - 8);
      RecurrentIsW(w, b, t - 14);
      RecurrentIsW(w, b, t - 16);
    }
  }

  lemma PrefixLoaded(v: seq<Word>, w: seq<Word>, b: seq<byte>, n: nat)
    requires n <= |v| && n <= |w| && n <= 16 && |b| == 64 && v[..n] == w[..n] && Loaded(v, b, n)
    ensures Loaded(w, b, n)
  {
    forall t: nat | t < n ensures OctetsAt(w, b, t) {
      assert OctetsAt(v, b, t) && v[t] == v[..n][t] == w[..n][t] == w[t];
    }
  }

  lemma PrefixRecurrent(v: seq<Word>, w: seq<Word>, n: nat)
    requires n <= |v| && n <= |w| && v[..n] == w[..n] && Recurrent(v, n)
    ensures Recurrent(w, n)
  {
    forall t: nat | 16 <= t < n ensures NextAt(w, t) {
      assert forall i | 0 <= i < n :: v[i] == v[..n][i] == w[..n][i] == w[i];
      assert NextAt(v, t);
    }
  }

  method Load(b: seq<byte>, w: array<Word>)
    requires |b| == 64 && w.Length == 80
    modifies w
    ensures Loaded(w[..], b, 16)
  {
    for t := 0 to 16
      invariant Loaded(w[..], b, t)
    {
      ghost var before := w[..];
      w[t] := WordOf(b[t * 4], b[t * 4 + 1], b[t * 4 + 2], b[t * 4 + 3]);
      PrefixLoaded(before, w[..], b, t);
      assert OctetsAt(w[..], b, t);
    }
  }

  method Extend(w: array<Word>)
    requires w.Length == 80
    modifies w
    ensures w[..16] == old(w[..16]) && Recurrent(w[..], 80)
  {
    for t := 16 to 80
      invariant w[..16] == old(w[..16])
      invariant Recurrent(w[..], t)
    {
      ghost var before := w[..];
      w[t] := NextWord(w[t - 3], w[t - 8], w[t - 14], w[t - 16]);
      assert w[..16] == before[..16];
      PrefixRecurrent(before, w[..], t);
      assert NextAt(w[..], t);
    }
  }

  method Expand(b: seq<byte>) returns (ws: seq<Word>)
    requires |b| == 64
    ensures ws == Schedule(b)
  {
    var w := new Word[80](_ => Word(0));
    Load(b, w);
    ghost var loaded := w[..];
    Extend(w);
    ws := w[..];
    PrefixLoaded(loaded, ws, b, 16);
    forall t | 0 <= t < 80 ensures ws[t] == W(b, t) {
      RecurrentIsW(ws, b, t);
    }
  }

  /** The bodies of the four loops of ProcessMessageBlock. */
  function Round0(r: Regs, w: Word): Regs {
    Regs(Mixed(r, Or(And(r.b, r.c), And(Not(r.b), r.d)), w, Word(0x5A827999)), r.a, RotL(30, r.b), r.c, r.d)
  }

  function Round20(r: Regs, w: Word): Regs {
    Regs(Mixed(r, Xor(Xor(r.b, r.c), r.d), w, Word(0x6ED9EBA1)), r.a, RotL(30, r.b), r.c, r.d)
  }

  function Round40(r: Regs, w: Word): Regs {
    Regs(Mixed(r, Or(Or(And(r.b, r.c), And(r.b, r.d)), And(r.c, r.d)), w, Word(0x8F1BBCDC)),
         r.a, RotL(30, r.b), r.c, r.d)
  }

  function Round60(r: Regs, w: Word): Regs {
    Regs(Mixed(r, Xor(Xor(r.b, r.c), r.d), w, Word(0xCA62C1D6)), r.a, RotL(30, r.b), r.c, r.d)
  }

  /** They are the steps of the standard. */
  function Round(t: nat, r: Regs, w: Word): Regs {
    if t < 20 then Round0(r, w) else if t < 40 then Round20(r, w) else if t < 60 then Round40(r, w) else Round60(r, w)
  }

  lemma StepsMore(w: seq<Word>, h: Regs, t: nat)
    requires t < |w| == 80
    ensures Steps(w[..t + 1], h) == Round(t, Steps(w[..t], h), w[t])
  {
    assert w[..t + 1][..t] == w[..t];
  }

  /** The eighty steps on a schedule. */
  method Rounds(w: seq<Word>, h: Regs) returns (r: Regs)
    requires |w| == 80
    ensures r == Steps(w, h)
  {
    r := h;
    for t := 0 to 20
      invariant r == Steps(w[..t], h)
    {
      StepsMore(w, h, t);
      r := Round0(r, w[t]);
    }
    for t := 20 to 40
      invariant r == Steps(w[..t], h)
    {
      StepsMore(w, h, t);
      r := Round20(r, w[t]);
    }
    for t := 40 to 60
      invariant r == Steps(w[..t], h)
    {
      StepsMore(w, h, t);
      r := Round40(r, w[t]);
    }
    for t := 60 to 80
      invariant r == Steps(w[..t], h)
    {
      StepsMore(w, h, t);
      r := Round60(r, w[t]);
    }
    assert w[..80] == w;
  }

  /** The length of a message of n octets in bits, as the two length words. */
  predicate Counts(high: nat, low: nat, n: nat) {
    high < MASK && low < MASK && high * 0x1_0000_0000 + low == 8 * n
  }

  /** One octet more: the low word wraps into the high word and that one wraps exactly when the
      message reaches 2^61 octets. */
  lemma CountsMore(high: nat, low: nat, n: nat)
    requires Counts(high, low, n)
    ensures low + 8 < MASK ==> Counts(high, low + 8, n + 1) && n + 1 < LIMIT
    ensures low + 8 >= MASK ==> low + 8 == MASK
    ensures low + 8 == MASK && high + 1 < MASK ==> Counts(high + 1, 0, n + 1) && n + 1 < LIMIT
    ensures low + 8 == MASK && high + 1 == MASK ==> n + 1 == LIMIT
  {
  }

  lemma CountsLimit(high: nat, low: nat, n: nat)
    requires Counts(high, low, n)
    ensures n < LIMIT
  {
  }

  lemma FourOctets(n: nat, k: nat)
    ensures Octets(n, k + 4) ==
            Octets(n / 256 / 256 / 256 / 256, k) +
            [n / 256 / 256 / 256 % 256, n / 256 / 256 % 256, n / 256 % 256, n % 256]
  {
    var n1, n2, n3 := n / 256, n / 256 / 256, n / 256 / 256 / 256;
    assert Octets(n, k + 4) == Octets(n1, k + 3) + [n % 256];
    assert Octets(n1, k + 3) == Octets(n2, k + 2) + [n1 % 256];
    assert Octets(n2, k + 2) == Octets(n3, k + 1) + [n2 % 256];
    assert Octets(n3, k + 1) == Octets(n3 / 256, k) + [n3 % 256];
    Chain(Octets(n3 / 256, k), n3 % 256, n2 % 256, n1 % 256, n % 256);
  }

  lemma Chain(o: seq<byte>, a: byte, b: byte, c: byte, d: byte)
    ensures o + [a] + [b] + [c] + [d] == o + [a, b, c, d]
  {
  }

  lemma OneOctet(a: nat, b: nat)
    ensures (a * 256 + b) / 256 == a + b / 256 && (a * 256 + b) % 256 == b % 256
  {
  }

  lemma TwoWords(high: nat, low: nat)
    requires low < MASK
    ensures var n := high * 0x1_0000_0000 + low;
            && n % 256 == low % 256 && n / 256 % 256 == low / 256 % 256
            && n / 256 / 256 % 256 == low / 256 / 256 % 256
            && n / 256 / 256 / 256 % 256 == low / 256 / 256 / 256 % 256 && n / 256 / 256 / 256 / 256 == high
  {
    OneOctet(high * 0x1000000, low);
    OneOctet(high * 0x10000, low / 256);
    OneOctet(high * 0x100, low / 256 / 256);
    OneOctet(high, low / 256 / 256 / 256);
  }

  lemma SmallDivisors(n: nat)
    ensures n / 256 / 256 == n / 0x10000 && n / 256 / 256 / 256 == n / 0x1000000
  {
  }

  /** The block buffer holds what the absorbed blocks leave over of the message. */
  predicate Tracks(m: seq<byte>, h: Regs, rest: seq<byte>) {
    && |rest| == |m| % 64
    && m[|m| - |rest|..] == rest
    && h == Absorb(H0, m[..|m| - |rest|])
  }

  lemma TracksMore(m: seq<byte>, h: Regs, rest: seq<byte>, x: byte)
    requires Tracks(m, h, rest)
    ensures |rest| < 63 ==> Tracks(m + [x], h, rest + [x])
    ensures |rest| == 63 ==> Tracks(m + [x], Compress(h, rest + [x]), [])
  {
    var whole := m[..|m| - |rest|];
    assert m == whole + rest;
    assert m + [x] == whole + (rest + [x]);
    if |rest| == 63 {
      AbsorbBlock(H0, whole, rest + [x]);
      assert (m + [x])[..|m| + 1] == m + [x];
    } else {
      assert (m + [x])[..|whole|] == whole;
    }
  }

  /** Padding that fits the last block, and padding that spills over into one more. */
  function LastBlock(rest: seq<byte>, length: seq<byte>): (b: seq<byte>)
    requires |rest| <= 55 && |length| == 8
    ensures |b| == 64
  {
    rest + [0x80] + Zeros(55 - |rest|) + length
  }

  function FullBlock(rest: seq<byte>): (b: seq<byte>)
    requires 55 < |rest| < 64
    ensures |b| == 64
  {
    rest + [0x80] + Zeros(63 - |rest|)
  }

  function LengthBlock(length: seq<byte>): (b: seq<byte>)
    requires |length| == 8
    ensures |b| == 64
  {
    Zeros(56) + length
  }

  lemma PaddedOne(m: seq<byte>, whole: seq<byte>, rest: seq<byte>, length: seq<byte>)
    requires m == whole + rest && |rest| == |m| % 64 <= 55 && |length| == 8
    ensures m + Padding(|m|, length) == whole + LastBlock(rest, length)
  {
    assert (119 - |rest|) % 64 == 55 - |rest|;
  }

  lemma PaddedTwo(m: seq<byte>, whole: seq<byte>, rest: seq<byte>, length: seq<byte>)
    requires m == whole + rest && |rest| == |m| % 64 > 55 && |length| == 8
    ensures m + Padding(|m|, length) == whole + FullBlock(rest) + LengthBlock(length)
  {
    assert (119 - |rest|) % 64 == 119 - |rest|;
    assert Zeros(119 - |rest|) == Zeros(63 - |rest|) + Zeros(56);
  }

  lemma DigestOne(m: seq<byte>, h: Regs, rest: seq<byte>, length: seq<byte>)
    requires Tracks(m, h, rest) && |rest| <= 55 && |length| == 8
    ensures DigestWith(m, length) == Compress(h, LastBlock(rest, length))
  {
    var whole := m[..|m| - |rest|];
    PaddedOne(m, whole, rest, length);
    AbsorbBlock(H0, whole, LastBlock(rest, length));
  }

  lemma DigestTwo(m: seq<byte>, h: Regs, rest: seq<byte>, length: seq<byte>)
    requires Tracks(m, h, rest) && |rest| > 55 && |length| == 8
    ensures DigestWith(m, length) == Compress(Compress(h, FullBlock(rest)), LengthBlock(length))
  {
    var whole := m[..|m| - |rest|];
    PaddedTwo(m, whole, rest, length);
    AbsorbBlock(H0, whole, FullBlock(rest));
    AbsorbBlock(H0, whole + FullBlock(rest), LengthBlock(length));
  }

  /** The two length words, each the most significant octet first. */
  predicate IsLength(length: seq<byte>, high: nat, low: nat) {
    length == [high / 0x1000000 % 256, high / 0x10000 % 256, high / 0x100 % 256, high % 256,
               low / 0x1000000 % 256, low / 0x10000 % 256, low / 0x100 % 256, low % 256]
  }

  lemma LengthIsOctets(length: seq<byte>, high: nat, low: nat, n: nat)
    requires IsLength(length, high, low) && Counts(high, low, n)
    ensures length == Octets(8 * n, 8)
  {
    TwoWords(high, low);
    FourOctets(8 * n, 4);
    FourOctets(high, 0);
    SmallDivisors(high);
    SmallDivisors(low);
  }

  class Sha1 {
    var h: Regs
    var lengthLow: nat
    var lengthHigh: nat
    var block: array<byte>
    var index: nat
    var computed: bool
    var corrupted: bool
    /** What has been put in since the last Reset. */
    ghost var message: seq<byte>

    ghost predicate Valid()
      reads this, block
    {
      && block.Length == 64
      && (computed && !corrupted ==> h == Digest(message))
      && (!computed && !corrupted ==> Streaming())
    }

    /** The whole blocks of the message have been absorbed, the rest is in the block buffer and
        the two length words hold the length in bits. */
    ghost predicate Streaming()
      reads this, block
      requires block.Length == 64
    {
      && Counts(lengthHigh, lengthLow, |message|)
      && index < 64 && Tracks(message, h, block[..index])
    }

    constructor ()
      ensures Valid() && !computed && !corrupted && message == [] && fresh(block)
    {
      block := new byte[64];
      h := H0;
      lengthLow, lengthHigh, index := 0, 0, 0;
      computed, corrupted := false, false;
      message := [];
    }

    method Reset()
      requires Valid()
      modifies this`h, this`lengthLow, this`lengthHigh, this`index, this`computed, this`corrupted, this`message
      ensures Valid() && !computed && !corrupted && message == []
    {
      h := H0;
      lengthLow, lengthHigh, index := 0, 0, 0;
      computed, corrupted := false, false;
      message := [];
    }

    /** The eighty steps on the block buffer. */
    method ProcessMessageBlock()
      requires block.Length == 64
      modifies this`h, this`index
      ensures h == Compress(old(h), block[..]) && index == 0
    {
      var w := Expand(block[..]);
      var r := Rounds(w, h);
      h := Regs(Add(h.a, r.a), Add(h.b, r.b), Add(h.c, r.c), Add(h.d, r.d), Add(h.e, r.e));
      index := 0;
    }

    method Store(x: byte)
      requires block.Length == 64 && index < 64
      modifies this`index, block
      ensures index == old(index) + 1 && block[..index] == old(block[..index]) + [x]
    {
      block[index] := x;
      index := index + 1;
    }

    /** The body of the loop of Input. */
    method InputByte(x: byte)
      requires block.Length == 64 && Streaming() && !corrupted
      modifies this`h, this`lengthLow, this`lengthHigh, this`index, this`corrupted, this`message, block
      ensures message == old(message) + [x]
      ensures corrupted <==> |message| == LIMIT
      ensures !corrupted ==> Streaming()
    {
      TracksMore(message, h, block[..index], x);
      Count(|message|);
      Store(x);
      message := message + [x];
      if index == 64 {
        assert block[..64] == block[..];
        ProcessMessageBlock();
        assert block[..0] == [];
      }
    }

    /** The two length words, before the octet that follows n octets. */
    method Count(ghost n: nat)
      requires !corrupted && Counts(lengthHigh, lengthLow, n)
      modifies this`lengthLow, this`lengthHigh, this`corrupted
      ensures corrupted <==> n + 1 == LIMIT
      ensures !corrupted ==> Counts(lengthHigh, lengthLow, n + 1)
    {
      CountsMore(lengthHigh, lengthLow, n);
      lengthLow := (lengthLow + 8) % MASK;
      if lengthLow == 0 {
        lengthHigh := (lengthHigh + 1) % MASK;
        if lengthHigh == 0 {
          corrupted := true;
        }
      }
    }

    /** Input is ignored when empty, an error after Result, and otherwise extends the message. */
    method Input(m: seq<byte>)
      requires Valid()
      modifies this`h, this`lengthLow, this`lengthHigh, this`index, this`corrupted, this`message, block
      ensures Valid() && block == old(block)
      ensures m == [] ==> message == old(message) && corrupted == old(corrupted)
      ensures m != [] && (old(computed) || old(corrupted)) ==> corrupted
      ensures !old(computed) && !old(corrupted) ==> (corrupted <==> m != [] && |old(message)| + |m| >= LIMIT)
      ensures !corrupted ==> message == old(message) + m
    {
      if m == [] {
        return;
      }
      if computed || corrupted {
        corrupted := true;
        return;
      }
      InputAll(m);
    }

    method InputAll(m: seq<byte>)
      requires block.Length == 64 && Streaming() && !corrupted
      modifies this`h, this`lengthLow, this`lengthHigh, this`index, this`corrupted, this`message, block
      ensures corrupted <==> |old(message)| + |m| >= LIMIT
      ensures !corrupted ==> Streaming() && message == old(message) + m
    {
      assert message + m[..0] == message;
      CountsLimit(lengthHigh, lengthLow, |message|);
      var i := 0;
      while i < |m| && !corrupted
        invariant i <= |m| && message == old(message) + m[..i] && |message| <= LIMIT
        invariant corrupted <==> |message| == LIMIT
        invariant !corrupted ==> Streaming()
      {
        InputByte(m[i]);
        assert m[..i + 1] == m[..i] + [m[i]];
        i := i + 1;
      }
      assert m[..|m|] == m;
    }

    method ZeroTo(k: nat)
      requires block.Length == 64 && index <= k <= 64
      modifies this`index, block
      ensures index == k && block[..k] == old(block[..index]) + Zeros(k - old(index))
    {
      while index < k
        invariant old(index) <= index <= k
        invariant block[..index] == old(block[..index]) + Zeros(index - old(index))
      {
        Store(0);
      }
    }

    /** The length in the last eight places. */
    method StoreLength()
      requires block.Length == 64
      modifies block
      ensures block[..56] == old(block[..56]) && IsLength(block[56..], lengthHigh, lengthLow)
    {
      block[56] := lengthHigh / 0x1000000 % 256;
      block[57] := lengthHigh / 0x10000 % 256;
      block[58] := lengthHigh / 0x100 % 256;
      block[59] := lengthHigh % 256;
      block[60] := lengthLow / 0x1000000 % 256;
      block[61] := lengthLow / 0x10000 % 256;
      block[62] := lengthLow / 0x100 % 256;
      block[63] := lengthLow % 256;
    }

    /** The padding up to the length, with a block of its own when it does not fit this one. */
    method PadFront()
      requires block.Length == 64 && index < 64
      modifies this`h, this`index, block
      ensures h == if old(index) > 55 then Compress(old(h), FullBlock(old(block[..index]))) else old(h)
      ensures block[..56] ==
              if old(index) > 55 then Zeros(56) else old(block[..index]) + [0x80] + Zeros(55 - old(index))
    {
      ghost var rest := block[..index];
      if index > 55 {
        Store(0x80);
        ZeroTo(64);
        assert block[..64] == block[..] == FullBlock(rest);
        ProcessMessageBlock();
        ZeroTo(56);
        assert block[..56] == Zeros(56);
      } else {
        Store(0x80);
        ZeroTo(56);
      }
    }

    method PadMessage() returns (ghost length: seq<byte>)
      requires block.Length == 64 && Streaming()
      modifies this`h, this`index, block
      ensures IsLength(length, lengthHigh, lengthLow) && h == DigestWith(message, length)
    {
      ghost var start, rest := h, block[..index];
      PadFront();
      ghost var front := block[..56];
      StoreLength();
      length := block[56..];
      ghost var last := front + length;
      assert block[..] == last;
      if |rest| > 55 {
        assert last == LengthBlock(length);
        DigestTwo(message, start, rest, length);
      } else {
        assert last == LastBlock(rest, length);
        DigestOne(message, start, rest, length);
      }
      ProcessMessageBlock();
    }

    /** The digest, the same on every call, unless the object is corrupted. */
    method Result() returns (ok: bool, digest: Regs)
      requires Valid()
      modifies this`h, this`index, this`computed, block
      ensures Valid() && block == old(block)
      ensures ok <==> !corrupted
      ensures ok ==> computed && digest == Digest(message)
    {
      digest := h;
      if corrupted {
        return false, h;
      }
      if !computed {
        ghost var length := PadMessage();
        LengthIsOctets(length, lengthHigh, lengthLow, |message|);
        computed := true;
      }
      return true, h;
    }
  }

  /** However a message is cut into pieces, the object gives the digest of the whole. */
  method HashChunks(chunks: seq<seq<byte>>) returns (ok: bool, digest: Regs)
    ensures ok <==> |Flatten(chunks)| < LIMIT
    ensures ok ==> digest == Digest(Flatten(chunks))
  {
    var sha := new Sha1();
    var i := 0;
    while i < |chunks|
      invariant i <= |chunks| && sha.Valid() && fresh(sha) && fresh(sha.block) && !sha.computed
      invariant sha.corrupted <==> |Flatten(chunks[..i])| >= LIMIT
      invariant !sha.corrupted ==> sha.message == Flatten(chunks[..i])
    {
      FlattenMore(chunks, i);
      sha.Input(chunks[i]);
      i := i + 1;
    }
    assert chunks[..i] == chunks;
    ok, digest := sha.Result();
  }
}
