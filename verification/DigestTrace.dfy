/** The computation of a digest in lines: four words of the schedule and the registers after their
  steps. By such lines known answers are checked.
 */
module DigestTrace {
  import opened Bytes
  import opened Fips180
  import Sha1

  datatype Line = Line(a: Word, b: Word, c: Word, d: Word, r: Regs)

  /** A line in plain numbers. */
  function L(a: bv32, b: bv32, c: bv32, d: bv32, r0: bv32, r1: bv32, r2: bv32, r3: bv32, r4: bv32): Line {
    Line(Word(a), Word(b), Word(c), Word(d), Regs(Word(r0), Word(r1), Word(r2), Word(r3), Word(r4)))
  }

  function List(x: Line): seq<Word> {
    [x.a, x.b, x.c, x.d]
  }

  /** The words of a line, by the sixteen words before them. */
  predicate Follows(k0: Line, k1: Line, k2: Line, k3: Line, x: Line) {
    && x.a == NextWord(k3.b, k2.a, k0.c, k0.a) && x.b == NextWord(k3.c, k2.b, k0.d, k0.b)
    && x.c == NextWord(k3.d, k2.c, k1.a, k0.c) && x.d == NextWord(x.a, k2.d, k1.b, k0.d)
  }

  /** Its registers, by those before and the number of the first step. */
  predicate Runs(t: nat, r: Regs, x: Line) {
    x.r == Step(t + 3, Step(t + 2, Step(t + 1, Step(t, r, x.a), x.b), x.c), x.d)
  }

  // ---------------------------------------------------------------- the octets of a block

  lemma Octets16(b: seq<byte>, t: nat, o: seq<byte>)
    requires t + 16 <= |b| && o == b[t..t + 16]
    ensures b[t] == o[0] && b[t + 1] == o[1] && b[t + 2] == o[2] && b[t + 3] == o[3]
    ensures b[t + 4] == o[4] && b[t + 5] == o[5] && b[t + 6] == o[6] && b[t + 7] == o[7]
    ensures b[t + 8] == o[8] && b[t + 9] == o[9] && b[t + 10] == o[10] && b[t + 11] == o[11]
    ensures b[t + 12] == o[12] && b[t + 13] == o[13] && b[t + 14] == o[14] && b[t + 15] == o[15]
  {
  }

  function WordAt(b: seq<byte>, t: nat): Word
    requires 4 * t + 4 <= |b|
  {
    WordOf(b[4 * t], b[4 * t + 1], b[4 * t + 2], b[4 * t + 3])
  }

  lemma LoadsOne(b: seq<byte>, w: seq<Word>, t: nat, x: Word)
    requires |b| == 64 && t < 16 && t == |w| && x == WordAt(b, t) && Sha1.Loaded(w, b, t)
    ensures Sha1.Loaded(w + [x], b, t + 1)
  {
    assert (w + [x])[..t] == w[..t];
    Sha1.PrefixLoaded(w, w + [x], b, t);
  }

  /** The next four words that are read from a block. */
  lemma LoadsFour(b: seq<byte>, w: seq<Word>, t: nat, x: Line)
    requires |b| == 64 && t <= 12 && t == |w| && Sha1.Loaded(w, b, t)
    requires x.a == WordAt(b, t) && x.b == WordAt(b, t + 1) && x.c == WordAt(b, t + 2) && x.d == WordAt(b, t + 3)
    ensures Sha1.Loaded(w + List(x), b, t + 4)
  {
    LoadsOne(b, w, t, x.a);
    LoadsOne(b, w + [x.a], t + 1, x.b);
    LoadsOne(b, w + [x.a] + [x.b], t + 2, x.c);
    LoadsOne(b, w + [x.a] + [x.b] + [x.c], t + 3, x.d);
    assert w + List(x) == w + [x.a] + [x.b] + [x.c] + [x.d];
  }

  const ZEROS: seq<byte> := [0, 0, 0, 0, 0, 0, 0, 0, 0, 0, 0, 0, 0, 0, 0, 0]

  lemma LoadsZeros(b: seq<byte>, w: seq<Word>, t: nat, x: Line)
    requires |b| == 64 && t <= 12 && t == |w| && Sha1.Loaded(w, b, t) && b[4 * t..4 * t + 16] == ZEROS
    requires List(x) == [Word(0), Word(0), Word(0), Word(0)]
    ensures Sha1.Loaded(w + List(x), b, t + 4)
  {
    assert (0 as bv32) == 0;
    assert WordOf(0, 0, 0, 0) == Word(0);
    Octets16(b, 4 * t, ZEROS);
    assert x.a == List(x)[0] && x.b == List(x)[1] && x.c == List(x)[2] && x.d == List(x)[3];
    LoadsFour(b, w, t, x);
  }

  // ---------------------------------------------------------------- the first four lines

  lemma StepsOne(w: seq<Word>, x: Word, h: Regs)
    ensures Steps(w + [x], h) == Step(|w|, Steps(w, h), x)
  {
    assert (w + [x])[..|w|] == w;
  }

  lemma StepsFour(w: seq<Word>, x: Line, h: Regs)
    requires Runs(|w|, Steps(w, h), x)
    ensures Steps(w + List(x), h) == x.r
  {
    StepsOne(w, x.a, h);
    StepsOne(w + [x.a], x.b, h);
    StepsOne(w + [x.a] + [x.b], x.c, h);
    StepsOne(w + [x.a] + [x.b] + [x.c], x.d, h);
    assert w + List(x) == w + [x.a] + [x.b] + [x.c] + [x.d];
  }

  /** The words of some lines. */
  function Words(ks: seq<Line>): (w: seq<Word>)
    ensures |w| == 4 * |ks|
  {
    if ks == [] then [] else Words(ks[..|ks| - 1]) + List(ks[|ks| - 1])
  }

  /** The registers of these lines are right from h on. */
  predicate Lead(h: Regs, ks: seq<Line>) {
    ks != [] && Steps(Words(ks), h) == ks[|ks| - 1].r
  }

  lemma LeadOne(h: Regs, x: Line)
    requires Runs(0, h, x)
    ensures Lead(h, [x])
  {
    assert [x][..0] == [];
    StepsFour([], x, h);
  }

  lemma LeadMore(h: Regs, ks: seq<Line>, r: Regs, x: Line)
    requires Lead(h, ks) && r == ks[|ks| - 1].r && Runs(4 * |ks|, r, x)
    ensures Lead(h, ks + [x])
  {
    assert (ks + [x])[..|ks|] == ks;
    StepsFour(Words(ks), x, h);
  }

  // ---------------------------------------------------------------- the others

  /** The last sixteen words of w. */
  predicate Ends(w: seq<Word>, k0: Line, k1: Line, k2: Line, k3: Line) {
    |w| >= 16 && w[|w| - 16..] == List(k0) + List(k1) + List(k2) + List(k3)
  }

  lemma EndsAt(w: seq<Word>, k0: Line, k1: Line, k2: Line, k3: Line)
    requires Ends(w, k0, k1, k2, k3)
    ensures var n := |w| - 16;
            && w[n] == k0.a && w[n + 1] == k0.b && w[n + 2] == k0.c && w[n + 3] == k0.d
            && w[n + 4] == k1.a && w[n + 5] == k1.b && w[n + 8] == k2.a && w[n + 9] == k2.b
            && w[n + 10] == k2.c && w[n + 11] == k2.d && w[n + 13] == k3.b && w[n + 14] == k3.c && w[n + 15] == k3.d
  {
    var n, e := |w| - 16, w[|w| - 16..];
    assert e[0] == w[n] && e[1] == w[n + 1] && e[2] == w[n + 2] && e[3] == w[n + 3] && e[4] == w[n + 4];
    assert e[5] == w[n + 5] && e[8] == w[n + 8] && e[9] == w[n + 9] && e[10] == w[n + 10] && e[11] == w[n + 11];
    assert e[13] == w[n + 13] && e[14] == w[n + 14] && e[15] == w[n + 15];
  }

  lemma EndsMore(w: seq<Word>, k0: Line, k1: Line, k2: Line, k3: Line, x: Line)
    requires Ends(w, k0, k1, k2, k3)
    ensures Ends(w + List(x), k1, k2, k3, x)
  {
    var e := w[|w| - 16..];
    assert (w + List(x))[|w| - 12..] == e[4..] + List(x);
    assert e[4..] == List(k1) + List(k2) + List(k3);
  }

  lemma NextFour(w: seq<Word>, k0: Line, k1: Line, k2: Line, k3: Line, x: Line)
    requires Ends(w, k0, k1, k2, k3) && Follows(k0, k1, k2, k3, x) && Sha1.Recurrent(w, |w|)
    ensures Sha1.Recurrent(w + List(x), |w| + 4)
  {
    var v, n := w + List(x), |w|;
    assert v[..n] == w[..n];
    Sha1.PrefixRecurrent(w, v, n);
    EndsAt(w, k0, k1, k2, k3);
    assert Sha1.NextAt(v, n) && Sha1.NextAt(v, n + 1) && Sha1.NextAt(v, n + 2) && Sha1.NextAt(v, n + 3);
  }

  /** w are the words f and further words of their schedule, the last sixteen in the given lines,
      and the last line has the registers after their steps. */
  predicate Reached(h: Regs, f: seq<Word>, w: seq<Word>, k0: Line, k1: Line, k2: Line, k3: Line) {
    Ends(w, k0, k1, k2, k3) && w[..16] == f && Sha1.Recurrent(w, |w|) && Steps(w, h) == k3.r
  }

  /** The first n lines are right, and these are the last four of them. */
  ghost predicate At(h: Regs, f: seq<Word>, n: nat, k0: Line, k1: Line, k2: Line, k3: Line) {
    exists w: seq<Word> :: |w| == 4 * n && Reached(h, f, w, k0, k1, k2, k3)
  }

  lemma First(h: Regs, k0: Line, k1: Line, k2: Line, k3: Line)
    requires Lead(h, [k0] + [k1] + [k2] + [k3])
    ensures At(h, List(k0) + List(k1) + List(k2) + List(k3), 4, k0, k1, k2, k3)
  {
    var ks, w := [k0] + [k1] + [k2] + [k3], List(k0) + List(k1) + List(k2) + List(k3);
    assert ks[..3] == [k0] + [k1] + [k2] && ks[..3][..2] == [k0] + [k1] && ks[..3][..2][..1] == [k0] && [k0][..0] == [];
    assert Words([k0]) == List(k0);
    assert Words([k0] + [k1]) == List(k0) + List(k1);
    assert Words([k0] + [k1] + [k2]) == List(k0) + List(k1) + List(k2);
    assert w[16 - 16..] == w == w[..16];
    assert Reached(h, w, w, k0, k1, k2, k3);
  }

  lemma ReachedMore(h: Regs, f: seq<Word>, w: seq<Word>, k0: Line, k1: Line, k2: Line, k3: Line, x: Line)
    requires Reached(h, f, w, k0, k1, k2, k3) && Follows(k0, k1, k2, k3, x) && Runs(|w|, k3.r, x)
    ensures Reached(h, f, w + List(x), k1, k2, k3, x)
  {
    assert (w + List(x))[..16] == w[..16];
    NextFour(w, k0, k1, k2, k3, x);
    EndsMore(w, k0, k1, k2, k3, x);
    StepsFour(w, x, h);
  }

  /** One line more. */
  lemma More(h: Regs, f: seq<Word>, n: nat, k0: Line, k1: Line, k2: Line, k3: Line, x: Line)
    requires At(h, f, n, k0, k1, k2, k3) && Follows(k0, k1, k2, k3, x) && Runs(4 * n, k3.r, x)
    ensures At(h, f, n + 1, k1, k2, k3, x)
  {
    var w :| |w| == 4 * n && Reached(h, f, w, k0, k1, k2, k3);
    ReachedMore(h, f, w, k0, k1, k2, k3, x);
    assert |w + List(x)| == 4 * (n + 1);
  }

  /** Twenty right lines give what their block does to the registers. */
  lemma Last(h: Regs, f: seq<Word>, b: seq<byte>, k0: Line, k1: Line, k2: Line, k3: Line)
    requires At(h, f, 20, k0, k1, k2, k3) && |b| == 64 && |f| == 16 && Sha1.Loaded(f, b, 16)
    ensures Compress(h, b) == Sum(h, k3.r)
  {
    var w :| |w| == 80 && Reached(h, f, w, k0, k1, k2, k3);
    assert f[..16] == f;
    Sha1.PrefixLoaded(f, w, b, 16);
    forall i | 0 <= i < 80 ensures w[i] == Schedule(b)[i] {
      Sha1.RecurrentIsW(w, b, i);
    }
    assert w == Schedule(b);
  }

  // ---------------------------------------------------------------- one block and two

  lemma AbsorbOne(h: Regs, b: seq<byte>)
    requires |b| == 64
    ensures Absorb(h, b) == Compress(h, b)
  {
    AbsorbBlock(h, [], b);
    assert [] + b == b;
  }

  lemma AbsorbTwo(h: Regs, b: seq<byte>, c: seq<byte>)
    requires |b| == |c| == 64
    ensures Absorb(h, b + c) == Compress(Compress(h, b), c)
  {
    AbsorbOne(h, b);
    AbsorbBlock(h, b, c);
  }

  lemma ZeroOctets(n: nat)
    ensures Zeros(n + 16) == Zeros(n) + ZEROS
  {
  }

  /** The padded octets in rows of sixteen: a message of less than a row, */
  lemma PadOne(m: seq<byte>, first: seq<byte>, last: seq<byte>, length: seq<byte>)
    requires |m| < 16 && |length| == 8 && first == m + [0x80] + Zeros(15 - |m|) && last == Zeros(8) + length
    ensures m + Padding(|m|, length) == first + ZEROS + ZEROS + last
  {
    var n := 15 - |m|;
    assert Zeros(n + 8) == Zeros(n) + Zeros(8) && Zeros(n + 24) == Zeros(n + 16) + Zeros(8);
    assert Zeros(n + 40) == Zeros(n + 32) + Zeros(8);
    ZeroOctets(n);
    ZeroOctets(n + 16);
  }

  /** and one of three rows and half a row or more. */
  lemma PadTwo(m: seq<byte>, rest: seq<byte>, row: seq<byte>, last: seq<byte>, length: seq<byte>)
    requires |m| == 48 && 8 <= |rest| < 16 && |length| == 8
    requires row == rest + [0x80] + Zeros(15 - |rest|) && last == Zeros(8) + length
    ensures m + rest + Padding(48 + |rest|, length) == m + row + (ZEROS + ZEROS + ZEROS + last)
  {
    var n := 15 - |rest|;
    assert Zeros(n + 56) == Zeros(n + 48) + Zeros(8);
    ZeroOctets(n);
    ZeroOctets(n + 16);
    ZeroOctets(n + 32);
  }
}
