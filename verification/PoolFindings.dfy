/** Where the pools do not do what they are said to do: runs of calls from a fresh pool, and the exact
  conditions.
 */
module PoolFindings {
  import opened BlockChain
  import opened PoolModel
  import opened SizeIndex

  lemma RunHead(cfg: Config, p: Pool, op: Op, ops: seq<Op>)
    requires Enabled(cfg, p, op) && CanRun(cfg, Apply(cfg, p, op), ops)
    ensures CanRun(cfg, p, [op] + ops) && Exec(cfg, p, [op] + ops) == Exec(cfg, Apply(cfg, p, op), ops)
  {
    assert ([op] + ops)[1..] == ops;
  }

  /** A multiple of the alignment is its own rounded size. */
  lemma AlignedUp(n: nat, align: nat)
    requires align > 0 && n % align == 0 && n + align <= WORD
    ensures AlignUp(n, align) == n
  {
    var x := n + align - 1;
    assert n == n / align * align;
    RemainderUnique(x, n / align, align - 1, align);
  }

  // ---- best fit -------------------------------------------------------------------------------

  /** A size just below the largest class shares it. */
  lemma TopSize(c: nat, size: nat)
    requires 0 < c && Doubles(c) && LARGEST < 2 * size <= 2 * LARGEST && c <= size
    ensures FirstAtLeast(Classes(c), size) == LARGEST
  {
    var cs, k := Classes(c), FirstAtLeast(Classes(c), size);
    TopClass(c);
    ClassBounds(c, size);
    ClassMonotone(cs, size, LARGEST);
    if k < LARGEST {
      ClassOfClass(cs, size);
      NextClass(c, k);
      ClassMonotone(cs, k + 1, LARGEST);
    }
  }

  /** Room for two large blocks with a small one behind each. */
  function Uneven(align: nat): Config {
    Config(2 * LARGEST + align + 3 * HEADER, align)
  }

  function Four(align: nat, first: bool, second: bool): Chain
    requires align <= LARGEST
  {
    [Block(LARGEST, first), Block(align, false), Block(LARGEST - align, second), Block(align, false)]
  }

  /** An allocation that cuts the last block, and a free between used neighbours. */
  lemma CutLast(cfg: Config, p: Pool, n: nat)
    requires 0 < cfg.align < WORD && 0 < n && n % cfg.align == 0 && n + cfg.align <= WORD
    requires p.chain != [] && p.chain[|p.chain| - 1].free && p.chain[|p.chain| - 1].size >= n + HEADER + cfg.align
    ensures var c, i := p.chain, |p.chain| - 1;
            && Enabled(cfg, p, Allocate(n, i))
            && Apply(cfg, p, Allocate(n, i)).chain == c[..i] + [Block(n, false), Block(c[i].size - n - HEADER, true)]
  {
    AlignedUp(n, cfg.align);
  }

  lemma FreeBetween(c: Chain, i: nat)
    requires i < |c| && (i > 0 ==> !c[i - 1].free) && (i + 1 < |c| ==> !c[i + 1].free)
    ensures Freed(c, i) == Mark(c, i, true)
  {
  }

  /** The pool filled with four blocks. At every step one block is free, so that is the one any
      search chooses. */
  lemma TakeFour(align: nat) returns (ops: seq<Op>)
    requires 0 < align <= HEADER && LARGEST % align == 0 && (LARGEST - align) % align == 0
    ensures CanRun(Uneven(align), Fresh(Uneven(align)), ops)
    ensures Exec(Uneven(align), Fresh(Uneven(align)), ops).chain == Four(align, false, false)
  {
    var cfg, a, l := Uneven(align), align, LARGEST;
    AlignedUp(a, a);
    var p0 := Fresh(cfg);
    CutLast(cfg, p0, l);
    var p1 := Apply(cfg, p0, Allocate(l, 0));
    assert p1.chain == [Block(l, false), Block(l + a + 64, true)];
    CutLast(cfg, p1, a);
    var p2 := Apply(cfg, p1, Allocate(a, 1));
    assert p2.chain == [Block(l, false), Block(a, false), Block(l + 32, true)];
    CutLast(cfg, p2, l - a);
    var p3 := Apply(cfg, p2, Allocate(l - a, 2));
    assert p3.chain == [Block(l, false), Block(a, false), Block(l - a, false), Block(a, true)];
    var p4 := Apply(cfg, p3, Allocate(a, 3));
    assert p4.chain == Four(a, false, false);
    RunHead(cfg, p3, Allocate(a, 3), []);
    RunHead(cfg, p2, Allocate(l - a, 2), [Allocate(a, 3)] + []);
    RunHead(cfg, p1, Allocate(a, 1), [Allocate(l - a, 2)] + ([Allocate(a, 3)] + []));
    RunHead(cfg, p0, Allocate(l, 0), [Allocate(a, 1)] + ([Allocate(l - a, 2)] + ([Allocate(a, 3)] + [])));
    ops := [Allocate(l, 0)] + ([Allocate(a, 1)] + ([Allocate(l - a, 2)] + ([Allocate(a, 3)] + [])));
  }

  lemma {:induction false} RunConcat(cfg: Config, p: Pool, a: seq<Op>, b: seq<Op>)
    requires CanRun(cfg, p, a) && CanRun(cfg, Exec(cfg, p, a), b)
    ensures CanRun(cfg, p, a + b) && Exec(cfg, p, a + b) == Exec(cfg, Exec(cfg, p, a), b)
    decreases |a|
  {
    if a == [] {
      assert a + b == b;
    } else {
      assert (a + b)[1..] == a[1..] + b;
      RunConcat(cfg, Apply(cfg, p, a[0]), a[1..], b);
    }
  }

  lemma FourAddrs(align: nat, first: bool, second: bool)
    requires align <= LARGEST
    ensures Addr(Four(align, first, second), 0) == 0
    ensures Addr(Four(align, first, second), 2) == LARGEST + align + 2 * HEADER
  {
    var c := Four(align, first, second);
    assert c[..0] == [] && c[..2] == [c[0], c[1]];
    Few(c[0], c[1]);
  }

  /** And the two large ones given back. */
  lemma FreeTwo(align: nat) returns (ops: seq<Op>)
    requires 0 < align <= HEADER && LARGEST % align == 0 && (LARGEST - align) % align == 0
    ensures CanRun(Uneven(align), Fresh(Uneven(align)), ops)
    ensures Exec(Uneven(align), Fresh(Uneven(align)), ops).chain == Four(align, true, true)
  {
    var cfg, p0 := Uneven(align), Fresh(Uneven(align));
    var take := TakeFour(align);
    var p4 := Exec(cfg, p0, take);
    FourAddrs(align, false, false);
    FourAddrs(align, true, false);
    FreeBetween(p4.chain, 0);
    var p5 := Apply(cfg, p4, Deallocate(0));
    assert p5.chain == Four(align, true, false);
    FreeBetween(p5.chain, 2);
    var p6 := Apply(cfg, p5, Deallocate(2));
    assert p6.chain == Four(align, true, true);
    RunHead(cfg, p5, Deallocate(2), []);
    RunHead(cfg, p4, Deallocate(0), [Deallocate(2)] + []);
    RunConcat(cfg, p0, take, [Deallocate(0)] + ([Deallocate(2)] + []));
    ops := take + ([Deallocate(0)] + ([Deallocate(2)] + []));
  }

  lemma FourFree(align: nat)
    requires align <= LARGEST
    ensures Blocks(Four(align, true, true), true) == {(0, LARGEST), (LARGEST + align + 2 * HEADER, LARGEST - align)}
  {
    var c := Four(align, true, true);
    assert c == [c[0], c[1]] + [c[2], c[3]];
    ConcatBlocks([c[0], c[1]], [c[2], c[3]], 0, true);
    Few(c[0], c[1]);
    FewBlocks(c[0], c[1], 0, true);
    FewBlocks(c[2], c[3], LARGEST + align + 2 * HEADER, true);
  }

  lemma LargerFirst(free: set<Entry>, n: nat, x: Entry, y: Entry)
    requires free == {x, y} && x.0 < y.0 && n <= y.1 < x.1 && SizeClass(x.1) == SizeClass(y.1)
    ensures Chosen(free, n, x) && !SmallestFit(free, n, x.1)
  {
  }

  /** In that pool the search takes the larger of two blocks that fit. */
  lemma TakesTheLarger(align: nat, n: nat)
    requires 0 < align <= HEADER && n <= LARGEST - align
    ensures var free := Blocks(Four(align, true, true), true);
            Chosen(free, n, (0, LARGEST)) && !SmallestFit(free, n, LARGEST)
  {
    FourFree(align);
    EightDoubles();
    TopSize(8, LARGEST);
    TopSize(8, LARGEST - align);
    var free := Blocks(Four(align, true, true), true);
    LargerFirst(free, n, (0, LARGEST), (LARGEST + align + 2 * HEADER, LARGEST - align));
  }

  /** A divisor of the header size divides the largest class. */
  lemma Divides(align: nat)
    requires align > 0 && HEADER % align == 0
    ensures align <= HEADER && LARGEST % align == 0 && (LARGEST - align) % align == 0
  {
    var q := HEADER / align;
    assert HEADER == q * align;
    AtLeastOnce(q, align);
    assert LARGEST == (32768 * q) * align;
    MultipleMod(LARGEST, 32768 * q, align);
    Distribute(32768 * q, 1, align);
    MultipleMod(LARGEST - align, 32768 * q - 1, align);
  }

  ghost predicate BestFit(cfg: Config, ops: seq<Op>, n: nat)
    requires CanRun(cfg, Fresh(cfg), ops)
  {
    var free := Blocks(Exec(cfg, Fresh(cfg), ops).chain, true);
    forall x: Entry | Chosen(free, n, x) :: SmallestFit(free, n, x.1)
  }

  /** For alignments that divide the header size, the search takes a smallest fitting block in every
      pool that a run of calls can reach, exactly for rounded requests of the largest class and
      beyond: below that it goes by address within a class. */
  lemma BestFitExactly(align: nat, n: nat)
    requires align > 0 && 32 % align == 0 && n % align == 0
    ensures (forall cfg: Config, ops: seq<Op> | cfg.align == align && CanRun(cfg, Fresh(cfg), ops) ::
               BestFit(cfg, ops, n))
       <==> n >= 0x10_0000
  {
    if n >= LARGEST {
      forall cfg: Config, ops: seq<Op> | cfg.align == align && CanRun(cfg, Fresh(cfg), ops)
        ensures BestFit(cfg, ops, n)
      {
        var free := Blocks(Exec(cfg, Fresh(cfg), ops).chain, true);
        forall x: Entry | Chosen(free, n, x) ensures SmallestFit(free, n, x.1) {
          BestFitAbove(free, n, x);
        }
      }
    } else {
      Divides(align);
      BelowTheTop(align, n);
      var ops := FreeTwo(align);
      TakesTheLarger(align, n);
      assert !BestFit(Uneven(align), ops, n);
    }
  }

  lemma BelowTheTop(align: nat, n: nat)
    requires 0 < align <= LARGEST && n % align == 0 && LARGEST % align == 0 && n < LARGEST
    ensures n <= LARGEST - align
  {
    var j, k := n / align, LARGEST / align;
    assert n == j * align && LARGEST == k * align;
    Distribute(k, j, align);
    PositiveFactor(k - j, align);
    AtLeastOnce(k - j, align);
  }

  lemma PositiveFactor(d: int, align: nat)
    requires d * align > 0
    ensures d > 0
  {
  }

  // ---- owns, rounding, alignment ------------------------------------------------------------------

  /** A pool of 16 bytes hands out all of it and refuses to take it back. */
  lemma NotTakenBack()
    ensures var cfg, ops := Config(16, 16), [Allocate(16, 0)];
            && CanRun(cfg, Fresh(cfg), ops)
            && var p := Exec(cfg, Fresh(cfg), ops);
               Live(p.chain) == {(0, 16)} && !Owns(cfg, p.chain, 0) && !Enabled(cfg, p, Deallocate(0))
  {
    var cfg := Config(16, 16);
    AlignedUp(16, 16);
    var p := Apply(cfg, Fresh(cfg), Allocate(16, 0));
    assert p.chain == [Block(16, false)];
    RunHead(cfg, Fresh(cfg), Allocate(16, 0), []);
    FewBlocks(Block(16, false), Block(16, false), 0, false);
    assert [Allocate(16, 0)] + [] == [Allocate(16, 0)];
  }

  /** A request whose rounding wraps succeeds on any free block of any pool that fits into memory,
      and what it gets is smaller than what it asked for. */
  lemma WrappedRequestSucceeds(cfg: Config, p: Pool, size: nat, i: nat)
    requires Inv(cfg, p) && i < |p.chain| && p.chain[i].free && 0 < cfg.align && cfg.total + HEADER + cfg.align < WORD
    requires size < WORD <= size + cfg.align - 1
    ensures Enabled(cfg, p, Allocate(size, i))
    ensures var c := Apply(cfg, p, Allocate(size, i)).chain; i < |c| && !c[i].free && c[i].size < size
  {
    AlignUpExact(size, cfg.align);
    BlockFits(p.chain, i);
  }

  lemma BlockFits(c: Chain, i: nat)
    requires i < |c|
    ensures HEADER + c[i].size <= Len(c)
  {
    assert c == c[..i] + [c[i]] + c[i + 1..];
    Around(c[..i], [c[i]], c[i + 1..]);
    Few(c[i], c[i]);
  }

  predicate PayloadsAligned(cfg: Config, c: Chain)
    requires cfg.align > 0
  {
    forall i | 0 <= i < |c| :: (Addr(c, i) + HEADER) % cfg.align == 0
  }

  lemma AlignedPayloads(cfg: Config, c: Chain)
    requires cfg.align > 0 && HEADER % cfg.align == 0 && AddrsAligned(c, cfg.align)
    ensures PayloadsAligned(cfg, c)
  {
    forall i | 0 <= i < |c| ensures (Addr(c, i) + HEADER) % cfg.align == 0 {
      AddrIn(c, 0, i);
      assert Addr(c, i) in Addrs(c);
      ModAdd(Addr(c, i), HEADER, cfg.align);
    }
  }

  /** Every payload of every run starts at a multiple of the alignment, exactly when the alignment
      divides the size of a header. */
  lemma AlignedExactly(cfg: Config)
    requires cfg.align > 0
    ensures (forall ops | CanRun(cfg, Fresh(cfg), ops) :: PayloadsAligned(cfg, Exec(cfg, Fresh(cfg), ops).chain))
       <==> 32 % cfg.align == 0
  {
    if HEADER % cfg.align == 0 {
      forall ops | CanRun(cfg, Fresh(cfg), ops) ensures PayloadsAligned(cfg, Exec(cfg, Fresh(cfg), ops).chain) {
        EveryRunKeepsPool(cfg, ops);
        AlignedPayloads(cfg, Exec(cfg, Fresh(cfg), ops).chain);
      }
    } else {
      var c := Fresh(cfg).chain;
      assert c[..0] == [] && Addr(c, 0) == 0;
      assert Exec(cfg, Fresh(cfg), []).chain == c && CanRun(cfg, Fresh(cfg), []);
      assert !PayloadsAligned(cfg, Exec(cfg, Fresh(cfg), []).chain);
    }
  }
}
