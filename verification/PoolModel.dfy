/** A pool over a block chain, whatever rule it has for choosing the block to hand out: the
  state both pools go through, and what holds in every run.
 */
module PoolModel {
  import opened BlockChain

  /** size_t arithmetic wraps at this value. */
  const WORD: nat := 0x1_0000_0000_0000_0000

  /** `align_up`: clearing the low bits of `n + align - 1`, for `align` a power of two. */
  function AlignUp(n: nat, align: nat): nat
    requires align > 0
  {
    var x := (n + align - 1) % WORD;
    x - x % align
  }

  /** The rounded size covers the request exactly when the rounding does not wrap; when it does
      wrap, the rounded size is 0. */
  lemma AlignUpExact(n: nat, align: nat)
    requires 0 < n < WORD && 0 < align < WORD
    ensures AlignUp(n, align) >= n <==> n + align - 1 < WORD
    ensures n + align - 1 >= WORD ==> AlignUp(n, align) == 0
    ensures AlignUp(n, align) % align == 0 && AlignUp(n, align) < n + align
  {
    var x := (n + align - 1) % WORD;
    assert x == if n + align - 1 < WORD then n + align - 1 else n + align - 1 - WORD;
    RoundDown(x, align);
  }

  lemma RoundDown(x: nat, align: nat)
    requires align > 0
    ensures (x - x % align) % align == 0 && 0 <= x % align < align
    ensures x < align ==> x % align == x
  {
    var q := x / align;
    assert x - x % align == q * align;
    MultipleMod(q * align, q, align);
    if x < align {
      RemainderUnique(x, 0, x, align);
    }
  }

  lemma MultipleMod(x: nat, k: nat, align: nat)
    requires align > 0 && x == k * align
    ensures x % align == 0
  {
    RemainderUnique(x, k, 0, align);
  }

  lemma RemainderUnique(x: nat, k: nat, r: nat, align: nat)
    requires align > 0 && x == k * align + r && r < align
    ensures x % align == r
  {
    var q, s := x / align, x % align;
    assert x == q * align + s;
    Distribute(k, q, align);
    if k > q {
      AtLeastOnce(k - q, align);
    } else if k < q {
      AtLeastOnce(q - k, align);
      Distribute(q, k, align);
    }
  }

  lemma Distribute(k: nat, q: nat, align: nat)
    ensures (k - q) * align == k * align - q * align
  {
  }

  lemma AtLeastOnce(d: nat, align: nat)
    requires d > 0
    ensures d * align >= align
  {
  }

  lemma ModAdd(x: nat, y: nat, align: nat)
    requires align > 0 && x % align == 0 && y % align == 0
    ensures (x + y) % align == 0
  {
    var k, j := x / align, y / align;
    assert x == k * align && y == j * align;
    assert x + y == (k + j) * align;
    MultipleMod(x + y, k + j, align);
  }

  // ---- the state machine --------------------------------------------------------------------

  datatype Config = Config(total: nat, align: nat)

  /** `used` is m_used_size. */
  datatype Pool = Pool(chain: Chain, used: int)

  /** One call that changes the pool. `i` is the block the pool chose, or the one whose payload
      is given back. */
  datatype Op =
    | Allocate(size: nat, i: nat)
    | Deallocate(i: nat)
    | Reset
    | Defragment

  function Fresh(cfg: Config): Pool {
    Pool([Block(cfg.total, true)], 0)
  }

  /** `owns(ptr)` for the payload of block `i`. */
  predicate Owns(cfg: Config, c: Chain, i: nat)
    requires i < |c|
  {
    Addr(c, i) + HEADER < cfg.total
  }

  predicate Enabled(cfg: Config, p: Pool, op: Op) {
    match op
    case Allocate(size, i) =>
      && 0 < size < WORD && 0 < cfg.align < WORD
      && i < |p.chain| && p.chain[i].free && p.chain[i].size >= AlignUp(size, cfg.align)
    case Deallocate(i) => i < |p.chain| && !p.chain[i].free && Owns(cfg, p.chain, i)
    case Reset => true
    case Defragment => p.chain != []
  }

  function Apply(cfg: Config, p: Pool, op: Op): Pool
    requires Enabled(cfg, p, op)
  {
    match op
    case Allocate(size, i) =>
      var c := Allocated(p.chain, i, AlignUp(size, cfg.align), cfg.align);
      Pool(c, p.used + c[i].size)
    case Deallocate(i) => Pool(Freed(p.chain, i), p.used - p.chain[i].size)
    case Reset => Fresh(cfg)
    case Defragment => p.(chain := Defragmented(p.chain, 0))
  }

  predicate CanRun(cfg: Config, p: Pool, ops: seq<Op>)
    decreases |ops|
  {
    ops == [] || (Enabled(cfg, p, ops[0]) && CanRun(cfg, Apply(cfg, p, ops[0]), ops[1..]))
  }

  function Exec(cfg: Config, p: Pool, ops: seq<Op>): Pool
    requires CanRun(cfg, p, ops)
    decreases |ops|
  {
    if ops == [] then p else Exec(cfg, Apply(cfg, p, ops[0]), ops[1..])
  }

  // ---- what every run keeps -------------------------------------------------------------------

  /** The blocks tile exactly the header of the first block and `total` bytes more, no two
      neighbours are free, the counter counts the used bytes, and blocks are aligned. */
  predicate Inv(cfg: Config, p: Pool) {
    && p.chain != [] && Len(p.chain) == HEADER + cfg.total
    && Coalesced(p.chain)
    && p.used == UsedBytes(p.chain)
    && (cfg.align > 0 && HEADER % cfg.align == 0 ==> AddrsAligned(p.chain, cfg.align))
  }

  lemma FreshInv(cfg: Config)
    ensures Inv(cfg, Fresh(cfg)) && Live(Fresh(cfg).chain) == {}
  {
    Few(Block(cfg.total, true), Block(cfg.total, true));
    FewAddrs(Block(cfg.total, true), Block(cfg.total, true), 0);
    FewBlocks(Block(cfg.total, true), Block(cfg.total, true), 0, false);
  }

  lemma {:induction false} AddrIn(c: Chain, base: nat, i: nat)
    requires i < |c|
    ensures base + Addr(c, i) in AddrsFrom(c, base)
  {
    if i > 0 {
      assert c[..i][1..] == c[1..][..i - 1];
      AddrIn(c[1..], base + HEADER + c[0].size, i - 1);
    }
  }

  lemma AllocateAligned(c: Chain, i: nat, n: nat, align: nat)
    requires i < |c| && c[i].free && c[i].size >= n
    requires align > 0 && HEADER % align == 0 && n % align == 0 && AddrsAligned(c, align)
    ensures AddrsAligned(Allocated(c, i, n, align), align)
  {
    AddrIn(c, 0, i);
    assert Addr(c, i) in Addrs(c);
    ModAdd(Addr(c, i), HEADER, align);
    ModAdd(Addr(c, i) + HEADER, n, align);
    var e := c;
    if c[i].size >= n + HEADER + align {
      e := Split(c, i, n);
      SplitKeeps(c, i, n);
    }
    MarkKeeps(e, i, false);
  }

  lemma AllocateInv(cfg: Config, p: Pool, size: nat, i: nat)
    requires Inv(cfg, p) && Enabled(cfg, p, Allocate(size, i))
    ensures Inv(cfg, Apply(cfg, p, Allocate(size, i)))
  {
    var n := AlignUp(size, cfg.align);
    AlignUpExact(size, cfg.align);
    AllocatedLive(p.chain, i, n, cfg.align);
    AllocatedCoalesces(p.chain, i, n, cfg.align);
    if HEADER % cfg.align == 0 {
      AllocateAligned(p.chain, i, n, cfg.align);
    }
  }

  lemma InvStep(cfg: Config, p: Pool, op: Op)
    requires Inv(cfg, p) && Enabled(cfg, p, op)
    ensures Inv(cfg, Apply(cfg, p, op))
  {
    match op
    case Allocate(size, i) => AllocateInv(cfg, p, size, i);
    case Deallocate(i) =>
      FreedLive(p.chain, i);
      FreedCoalesces(p.chain, i);
    case Reset => FreshInv(cfg);
    case Defragment => DefragmentIdle(p.chain, 0);
  }

  lemma {:induction false} InvRun(cfg: Config, p: Pool, ops: seq<Op>)
    requires Inv(cfg, p) && CanRun(cfg, p, ops)
    ensures Inv(cfg, Exec(cfg, p, ops))
    decreases |ops|
  {
    if ops != [] {
      InvStep(cfg, p, ops[0]);
      InvRun(cfg, Apply(cfg, p, ops[0]), ops[1..]);
    }
  }

  // ---- main results -----------------------------------------------------------------------------

  /** After every run: tiling, coalescing, the counter and alignment; and `defragment` has
      nothing to do. */
  lemma EveryRunKeepsPool(cfg: Config, ops: seq<Op>)
    requires CanRun(cfg, Fresh(cfg), ops)
    ensures Inv(cfg, Exec(cfg, Fresh(cfg), ops))
    ensures var p := Exec(cfg, Fresh(cfg), ops); Apply(cfg, p, Defragment) == p
  {
    FreshInv(cfg);
    InvRun(cfg, Fresh(cfg), ops);
    DefragmentIdle(Exec(cfg, Fresh(cfg), ops).chain, 0);
  }

  /** The bytes handed out of a block for a request: the rounded request if what is left can hold a
      header and the alignment, else the whole block. */
  function Granted(cfg: Config, block: nat, size: nat): nat
    requires cfg.align > 0
  {
    var n := AlignUp(size, cfg.align);
    if block >= n + HEADER + cfg.align then n else block
  }

  /** What one call does to the set of live allocations: `allocate` adds one of that size,
      `deallocate` removes that one, `defragment` none, `reset` all. No call moves
      or resizes any other. */
  lemma CallEffect(cfg: Config, p: Pool, op: Op)
    requires Inv(cfg, p) && Enabled(cfg, p, op)
    ensures var p' := Apply(cfg, p, op);
            match op
            case Allocate(size, i) =>
              && Live(p'.chain) == Live(p.chain) + {(Addr(p.chain, i), Granted(cfg, p.chain[i].size, size))}
              && (forall x <- Live(p.chain) :: x.0 != Addr(p.chain, i))
              && p'.used == p.used + Granted(cfg, p.chain[i].size, size)
            case Deallocate(i) => Live(p'.chain) == Live(p.chain) - {(Addr(p.chain, i), p.chain[i].size)}
            case Reset => Live(p'.chain) == {}
            case Defragment => Live(p'.chain) == Live(p.chain)
  {
    match op
    case Allocate(size, i) =>
      AllocatedLive(p.chain, i, AlignUp(size, cfg.align), cfg.align);
      AllocatedExactly(p.chain, i, AlignUp(size, cfg.align), cfg.align);
      forall x <- Live(p.chain) ensures x.0 != Addr(p.chain, i) {
        FreeNotLive(p.chain, i, x);
      }
    case Deallocate(i) => FreedLive(p.chain, i);
    case Reset => FreshInv(cfg);
    case Defragment => DefragmentKeeps(p.chain, 0);
  }

  /** No rounding in the run wraps. */
  predicate NoWrap(cfg: Config, ops: seq<Op>) {
    forall op <- ops :: op.Allocate? ==> op.size + cfg.align - 1 < WORD
  }

  lemma StepRoomy(cfg: Config, p: Pool, op: Op)
    requires Enabled(cfg, p, op) && Roomy(p.chain, cfg.align) && cfg.align <= cfg.total
    requires op.Allocate? ==> op.size + cfg.align - 1 < WORD
    ensures Roomy(Apply(cfg, p, op).chain, cfg.align)
  {
    match op
    case Allocate(size, i) =>
      var n := AlignUp(size, cfg.align);
      AlignUpExact(size, cfg.align);
      MultipleAtLeast(n, cfg.align);
      AllocatedRoomy(p.chain, i, n, cfg.align);
    case Deallocate(i) => FreedRoomy(p.chain, i, cfg.align);
    case Reset =>
    case Defragment => DefragmentRoomy(p.chain, 0, cfg.align);
  }

  lemma MultipleAtLeast(n: nat, align: nat)
    requires 0 < align && 0 < n && n % align == 0
    ensures n >= align
  {
    if n < align {
      RoundDown(n, align);
    }
  }

  lemma {:induction false} RunRoomy(cfg: Config, p: Pool, ops: seq<Op>)
    requires CanRun(cfg, p, ops) && Roomy(p.chain, cfg.align) && cfg.align <= cfg.total && NoWrap(cfg, ops)
    ensures Roomy(Exec(cfg, p, ops).chain, cfg.align)
    decreases |ops|
  {
    if ops != [] {
      StepRoomy(cfg, p, ops[0]);
      RunRoomy(cfg, Apply(cfg, p, ops[0]), ops[1..]);
    }
  }

  /** No run without wrapped requests makes a block, used or free, of fewer bytes than the alignment,
      unless the pool itself is smaller. */
  lemma EveryBlockRoomy(cfg: Config, ops: seq<Op>)
    requires CanRun(cfg, Fresh(cfg), ops) && cfg.align <= cfg.total && NoWrap(cfg, ops)
    ensures Roomy(Exec(cfg, Fresh(cfg), ops).chain, cfg.align)
  {
    RunRoomy(cfg, Fresh(cfg), ops);
  }

  /** No live allocation starts where a free block does. */
  lemma FreeNotLive(c: Chain, i: nat, x: (nat, nat))
    requires i < |c| && c[i].free && x in Live(c)
    ensures x.0 != Addr(c, i)
  {
    var j := ListedBlock(c, 0, false, x);
    if j < i { AddrMono(c, j, i); } else { AddrMono(c, i, j); }
  }

  /** Two live allocations never overlap, headers included. */
  lemma LiveDisjoint(c: Chain, x: (nat, nat), y: (nat, nat))
    requires x in Live(c) && y in Live(c) && x != y
    ensures x.0 + HEADER + x.1 <= y.0 || y.0 + HEADER + y.1 <= x.0
  {
    var i := ListedBlock(c, 0, false, x);
    var j := ListedBlock(c, 0, false, y);
    if i < j { AddrMono(c, i, j); } else { AddrMono(c, j, i); }
  }

  /** The call gives back the allocation whose header is at `a`, or all of them. */
  predicate Ends(p: Pool, op: Op, a: nat) {
    op.Reset? || (op.Deallocate? && op.i < |p.chain| && Addr(p.chain, op.i) == a)
  }

  predicate NeverEnds(cfg: Config, p: Pool, ops: seq<Op>, a: nat)
    requires CanRun(cfg, p, ops)
    decreases |ops|
  {
    ops != [] ==> !Ends(p, ops[0], a) && NeverEnds(cfg, Apply(cfg, p, ops[0]), ops[1..], a)
  }

  /** An allocation stays where it is, and as large as it is, through every run that does not
      give it back. */
  lemma {:induction false} AllocationStays(cfg: Config, p: Pool, ops: seq<Op>, x: (nat, nat))
    requires Inv(cfg, p) && CanRun(cfg, p, ops) && x in Live(p.chain) && NeverEnds(cfg, p, ops, x.0)
    ensures x in Live(Exec(cfg, p, ops).chain)
    decreases |ops|
  {
    if ops != [] {
      CallEffect(cfg, p, ops[0]);
      InvStep(cfg, p, ops[0]);
      AllocationStays(cfg, Apply(cfg, p, ops[0]), ops[1..], x);
    }
  }

  /** `owns` accepts the payload of a block exactly when that payload and the blocks after it
      fill more than one header. So a last block of at most `HEADER` bytes can be handed out
      but not given back. */
  lemma OwnsExactly(cfg: Config, p: Pool, i: nat)
    requires Inv(cfg, p) && i < |p.chain|
    ensures Owns(cfg, p.chain, i) <==> p.chain[i].size + Len(p.chain[i + 1..]) > HEADER
  {
    var c := p.chain;
    assert c == c[..i] + [c[i]] + c[i + 1..];
    Around(c[..i], [c[i]], c[i + 1..]);
    Few(c[i], c[i]);
  }
}
