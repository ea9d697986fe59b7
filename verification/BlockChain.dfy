/** The chain of blocks that both variable-size pools keep: each block is a header followed by
  its payload, and the next header starts where the payload ends. Offsets count from the start
  of the pool.
 */
module BlockChain {

  /** sizeof(BlockHeader): a size, a flag padded to eight bytes, and two links. */
  const HEADER: nat := 32

  datatype Block = Block(size: nat, free: bool)

  type Chain = seq<Block>

  /** Bytes a stretch of the chain occupies, headers included. */
  function Len(c: Chain): nat {
    if c == [] then 0 else HEADER + c[0].size + Len(c[1..])
  }

  /** Offset of the header of block `i`; for `i == |c|`, the end of the last payload. */
  function Addr(c: Chain, i: nat): nat
    requires i <= |c|
  {
    Len(c[..i])
  }

  // ---- what the operations do to the chain ----------------------------------------------

  function Mark(c: Chain, i: nat, free: bool): Chain
    requires i < |c|
  {
    c[i := c[i].(free := free)]
  }

  /** Cut block `i` after `n` bytes; the rest becomes a free block with a header of its own. */
  function Split(c: Chain, i: nat, n: nat): Chain
    requires i < |c| && c[i].size >= n + HEADER
  {
    c[..i] + [Block(n, c[i].free), Block(c[i].size - n - HEADER, true)] + c[i + 1..]
  }

  /** Block `i` swallows block `i + 1`, header and all. */
  function Merge(c: Chain, i: nat): Chain
    requires i + 1 < |c|
  {
    c[..i] + [Block(c[i].size + HEADER + c[i + 1].size, c[i].free)] + c[i + 2..]
  }

  /** Hand out `n` bytes of the free block `i`, cutting it if what is left can be a block. */
  function Allocated(c: Chain, i: nat, n: nat, align: nat): Chain
    requires i < |c| && c[i].size >= n
  {
    Mark(if c[i].size >= n + HEADER + align then Split(c, i, n) else c, i, false)
  }

  /** Swallow free blocks to the right of block `i` until there is none. */
  function MergeRight(c: Chain, i: nat): Chain
    requires i < |c|
    decreases |c|
  {
    if i + 1 < |c| && c[i + 1].free then MergeRight(Merge(c, i), i) else c
  }

  /** How far left the merging of block `i` reaches. */
  function Leftmost(c: Chain, i: nat): (k: nat)
    requires i < |c|
    ensures k <= i && (forall j | k <= j < i :: c[j].free) && (k > 0 ==> !c[k - 1].free)
  {
    if i > 0 && c[i - 1].free then Leftmost(c, i - 1) else i
  }

  /** Blocks `k..i` become one block, by merging block `i` into its left neighbour, and so on. */
  function MergeLeft(c: Chain, k: nat, i: nat): (d: Chain)
    requires k <= i < |c|
    ensures |d| == |c| - (i - k)
    decreases i
  {
    if k == i then c else MergeLeft(Merge(c, i - 1), k, i - 1)
  }

  /** Block `i` is given back and merged with its free neighbours on both sides. */
  function Freed(c: Chain, i: nat): Chain
    requires i < |c|
  {
    var m := Mark(c, i, true);
    MergeRight(MergeLeft(m, Leftmost(m, i), i), Leftmost(m, i))
  }

  /** The same with at most one merge on each side. */
  function FreedOnce(c: Chain, i: nat): Chain
    requires i < |c|
  {
    var m := Mark(c, i, true);
    var k := if i > 0 && m[i - 1].free then i - 1 else i;
    var d := if k < i then Merge(m, k) else m;
    if k + 1 < |d| && d[k + 1].free then Merge(d, k) else d
  }

  /** One pass that merges every two adjacent free blocks, from block `i` on. */
  function Defragmented(c: Chain, i: nat): Chain
    requires i < |c|
    decreases |c| - i
  {
    if i + 1 == |c| then c
    else if c[i].free && c[i + 1].free then Defragmented(Merge(c, i), i)
    else Defragmented(c, i + 1)
  }

  // ---- what is promised about the chain -----------------------------------------------------

  predicate BothFree(c: Chain, i: nat)
    requires i + 1 < |c|
  {
    c[i].free && c[i + 1].free
  }

  /** No two neighbours among the first blocks, up to block `n`, are both free. */
  predicate CoalescedTo(c: Chain, n: nat)
    requires n < |c|
  {
    forall i | 0 <= i < n :: !BothFree(c, i)
  }

  /** No two neighbours are both free. */
  predicate Coalesced(c: Chain) {
    c != [] ==> CoalescedTo(c, |c| - 1)
  }

  function UsedBytes(c: Chain): nat {
    if c == [] then 0 else (if c[0].free then 0 else c[0].size) + UsedBytes(c[1..])
  }

  /** The free, or the used, blocks of a stretch that starts at `base`: offset of the header,
      and size. */
  function BlocksFrom(c: Chain, base: nat, free: bool): set<(nat, nat)> {
    if c == [] then {}
    else (if c[0].free == free then {(base, c[0].size)} else {}) + BlocksFrom(c[1..], base + HEADER + c[0].size, free)
  }

  function Blocks(c: Chain, free: bool): set<(nat, nat)> {
    BlocksFrom(c, 0, free)
  }

  /** The live allocations of a pool. */
  function Live(c: Chain): set<(nat, nat)> {
    Blocks(c, false)
  }

  /** The offsets at which the blocks of a stretch that starts at `base` begin. */
  function AddrsFrom(c: Chain, base: nat): set<nat> {
    if c == [] then {} else {base} + AddrsFrom(c[1..], base + HEADER + c[0].size)
  }

  function Addrs(c: Chain): set<nat> {
    AddrsFrom(c, 0)
  }

  /** Every header, and so every payload, starts at a multiple of `align`. */
  predicate AddrsAligned(c: Chain, align: nat)
    requires align > 0
  {
    forall a <- Addrs(c) :: a % align == 0
  }

  // ---- chains in parts ----------------------------------------------------------------------

  lemma {:induction false} Concat(a: Chain, b: Chain)
    ensures Len(a + b) == Len(a) + Len(b)
    ensures UsedBytes(a + b) == UsedBytes(a) + UsedBytes(b)
  {
    if a == [] {
      assert a + b == b;
    } else {
      assert (a + b)[1..] == a[1..] + b;
      Concat(a[1..], b);
    }
  }

  lemma {:induction false} ConcatBlocks(a: Chain, b: Chain, base: nat, free: bool)
    ensures BlocksFrom(a + b, base, free) == BlocksFrom(a, base, free) + BlocksFrom(b, base + Len(a), free)
  {
    if a == [] {
      assert a + b == b;
    } else {
      assert (a + b)[1..] == a[1..] + b;
      ConcatBlocks(a[1..], b, base + HEADER + a[0].size, free);
    }
  }

  lemma {:induction false} ConcatAddrs(a: Chain, b: Chain, base: nat)
    ensures AddrsFrom(a + b, base) == AddrsFrom(a, base) + AddrsFrom(b, base + Len(a))
  {
    if a == [] {
      assert a + b == b;
    } else {
      assert (a + b)[1..] == a[1..] + b;
      ConcatAddrs(a[1..], b, base + HEADER + a[0].size);
    }
  }

  /** A chain that is `mid` between two parts. */
  lemma Around(l: Chain, mid: Chain, r: Chain)
    ensures Len(l + mid + r) == Len(l) + Len(mid) + Len(r)
    ensures UsedBytes(l + mid + r) == UsedBytes(l) + UsedBytes(mid) + UsedBytes(r)
  {
    Concat(l + mid, r);
    Concat(l, mid);
  }

  lemma AroundBlocks(l: Chain, mid: Chain, r: Chain, free: bool)
    ensures Blocks(l + mid + r, free) ==
            Blocks(l, free) + BlocksFrom(mid, Len(l), free) + BlocksFrom(r, Len(l) + Len(mid), free)
  {
    Concat(l, mid);
    ConcatBlocks(l + mid, r, 0, free);
    ConcatBlocks(l, mid, 0, free);
  }

  lemma AroundAddrs(l: Chain, mid: Chain, r: Chain)
    ensures Addrs(l + mid + r) == Addrs(l) + AddrsFrom(mid, Len(l)) + AddrsFrom(r, Len(l) + Len(mid))
  {
    Concat(l, mid);
    ConcatAddrs(l + mid, r, 0);
    ConcatAddrs(l, mid, 0);
  }

  /** What one and two blocks contribute. */
  lemma Few(b: Block, d: Block)
    ensures Len([b]) == HEADER + b.size && Len([b, d]) == 2 * HEADER + b.size + d.size
    ensures UsedBytes([b]) == (if b.free then 0 else b.size)
    ensures UsedBytes([b, d]) == (if b.free then 0 else b.size) + (if d.free then 0 else d.size)
  {
    assert [b][1..] == [] && [b, d][1..] == [d] && [d][1..] == [];
  }

  lemma FewAddrs(b: Block, d: Block, base: nat)
    ensures AddrsFrom([b], base) == {base}
    ensures AddrsFrom([b, d], base) == {base, base + HEADER + b.size}
  {
    assert [b][1..] == [] && [b, d][1..] == [d] && [d][1..] == [];
    assert AddrsFrom([d], base + HEADER + b.size) == {base + HEADER + b.size};
  }

  function OneBlock(b: Block, base: nat, free: bool): set<(nat, nat)> {
    if b.free == free then {(base, b.size)} else {}
  }

  lemma FewBlocks(b: Block, d: Block, base: nat, free: bool)
    ensures BlocksFrom([b], base, free) == OneBlock(b, base, free)
    ensures BlocksFrom([b, d], base, free) == OneBlock(b, base, free) + OneBlock(d, base + HEADER + b.size, free)
  {
    assert [b][1..] == [] && [b, d][1..] == [d] && [d][1..] == [];
    assert BlocksFrom([d], base + HEADER + b.size, free) == OneBlock(d, base + HEADER + b.size, free);
  }

  /** Two parts of the same length, put between the same neighbours. */
  lemma SwapPart(l: Chain, mid: Chain, mid': Chain, r: Chain)
    requires Len(mid) == Len(mid')
    ensures Len(l + mid' + r) == Len(l + mid + r)
    ensures UsedBytes(l + mid' + r) == UsedBytes(l + mid + r) - UsedBytes(mid) + UsedBytes(mid')
  {
    Around(l, mid, r);
    Around(l, mid', r);
  }

  lemma SwapPartBlocks(l: Chain, mid: Chain, mid': Chain, r: Chain, free: bool)
    requires Len(mid) == Len(mid')
    ensures var out, into := BlocksFrom(mid, Len(l), free), BlocksFrom(mid', Len(l), free);
            && Blocks(l + mid' + r, free) == Blocks(l + mid + r, free) - out + into
            && out <= Blocks(l + mid + r, free)
            && (forall x <- into :: x in Blocks(l + mid + r, free) ==> x in out)
  {
    AroundBlocks(l, mid, r, free);
    AroundBlocks(l, mid', r, free);
    PartsApart(l, mid, r, free);
    PartsApart(l, mid', r, free);
  }

  /** The blocks of a part are not those of its neighbours. */
  lemma PartsApart(l: Chain, mid: Chain, r: Chain, free: bool)
    ensures BlocksFrom(mid, Len(l), free) !! Blocks(l, free)
    ensures BlocksFrom(mid, Len(l), free) !! BlocksFrom(r, Len(l) + Len(mid), free)
  {
    forall x <- BlocksFrom(mid, Len(l), free)
      ensures x !in Blocks(l, free) && x !in BlocksFrom(r, Len(l) + Len(mid), free)
    {
      BlockInside(mid, Len(l), free, x);
      if x in Blocks(l, free) { BlockInside(l, 0, free, x); }
      if x in BlocksFrom(r, Len(l) + Len(mid), free) { BlockInside(r, Len(l) + Len(mid), free, x); }
    }
  }

  lemma SwapPartAddrs(l: Chain, mid: Chain, mid': Chain, r: Chain, more: set<nat>)
    requires Len(mid) == Len(mid') && AddrsFrom(mid', Len(l)) == AddrsFrom(mid, Len(l)) + more
    ensures Addrs(l + mid' + r) == Addrs(l + mid + r) + more
  {
    AroundAddrs(l, mid, r);
    AroundAddrs(l, mid', r);
  }

  /** Blocks lie inside their stretch, payload and all. */
  lemma {:induction false} BlockInside(c: Chain, base: nat, free: bool, x: (nat, nat))
    requires x in BlocksFrom(c, base, free)
    ensures base <= x.0 && x.0 + HEADER + x.1 <= base + Len(c)
  {
    if x != (base, c[0].size) {
      BlockInside(c[1..], base + HEADER + c[0].size, free, x);
    }
  }

  /** The block at index `i` is among them, at its address. */
  lemma {:induction false} BlockListed(c: Chain, base: nat, i: nat)
    requires i < |c|
    ensures (base + Addr(c, i), c[i].size) in BlocksFrom(c, base, c[i].free)
  {
    if i > 0 {
      assert c[..i][1..] == c[1..][..i - 1];
      BlockListed(c[1..], base + HEADER + c[0].size, i - 1);
    }
  }

  /** And each of them is the block at some index. */
  lemma {:induction false} ListedBlock(c: Chain, base: nat, free: bool, x: (nat, nat)) returns (i: nat)
    requires x in BlocksFrom(c, base, free)
    ensures i < |c| && x == (base + Addr(c, i), c[i].size) && c[i].free == free
  {
    if x == (base, c[0].size) && c[0].free == free {
      i := 0;
    } else {
      i := ListedBlock(c[1..], base + HEADER + c[0].size, free, x);
      assert c[..i + 1][1..] == c[1..][..i];
      i := i + 1;
    }
  }

  lemma AddrNext(c: Chain, i: nat)
    requires i < |c|
    ensures Addr(c, i + 1) == Addr(c, i) + HEADER + c[i].size
  {
    assert c[..i + 1] == c[..i] + [c[i]];
    Concat(c[..i], [c[i]]);
    Few(c[i], c[i]);
  }

  lemma {:induction false} AddrMono(c: Chain, i: nat, j: nat)
    requires i < j <= |c|
    ensures Addr(c, i) + HEADER + c[i].size <= Addr(c, j)
    decreases j
  {
    AddrNext(c, j - 1);
    if i + 1 < j {
      AddrMono(c, i, j - 1);
    }
  }

  /** Replacing a part by one of the same length moves nothing to the right of it. */
  lemma AddrReplaced(l: Chain, mid: Chain, mid': Chain, r: Chain, k: nat)
    requires k <= |r| && Len(mid) == Len(mid')
    ensures Addr(l + mid + r, |l| + |mid| + k) == Addr(l + mid' + r, |l| + |mid'| + k)
  {
    AddrBehind(l, mid, r, k);
    AddrBehind(l, mid', r, k);
  }

  lemma AddrBehind(l: Chain, mid: Chain, r: Chain, k: nat)
    requires k <= |r|
    ensures Addr(l + mid + r, |l| + |mid| + k) == Len(l) + Len(mid) + Len(r[..k])
  {
    assert (l + mid + r)[..|l| + |mid| + k] == l + mid + r[..k];
    Around(l, mid, r[..k]);
  }

  lemma AddrMark(c: Chain, i: nat, free: bool, j: nat)
    requires i < |c| && j <= |c|
    ensures Addr(Mark(c, i, free), j) == Addr(c, j)
  {
    var m := Mark(c, i, free);
    if j <= i {
      assert m[..j] == c[..j];
    } else {
      assert c == c[..i] + [c[i]] + c[i + 1..] && m == c[..i] + [m[i]] + c[i + 1..];
      Few(c[i], m[i]);
      Few(m[i], m[i]);
      AddrReplaced(c[..i], [c[i]], [m[i]], c[i + 1..], j - i - 1);
    }
  }

  /** A split leaves every old header where it was and adds one inside block `i`. */
  lemma AddrSplit(c: Chain, i: nat, n: nat, j: nat)
    requires i < |c| && c[i].size >= n + HEADER && j <= |c| + 1
    ensures Addr(Split(c, i, n), j) ==
            if j <= i then Addr(c, j) else if j == i + 1 then Addr(c, i) + HEADER + n else Addr(c, j - 1)
  {
    var d := Split(c, i, n);
    if j <= i {
      assert d[..j] == c[..j];
    } else if j == i + 1 {
      assert d[..i] == c[..i];
      AddrNext(d, i);
    } else {
      assert c == c[..i] + [c[i]] + c[i + 1..] && d == c[..i] + [d[i], d[i + 1]] + c[i + 1..];
      Few(c[i], c[i]);
      Few(d[i], d[i + 1]);
      AddrReplaced(c[..i], [c[i]], [d[i], d[i + 1]], c[i + 1..], j - i - 2);
    }
  }

  /** A merge leaves every surviving header where it was. */
  lemma AddrMerge(c: Chain, i: nat, j: nat)
    requires i + 1 < |c| && j < |c|
    ensures Addr(Merge(c, i), j) == if j <= i then Addr(c, j) else Addr(c, j + 1)
  {
    var d := Merge(c, i);
    if j <= i {
      assert d[..j] == c[..j];
    } else {
      assert c == c[..i] + [c[i], c[i + 1]] + c[i + 2..] && d == c[..i] + [d[i]] + c[i + 2..];
      Few(c[i], c[i + 1]);
      Few(d[i], d[i]);
      AddrReplaced(c[..i], [c[i], c[i + 1]], [d[i]], c[i + 2..], j - i - 1);
    }
  }

  // ---- merging free blocks changes nothing that matters ------------------------------------

  /** `d` is `c` with free blocks merged: same extent, same used bytes, same live allocations,
      and no header where there was none. */
  predicate Keeps(c: Chain, d: Chain) {
    Len(d) == Len(c) && UsedBytes(d) == UsedBytes(c) && Live(d) == Live(c) && Addrs(d) <= Addrs(c)
  }

  lemma MergeKeeps(c: Chain, i: nat)
    requires i + 1 < |c| && c[i].free && c[i + 1].free
    ensures Keeps(c, Merge(c, i))
  {
    var d, l, r := Merge(c, i), c[..i], c[i + 2..];
    assert c == l + [c[i], c[i + 1]] + r && d == l + [d[i]] + r;
    Few(c[i], c[i + 1]);
    Few(d[i], d[i]);
    FewAddrs(c[i], c[i + 1], Len(l));
    FewBlocks(c[i], c[i + 1], Len(l), false);
    FewAddrs(d[i], d[i], Len(l));
    FewBlocks(d[i], d[i], Len(l), false);
    SwapPart(l, [c[i], c[i + 1]], [d[i]], r);
    SwapPartBlocks(l, [c[i], c[i + 1]], [d[i]], r, false);
    SwapPartAddrs(l, [d[i]], [c[i], c[i + 1]], r, {Len(l) + HEADER + c[i].size});
  }

  lemma {:induction false} MergeRightKeeps(c: Chain, i: nat)
    requires i < |c| && c[i].free
    ensures Keeps(c, MergeRight(c, i))
    decreases |c|
  {
    if i + 1 < |c| && c[i + 1].free {
      MergeKeeps(c, i);
      MergeRightKeeps(Merge(c, i), i);
    }
  }

  lemma {:induction false} MergeLeftKeeps(c: Chain, k: nat, i: nat)
    requires k <= i < |c| && (forall j | k <= j <= i :: c[j].free)
    ensures Keeps(c, MergeLeft(c, k, i)) && MergeLeft(c, k, i)[k].free
    decreases i
  {
    if k < i {
      MergeKeeps(c, i - 1);
      MergeLeftKeeps(Merge(c, i - 1), k, i - 1);
    }
  }

  /** Defragmenting moves no live allocation, whatever the chain. */
  lemma {:induction false} DefragmentKeeps(c: Chain, i: nat)
    requires i < |c|
    ensures Keeps(c, Defragmented(c, i))
    decreases |c| - i
  {
    if i + 1 < |c| {
      if c[i].free && c[i + 1].free {
        MergeKeeps(c, i);
        DefragmentKeeps(Merge(c, i), i);
      } else {
        DefragmentKeeps(c, i + 1);
      }
    }
  }

  // ---- full coalescing ------------------------------------------------------------------

  /** One pass merges everything that can be merged. */
  lemma {:induction false} DefragmentCoalesces(c: Chain, i: nat)
    requires i < |c| && CoalescedTo(c, i)
    ensures Coalesced(Defragmented(c, i))
    decreases |c| - i
  {
    if i + 1 < |c| {
      if c[i].free && c[i + 1].free {
        var d := Merge(c, i);
        forall j | 0 <= j < i ensures !BothFree(d, j) {
          assert !BothFree(c, j);
        }
        DefragmentCoalesces(d, i);
      } else {
        DefragmentCoalesces(c, i + 1);
      }
    }
  }

  /** A coalesced chain gives the pass nothing to do. */
  lemma {:induction false} DefragmentIdle(c: Chain, i: nat)
    requires i < |c| && Coalesced(c)
    ensures Defragmented(c, i) == c
    decreases |c| - i
  {
    if i + 1 < |c| {
      assert !BothFree(c, i);
      DefragmentIdle(c, i + 1);
    }
  }

  /** On a coalesced chain one merge on each side of a freed block is all there is to do. */
  lemma OneMergePerSide(c: Chain, i: nat)
    requires i < |c| && Coalesced(c) && !c[i].free
    ensures Freed(c, i) == FreedOnce(c, i)
  {
    var m := Mark(c, i, true);
    var k := if i > 0 && m[i - 1].free then i - 1 else i;
    assert k > 0 && k < i ==> !BothFree(c, k - 1);
    assert Leftmost(m, i) == k;
    var d := MergeLeft(m, k, i);
    if k < i {
      assert MergeLeft(Merge(m, k), k, k) == Merge(m, k);
    }
    assert d == if k < i then Merge(m, k) else m;
    if k + 1 < |d| && d[k + 1].free {
      assert d[k + 1] == c[i + 1];
      assert i + 2 < |c| ==> !BothFree(c, i + 1);
      assert MergeRight(Merge(d, k), k) == Merge(d, k);
    }
  }

  /** Merging block `k`, whose left neighbour is used, with its right neighbour. */
  lemma MergeCoalesces(c: Chain, k: nat)
    requires k + 1 < |c| && (forall j | 0 <= j < |c| - 1 && j != k :: !BothFree(c, j))
    requires c[k + 1].free
    ensures Coalesced(Merge(c, k))
  {
    var d := Merge(c, k);
    forall j | 0 <= j < |d| - 1 ensures !BothFree(d, j) {
      assert j < k ==> d[j] == c[j] && !BothFree(c, j);
      assert j > k ==> d[j] == c[j + 1];
      assert j >= k ==> d[j + 1] == c[j + 2] && !BothFree(c, j + 1);
    }
  }

  lemma FreedCoalesces(c: Chain, i: nat)
    requires i < |c| && Coalesced(c) && !c[i].free
    ensures Coalesced(Freed(c, i))
  {
    OneMergePerSide(c, i);
    var m := Mark(c, i, true);
    forall j | 0 <= j < |c| - 1 && j != i - 1 && j != i ensures !BothFree(m, j) {
      assert !BothFree(c, j);
    }
    if i > 0 && c[i - 1].free {
      var d := Merge(m, i - 1);
      forall j | 0 <= j < |d| - 1 && j != i - 1 ensures !BothFree(d, j) {
        assert j < i - 1 ==> d[j] == m[j] && d[j + 1].free == m[j + 1].free && !BothFree(m, j);
        assert j >= i ==> d[j] == m[j + 1] && d[j + 1] == m[j + 2] && !BothFree(m, j + 1);
      }
      if i < |d| && d[i].free { MergeCoalesces(d, i - 1); }
    } else if i + 1 < |c| && c[i + 1].free {
      MergeCoalesces(m, i);
    }
  }

  lemma AllocatedCoalesces(c: Chain, i: nat, n: nat, align: nat)
    requires i < |c| && c[i].free && c[i].size >= n && Coalesced(c)
    ensures Coalesced(Allocated(c, i, n, align))
  {
    var d := Allocated(c, i, n, align);
    var split := c[i].size >= n + HEADER + align;
    forall j | 0 <= j < |d| - 1 ensures !BothFree(d, j) {
      if j + 1 < i || !split {
        assert d[j] == c[j] || !d[j].free;
        assert d[j + 1] == c[j + 1] || !d[j + 1].free;
        assert !BothFree(c, j);
      } else if j > i {
        assert d[j + 1] == c[j] && !BothFree(c, j - 1);
      }
    }
  }

  // ---- live allocations ---------------------------------------------------------------------

  lemma MarkKeeps(c: Chain, i: nat, free: bool)
    requires i < |c| && c[i].free != free
    ensures Len(Mark(c, i, free)) == Len(c) && Addrs(Mark(c, i, free)) == Addrs(c)
    ensures UsedBytes(Mark(c, i, free)) == if free then UsedBytes(c) - c[i].size else UsedBytes(c) + c[i].size
  {
    var m, l, r := Mark(c, i, free), c[..i], c[i + 1..];
    assert c == l + [c[i]] + r && m == l + [m[i]] + r;
    Few(c[i], c[i]);
    Few(m[i], m[i]);
    FewAddrs(c[i], c[i], Len(l));
    FewAddrs(m[i], m[i], Len(l));
    SwapPart(l, [c[i]], [m[i]], r);
    SwapPartAddrs(l, [c[i]], [m[i]], r, {});
  }

  /** Marking moves the block from one set to the other. */
  lemma MarkBlocks(c: Chain, i: nat, free: bool)
    requires i < |c| && c[i].free != free
    ensures var x := (Addr(c, i), c[i].size);
            && x in Blocks(c, !free) && x !in Blocks(c, free)
            && Blocks(Mark(c, i, free), !free) == Blocks(c, !free) - {x}
            && Blocks(Mark(c, i, free), free) == Blocks(c, free) + {x}
  {
    var m, l, r := Mark(c, i, free), c[..i], c[i + 1..];
    assert c == l + [c[i]] + r && m == l + [m[i]] + r;
    Few(c[i], c[i]);
    Few(m[i], m[i]);
    FewBlocks(c[i], c[i], Len(l), free);
    FewBlocks(c[i], c[i], Len(l), !free);
    FewBlocks(m[i], m[i], Len(l), free);
    FewBlocks(m[i], m[i], Len(l), !free);
    SwapPartBlocks(l, [c[i]], [m[i]], r, free);
    SwapPartBlocks(l, [c[i]], [m[i]], r, !free);
  }

  /** A merge of two free blocks replaces both by one at the address of the first. */
  lemma MergeBlocks(c: Chain, i: nat)
    requires i + 1 < |c| && c[i].free && c[i + 1].free
    ensures var x, y, z := (Addr(c, i), c[i].size), (Addr(c, i + 1), c[i + 1].size), (Addr(c, i), Merge(c, i)[i].size);
            && x in Blocks(c, true) && y in Blocks(c, true) && x != y && (z in Blocks(c, true) ==> z == x)
            && Blocks(Merge(c, i), true) == Blocks(c, true) - {x, y} + {z}
  {
    var d, l, r := Merge(c, i), c[..i], c[i + 2..];
    assert c == l + [c[i], c[i + 1]] + r && d == l + [d[i]] + r;
    AddrNext(c, i);
    Few(c[i], c[i + 1]);
    Few(d[i], d[i]);
    FewBlocks(c[i], c[i + 1], Len(l), true);
    FewBlocks(d[i], d[i], Len(l), true);
    SwapPartBlocks(l, [c[i], c[i + 1]], [d[i]], r, true);
  }

  /** A split of a free block puts two in its place. */
  lemma SplitBlocks(c: Chain, i: nat, n: nat)
    requires i < |c| && c[i].free && c[i].size >= n + HEADER
    ensures var x, y, z := (Addr(c, i), n), (Addr(c, i) + HEADER + n, c[i].size - n - HEADER), (Addr(c, i), c[i].size);
            && z in Blocks(c, true) && y !in Blocks(c, true)
            && Blocks(Split(c, i, n), true) == Blocks(c, true) - {z} + {x, y}
  {
    var d, l, r := Split(c, i, n), c[..i], c[i + 1..];
    assert c == l + [c[i]] + r && d == l + [d[i], d[i + 1]] + r;
    Few(c[i], c[i]);
    Few(d[i], d[i + 1]);
    FewBlocks(c[i], c[i], Len(l), true);
    FewBlocks(d[i], d[i + 1], Len(l), true);
    SwapPartBlocks(l, [c[i]], [d[i], d[i + 1]], r, true);
  }

  lemma SplitKeeps(c: Chain, i: nat, n: nat)
    requires i < |c| && c[i].free && c[i].size >= n + HEADER
    ensures Keeps(Split(c, i, n), c)
    ensures Addrs(Split(c, i, n)) == Addrs(c) + {Addr(c, i) + HEADER + n}
  {
    var d, l, r := Split(c, i, n), c[..i], c[i + 1..];
    MergeKeeps(d, i);
    assert Merge(d, i) == c;
    assert c == l + [c[i]] + r && d == l + [d[i], d[i + 1]] + r;
    Few(c[i], c[i]);
    Few(d[i], d[i + 1]);
    FewAddrs(c[i], c[i], Len(l));
    FewAddrs(d[i], d[i + 1], Len(l));
    SwapPartAddrs(l, [c[i]], [d[i], d[i + 1]], r, {Len(l) + HEADER + n});
  }

  /** Handing out part of a free block adds one live allocation, at that block's offset and of
      the size it then has, and touches no other. */
  lemma AllocatedLive(c: Chain, i: nat, n: nat, align: nat)
    requires i < |c| && c[i].free && c[i].size >= n
    ensures var d := Allocated(c, i, n, align);
            && Len(d) == Len(c) && i < |d| && Addr(d, i) == Addr(c, i)
            && d[i].size >= n && (align > 0 ==> d[i].size < n + HEADER + align)
            && UsedBytes(d) == UsedBytes(c) + d[i].size
            && Live(d) == Live(c) + {(Addr(c, i), d[i].size)}
  {
    var split := c[i].size >= n + HEADER + align;
    var e := if split then Split(c, i, n) else c;
    if split {
      SplitKeeps(c, i, n);
      AddrSplit(c, i, n, i);
    }
    MarkKeeps(e, i, false);
    MarkBlocks(e, i, false);
    AddrMark(e, i, false, i);
  }

  /** A block is cut exactly if it can keep a header and at least `align` bytes behind the `n` that
      are handed out; otherwise all of it is handed out. Every other block stays as it is. */
  lemma AllocatedExactly(c: Chain, i: nat, n: nat, align: nat)
    requires i < |c| && c[i].free && c[i].size >= n
    ensures var d := Allocated(c, i, n, align);
            && i < |d| && !d[i].free && d[..i] == c[..i]
            && (|d| == |c| + 1 <==> c[i].size - n >= HEADER + align)
            && (|d| == |c| + 1 ==>
                  && d[i].size == n && d[i + 1].free && d[i + 1].size >= align
                  && n + HEADER + d[i + 1].size == c[i].size && d[i + 2..] == c[i + 1..])
            && (|d| != |c| + 1 ==> |d| == |c| && d[i].size == c[i].size && d[i + 1..] == c[i + 1..])
  {
  }

  // ---- the smallest blocks --------------------------------------------------------------------

  /** Every block has at least `a` bytes. */
  predicate Roomy(c: Chain, a: nat) {
    forall b <- c :: b.size >= a
  }

  lemma AllocatedRoomy(c: Chain, i: nat, n: nat, align: nat)
    requires i < |c| && c[i].free && c[i].size >= n >= align && Roomy(c, align)
    ensures Roomy(Allocated(c, i, n, align), align)
  {
    var d := Allocated(c, i, n, align);
    AllocatedExactly(c, i, n, align);
    forall j | 0 <= j < |d| ensures d[j].size >= align {
      if j < i {
        assert d[j] == d[..i][j] == c[j];
      } else if |d| == |c| && j > i {
        assert d[j] == d[i + 1..][j - i - 1] == c[j];
      } else if j > i + 1 {
        assert d[j] == d[i + 2..][j - i - 2] == c[j - 1];
      }
    }
  }

  lemma MergeRoomy(c: Chain, i: nat, a: nat)
    requires i + 1 < |c| && Roomy(c, a)
    ensures Roomy(Merge(c, i), a)
  {
    assert c[i] in c;
  }

  lemma {:induction false} MergeLeftRoomy(c: Chain, k: nat, i: nat, a: nat)
    requires k <= i < |c| && Roomy(c, a)
    ensures Roomy(MergeLeft(c, k, i), a)
    decreases i
  {
    if k < i {
      MergeRoomy(c, i - 1, a);
      MergeLeftRoomy(Merge(c, i - 1), k, i - 1, a);
    }
  }

  lemma {:induction false} MergeRightRoomy(c: Chain, i: nat, a: nat)
    requires i < |c| && Roomy(c, a)
    ensures Roomy(MergeRight(c, i), a)
    decreases |c|
  {
    if i + 1 < |c| && c[i + 1].free {
      MergeRoomy(c, i, a);
      MergeRightRoomy(Merge(c, i), i, a);
    }
  }

  lemma FreedRoomy(c: Chain, i: nat, a: nat)
    requires i < |c| && Roomy(c, a)
    ensures Roomy(Freed(c, i), a)
  {
    var m := Mark(c, i, true);
    assert c[i] in c;
    MergeLeftRoomy(m, Leftmost(m, i), i, a);
    MergeRightRoomy(MergeLeft(m, Leftmost(m, i), i), Leftmost(m, i), a);
  }

  lemma {:induction false} DefragmentRoomy(c: Chain, i: nat, a: nat)
    requires i < |c| && Roomy(c, a)
    ensures Roomy(Defragmented(c, i), a)
    decreases |c| - i
  {
    if i + 1 < |c| {
      if c[i].free && c[i + 1].free {
        MergeRoomy(c, i, a);
        DefragmentRoomy(Merge(c, i), i, a);
      } else {
        DefragmentRoomy(c, i + 1, a);
      }
    }
  }

  /** Giving back block `i` removes it from the live allocations and touches no other. */
  lemma FreedLive(c: Chain, i: nat)
    requires i < |c| && !c[i].free
    ensures Len(Freed(c, i)) == Len(c) && Addrs(Freed(c, i)) <= Addrs(c)
    ensures UsedBytes(Freed(c, i)) == UsedBytes(c) - c[i].size
    ensures Live(Freed(c, i)) == Live(c) - {(Addr(c, i), c[i].size)}
  {
    var m := Mark(c, i, true);
    var k := Leftmost(m, i);
    MarkKeeps(c, i, true);
    MarkBlocks(c, i, true);
    MergeLeftKeeps(m, k, i);
    MergeRightKeeps(MergeLeft(m, k, i), k);
  }
}
