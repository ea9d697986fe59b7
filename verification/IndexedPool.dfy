/** `IndexedMemoryPool`: the same chain of linked headers, with the free blocks indexed by size
  class and by address.
 */
module IndexedPool {
  import opened BlockChain
  import opened BlockHeaders
  import opened PoolModel
  import opened SizeIndex
  import VariablePool

  function FreeBlocks(c: Chain): set<Entry> {
    Blocks(c, true)
  }

  lemma FreeOnce(c: Chain)
    ensures OneSizeEach(FreeBlocks(c))
  {
    forall x, y | x in FreeBlocks(c) && y in FreeBlocks(c) && x.0 == y.0 ensures x == y {
      var i := ListedBlock(c, 0, true, x);
      var j := ListedBlock(c, 0, true, y);
      if i != j { AddrsDiffer(c, i, j); }
    }
  }

  /** A free block's header is in memory with its size. */
  lemma FreeHeader(m: Memory, c: Chain, x: Entry)
    requires Represents(m, c) && x in FreeBlocks(c)
    ensures x.0 in m && m[x.0].size == x.1 && m[x.0].free && IsBlock(c, x.0)
    ensures c[BlockAt(c, x.0)] == Block(x.1, true)
  {
    var i := ListedBlock(c, 0, true, x);
    assert HeaderAt(m, c, i);
    BlockAtIs(c, i);
  }

  predicate IsLeast(s: set<nat>, m: nat) {
    m in s && (forall x <- s :: m <= x)
  }

  lemma {:induction false} LeastExists(s: set<nat>)
    requires s != {}
    ensures exists m :: IsLeast(s, m)
    decreases |s|
  {
    var a :| a in s;
    if s == {a} {
      assert IsLeast(s, a);
    } else {
      LeastExists(s - {a});
      var m :| IsLeast(s - {a}, m);
      assert forall x <- s :: x == a || x in s - {a};
      assert IsLeast(s, if a <= m then a else m);
    }
  }

  /** The headers of the listed blocks are in memory, with their sizes. */
  predicate SizesIn(m: Memory, free: set<Entry>) {
    forall x <- free :: x.0 in m && m[x.0].size == x.1
  }

  /** The first block of a bucket, by address, that is large enough. */
  method FirstInBucket(m: Memory, bucket: set<nat>, size: nat) returns (a: int)
    requires forall b <- bucket :: b in m
    ensures a == NIL ==> forall b <- bucket :: m[b].size < size
    ensures a != NIL ==>
              0 <= a && a in bucket && m[a].size >= size && (forall b <- bucket | m[b].size >= size :: a <= b)
  {
    var todo := bucket;
    while todo != {}
      invariant todo <= bucket && (forall b <- bucket | b !in todo :: m[b].size < size)
      decreases |todo|
    {
      LeastExists(todo);
      var b :| IsLeast(todo, b);
      if m[b].size >= size {
        return b;
      }
      todo := todo - {b};
    }
    a := NIL;
  }

  /** `find_best_fit`: the buckets in increasing order of class, from the class of the request. */
  method FindBestFit(m: Memory, ix: Index, size: nat, ghost free: set<Entry>) returns (a: int)
    requires Agrees(ix, free) && OneSizeEach(free) && SizesIn(m, free)
    ensures a == NIL ==> forall x <- free :: x.1 < size
    ensures a != NIL ==> a in m && 0 <= a && 0 <= m[a].size && Chosen(free, size, (a, m[a].size))
  {
    var todo := set k | k in ix.bySize && k >= SizeClass(size);
    Candidates(ix, free, size, todo);
    while todo != {}
      invariant (forall k <- todo :: k in ix.bySize) && (forall x <- free | x.1 >= size :: SizeClass(x.1) in todo)
      decreases |todo|
    {
      LeastExists(todo);
      var k: nat :| IsLeast(todo, k);
      BucketSizes(m, ix, free, k);
      a := FirstInBucket(m, ix.bySize[k], size);
      if a != NIL {
        FoundIsChosen(m, ix, free, size, todo, k, a);
        return;
      }
      forall x <- free | x.1 >= size ensures SizeClass(x.1) != k {
        assert SizeClass(x.1) == k ==> x.0 in Bucket(free, k);
      }
      todo := todo - {k};
    }
    a := NIL;
  }

  /** Every block that is large enough is in a bucket the search visits. */
  lemma Candidates(ix: Index, free: set<Entry>, size: nat, todo: set<nat>)
    requires Agrees(ix, free) && todo == set k | k in ix.bySize && k >= SizeClass(size)
    ensures forall x <- free | x.1 >= size :: SizeClass(x.1) in todo
  {
    forall x <- free | x.1 >= size ensures SizeClass(x.1) in todo {
      ClassMonotone(Classes(8), size, x.1);
    }
  }

  lemma BucketSizes(m: Memory, ix: Index, free: set<Entry>, k: nat)
    requires Agrees(ix, free) && SizesIn(m, free) && k in ix.bySize
    ensures forall b <- ix.bySize[k] :: b in m && m[b].size >= 0 && (b, m[b].size) in free && SizeClass(m[b].size) == k
  {
    forall b <- ix.bySize[k] ensures b in m && m[b].size >= 0 && (b, m[b].size) in free && SizeClass(m[b].size) == k {
      assert b in Bucket(free, k);
      var x :| x in free && SizeClass(x.1) == k && x.0 == b;
    }
  }

  lemma FoundIsChosen(m: Memory, ix: Index, free: set<Entry>, size: nat, todo: set<nat>, k: nat, a: nat)
    requires Agrees(ix, free) && OneSizeEach(free) && SizesIn(m, free) && k in ix.bySize && IsLeast(todo, k)
    requires forall x <- free | x.1 >= size :: SizeClass(x.1) in todo
    requires a in ix.bySize[k] && a in m && m[a].size >= size
    requires forall b <- ix.bySize[k] | b in m && m[b].size >= size :: a <= b
    ensures Chosen(free, size, (a, m[a].size))
  {
    BucketSizes(m, ix, free, k);
    forall y <- free | y.1 >= size ensures k < SizeClass(y.1) || (k == SizeClass(y.1) && a <= y.0) {
      if SizeClass(y.1) == k {
        assert y.0 in Bucket(free, k);
      }
    }
  }

  /** The indexed search finds a block exactly when the first-fit scan of the same chain does. */
  lemma FindsWhenFirstFitDoes(c: Chain, n: nat)
    ensures (exists x <- FreeBlocks(c) :: x.1 >= n) <==> VariablePool.FirstFit(c, n) < |c|
  {
    var i := VariablePool.FirstFit(c, n);
    if i < |c| {
      BlockListed(c, 0, i);
      assert (0 + Addr(c, i), c[i].size) in FreeBlocks(c);
    }
    forall x <- FreeBlocks(c) | x.1 >= n ensures i < |c| {
      var j := ListedBlock(c, 0, true, x);
      assert VariablePool.Fits(c[j], n);
    }
  }

  lemma SwapOut(free: set<Entry>, x: Entry, y: Entry, z: Entry)
    requires y != z && (z in free ==> z == x)
    ensures free - {x} + {z, y} - {z} == free - {x} + {y}
  {
  }

  lemma FreshIndexed(total: nat)
    ensures Agrees(Added(EmptyIndex, 0, total), FreeBlocks([Block(total, true)]))
  {
    FewBlocks(Block(total, true), Block(total, true), 0, true);
    AddedAgrees(EmptyIndex, {}, (0, total));
    assert {} + {(0, total)} == FreeBlocks([Block(total, true)]);
  }

  lemma SplitFree(c: Chain, i: nat, size: nat)
    requires i < |c| && c[i].free && c[i].size >= size + HEADER
    ensures FreeBlocks(Split(c, i, size)) - {(Addr(c, i), size)} ==
            FreeBlocks(c) - {(Addr(c, i), c[i].size)} + {(Addr(c, i) + HEADER + size, c[i].size - size - HEADER)}
  {
    var free, a := FreeBlocks(c), Addr(c, i);
    var x, y, z := (a, c[i].size), (a + HEADER + size, c[i].size - size - HEADER), (a, size);
    SplitBlocks(c, i, size);
    FreeOnce(c);
    assert z in free ==> z == x;
    SwapOut(free, x, y, z);
  }

  /** Cutting an unindexed free block and indexing the rest keeps the indexes in step. */
  lemma SplitAgrees(ix: Index, c: Chain, i: nat, size: nat)
    requires i < |c| && c[i].free && c[i].size >= size + HEADER
    requires Agrees(ix, FreeBlocks(c) - {(Addr(c, i), c[i].size)})
    ensures Agrees(Added(ix, Addr(c, i) + HEADER + size, c[i].size - size - HEADER),
                   FreeBlocks(Split(c, i, size)) - {(Addr(c, i), size)})
  {
    SplitFree(c, i, size);
    AddedAgrees(ix, FreeBlocks(c) - {(Addr(c, i), c[i].size)}, (Addr(c, i) + HEADER + size, c[i].size - size - HEADER));
  }

  lemma MergeFree(c: Chain, i: nat)
    requires i + 1 < |c| && c[i].free && c[i + 1].free
    ensures FreeBlocks(Merge(c, i)) - {(Addr(c, i), Merge(c, i)[i].size)} ==
            FreeBlocks(c) - {(Addr(c, i), c[i].size), (Addr(c, i + 1), c[i + 1].size)}
  {
    MergeBlocks(c, i);
  }

  /** A merge of an unindexed free block with an indexed neighbour, taken out of the indexes,
      leaves the merged block the unindexed one. */
  lemma MergeAgrees(ix: Index, c: Chain, i: nat, left: bool)
    requires i + 1 < |c| && c[i].free && c[i + 1].free
    requires var x, y := (Addr(c, i), c[i].size), (Addr(c, i + 1), c[i + 1].size);
             Agrees(ix, FreeBlocks(c) - {if left then y else x})
    ensures var x, y := (Addr(c, i), c[i].size), (Addr(c, i + 1), c[i + 1].size);
            var gone := if left then x else y;
            Agrees(Removed(ix, gone.0, gone.1), FreeBlocks(Merge(c, i)) - {(Addr(c, i), Merge(c, i)[i].size)})
  {
    var free, x, y := FreeBlocks(c), (Addr(c, i), c[i].size), (Addr(c, i + 1), c[i + 1].size);
    var gone, kept := if left then x else y, if left then y else x;
    MergeBlocks(c, i);
    MergeFree(c, i);
    FreeOnce(c);
    RemovedAgrees(ix, free - {kept}, gone);
    assert free - {kept} - {gone} == free - {x, y};
  }

  /** A merge into the left neighbour does not change how far left the merging reaches. */
  lemma LeftmostMerged(c: Chain, k: nat)
    requires 0 < k < |c| && c[k - 1].free
    ensures Leftmost(Merge(c, k - 1), k - 1) == Leftmost(c, k) < k
    ensures MergeLeft(c, Leftmost(c, k), k) == MergeLeft(Merge(c, k - 1), Leftmost(c, k), k - 1)
  {
    LeftmostPrefix(c, Merge(c, k - 1), k - 1);
  }

  lemma {:induction false} LeftmostPrefix(c: Chain, d: Chain, i: nat)
    requires i < |c| && i < |d| && (forall j | 0 <= j < i :: c[j] == d[j])
    ensures Leftmost(c, i) == Leftmost(d, i)
  {
    if i > 0 && c[i - 1].free {
      LeftmostPrefix(c, d, i - 1);
    }
  }

  lemma NoMoreLeft(m: Memory, c: Chain, k: nat)
    requires Represents(m, c) && k < |c| && !PrevFree(m, Addr(c, k))
    ensures Leftmost(c, k) == k && MergeLeft(c, k, k) == c
  {
    Links(m, c, k);
  }

  /** Merging block `i` of `c` to the left leads by way of `d` with its block `k`. */
  predicate MergesTo(c: Chain, i: nat, d: Chain, k: nat) {
    && i < |c| && k < |d| && Leftmost(d, k) == Leftmost(c, i) <= i
    && MergeLeft(d, Leftmost(d, k), k) == MergeLeft(c, Leftmost(c, i), i)
  }

  lemma MergesOn(c: Chain, i: nat, d: Chain, k: nat)
    requires MergesTo(c, i, d, k) && 0 < k && d[k - 1].free
    ensures MergesTo(c, i, Merge(d, k - 1), k - 1)
  {
    LeftmostMerged(d, k);
  }

  lemma MergesEnd(c: Chain, i: nat, m: Memory, d: Chain, k: nat)
    requires MergesTo(c, i, d, k) && Represents(m, d) && !PrevFree(m, Addr(d, k))
    ensures k == Leftmost(c, i) && d == MergeLeft(c, k, i)
  {
    NoMoreLeft(m, d, k);
  }

  lemma FreePrefix(c: Chain, k: nat)
    requires k < |c|
    ensures FreeBlocks(c[..k + 1]) == FreeBlocks(c[..k]) + (if c[k].free then {(Addr(c, k), c[k].size)} else {})
  {
    assert c[..k + 1] == c[..k] + [c[k]];
    ConcatBlocks(c[..k], [c[k]], 0, true);
    FewBlocks(c[k], c[k], Len(c[..k]), true);
  }

  lemma AllocatedLength(c: Chain, i: nat, n: nat, align: nat)
    requires i < |c| && c[i].free && c[i].size >= n
    ensures var d := Allocated(c, i, n, align); i < |d| && Len(d) == Len(c)
  {
    AllocatedLive(c, i, n, align);
  }

  lemma TakenOut(ix: Index, c: Chain, i: nat)
    requires Agrees(ix, FreeBlocks(c)) && i < |c| && c[i].free
    ensures Agrees(Removed(ix, Addr(c, i), c[i].size), FreeBlocks(c) - {(Addr(c, i), c[i].size)})
  {
    BlockListed(c, 0, i);
    FreeOnce(c);
    Leaves(ix, FreeBlocks(c), Addr(c, i), c[i].size);
  }

  lemma Leaves(ix: Index, free: set<Entry>, a: nat, size: nat)
    requires Agrees(ix, free) && OneSizeEach(free) && (a, size) in free
    ensures Agrees(Removed(ix, a, size), free - {(a, size)})
  {
    RemovedAgrees(ix, free, (a, size));
  }

  class IndexedMemoryPool {
    const cfg: Config
    var memory: Memory
    var head: int
    var used: int
    var index: Index
    ghost var chain: Chain

    /** Everything but the indexes. */
    ghost predicate Linked()
      reads this
    {
      && chain != [] && Represents(memory, chain) && head == 0
      && 0 < cfg.align && cfg.total + HEADER + cfg.align < WORD
      && Len(chain) == HEADER + cfg.total
    }

    ghost predicate Valid()
      reads this
    {
      Linked() && Agrees(index, FreeBlocks(chain))
    }

    ghost function View(): Pool
      reads this
    {
      Pool(chain, used)
    }

    constructor (total: nat, align: nat)
      requires 0 < align && total + HEADER + align < WORD
      ensures Valid() && cfg == Config(total, align) && View() == Fresh(cfg)
    {
      cfg := Config(total, align);
      memory := map[0 := Header(total, true, NIL, NIL)];
      head := 0;
      used := 0;
      index := Added(EmptyIndex, 0, total);
      chain := [Block(total, true)];
      new;
      FreshInv(cfg);
      FreshIndexed(total);
    }

    // ---- allocation ---------------------------------------------------------------------------

    /** Hands out the block the search chooses, or nothing if no free block is large enough. */
    method Allocate(request: nat) returns (ptr: int)
      requires Valid() && request < WORD
      modifies this
      ensures Valid()
      ensures ptr == NIL <==> request == 0 || (forall x <- FreeBlocks(old(chain)) :: x.1 < AlignUp(request, cfg.align))
      ensures ptr == NIL ==> View() == old(View())
      ensures ptr != NIL ==>
                && IsBlock(old(chain), ptr - HEADER)
                && var i := BlockAt(old(chain), ptr - HEADER);
                && Chosen(FreeBlocks(old(chain)), AlignUp(request, cfg.align),
                          (Addr(old(chain), i), old(chain)[i].size))
                && Enabled(cfg, old(View()), PoolModel.Allocate(request, i))
                && View() == Apply(cfg, old(View()), PoolModel.Allocate(request, i))
    {
      if request == 0 {
        return NIL;
      }
      var size := AlignUp(request, cfg.align);
      FreeOnce(chain);
      forall x <- FreeBlocks(chain) ensures x.0 in memory && memory[x.0].size == x.1 {
        FreeHeader(memory, chain, x);
      }
      var block := FindBestFit(memory, index, size, FreeBlocks(chain));
      if block == NIL {
        return NIL;
      }
      FreeHeader(memory, chain, (block, memory[block].size));
      ptr := Take(block, size, BlockAt(chain, block));
    }

    /** Takes the block out of the indexes, splits it if the rest can be a block, which then goes
        into the indexes, and marks it used. */
    method Take(block: nat, size: nat, ghost i: nat) returns (ptr: int)
      requires Valid() && i < |chain| && block == Addr(chain, i) && chain[i].free && chain[i].size >= size
      modifies this
      ensures Valid() && ptr == block + HEADER
      ensures chain == Allocated(old(chain), i, size, cfg.align) && used == old(used) + chain[i].size
    {
      AllocatedLength(chain, i, size, cfg.align);
      TakeOut(block, i);
      CutOff(block, size, i);
      TakeMark(block, i);
      ptr := block + HEADER;
    }

    method TakeOut(block: nat, ghost i: nat)
      requires Valid() && i < |chain| && block == Addr(chain, i) && chain[i].free
      modifies this`index
      ensures Agrees(index, FreeBlocks(chain) - {(block, chain[i].size)})
    {
      assert HeaderAt(memory, chain, i);
      TakenOut(index, chain, i);
      index := Removed(index, block, memory[block].size);
    }

    /** Splits the block if the rest can be a block. */
    method CutOff(block: nat, size: nat, ghost i: nat)
      requires Represents(memory, chain) && i < |chain| && block == Addr(chain, i) && chain[i].free
      requires Agrees(index, FreeBlocks(chain) - {(block, chain[i].size)})
      modifies this`memory, this`index, this`chain
      ensures Represents(memory, chain) && i < |chain| && block == Addr(chain, i) && chain[i].free
      ensures Agrees(index, FreeBlocks(chain) - {(block, chain[i].size)})
      ensures chain == if old(chain)[i].size >= size + HEADER + cfg.align then Split(old(chain), i, size)
                       else old(chain)
    {
      assert HeaderAt(memory, chain, i);
      if memory[block].size >= size + HEADER + cfg.align {
        SplitBlock(block, size, i);
      }
    }

    /** `split_block`, on a block that is not in the indexes. */
    method SplitBlock(block: nat, size: nat, ghost i: nat)
      requires Represents(memory, chain) && i < |chain| && block == Addr(chain, i) && chain[i].free
      requires chain[i].size >= size + HEADER
      requires Agrees(index, FreeBlocks(chain) - {(block, chain[i].size)})
      modifies this`memory, this`index, this`chain
      ensures Represents(memory, chain) && chain == Split(old(chain), i, size) && block == Addr(chain, i)
      ensures Agrees(index, FreeBlocks(chain) - {(block, size)})
    {
      assert HeaderAt(memory, chain, i);
      SplitRepresents(memory, chain, i, size);
      SplitAgrees(index, chain, i, size);
      AddrSplit(chain, i, size, i);
      AddrSplit(chain, i, size, i + 1);
      memory := SplitAt(memory, block, size);
      chain := Split(chain, i, size);
      assert HeaderAt(memory, chain, i + 1);
      index := Added(index, block + HEADER + size, memory[block + HEADER + size].size);
    }

    /** The last two lines: the flag and the counter. */
    method TakeMark(block: nat, ghost i: nat)
      requires chain != [] && Represents(memory, chain) && i < |chain| && block == Addr(chain, i) && chain[i].free
      requires Agrees(index, FreeBlocks(chain) - {(block, chain[i].size)})
      modifies this`memory, this`used, this`chain
      ensures Represents(memory, chain) && Agrees(index, FreeBlocks(chain))
      ensures chain == Mark(old(chain), i, false) && used == old(used) + chain[i].size
    {
      assert HeaderAt(memory, chain, i);
      SetFreeRepresents(memory, chain, i, false);
      MarkBlocks(chain, i, false);
      memory := SetFree(memory, block, false);
      used := used + memory[block].size;
      chain := Mark(chain, i, false);
    }

    // ---- giving back ----------------------------------------------------------------------------

    predicate OwnsPtr(ptr: int) {
      0 <= ptr < cfg.total
    }

    /** Gives a block back. A null pointer, one outside the pool, or a block that is already
        free is ignored; otherwise the block is freed, merged with its free neighbours and put
        into the indexes. */
    method Deallocate(ptr: int)
      requires Valid()
      requires ptr == NIL || !OwnsPtr(ptr) || IsBlock(chain, ptr - HEADER)
      modifies this
      ensures Valid()
      ensures ptr == NIL || !OwnsPtr(ptr) ==> View() == old(View())
      ensures ptr != NIL && OwnsPtr(ptr) ==>
                var i := BlockAt(old(chain), ptr - HEADER);
                if old(chain)[i].free then View() == old(View())
                else && Enabled(cfg, old(View()), PoolModel.Deallocate(i))
                     && View() == Apply(cfg, old(View()), PoolModel.Deallocate(i))
    {
      if ptr == NIL || !OwnsPtr(ptr) {
        return;
      }
      var block := ptr - HEADER;
      ghost var i := BlockAt(chain, block);
      Links(memory, chain, i);
      if memory[block].free {
        return;
      }
      Release(block, i);
    }

    method Release(at: int, ghost i: nat)
      requires Valid() && i < |chain| && at == Addr(chain, i) && !chain[i].free
      modifies this
      ensures Valid() && chain == Freed(old(chain), i) && used == old(used) - old(chain)[i].size
    {
      GiveBack(at, i);
      var block;
      ghost var k;
      block, k := MergePrevious(at, i);
      MergeFollowing(block, k);
      IndexBlock(block, k);
    }

    method IndexBlock(block: nat, ghost k: nat)
      requires Loose(block, k)
      modifies this`index
      ensures Valid()
    {
      ghost var x := (block, chain[k].size);
      Links(memory, chain, k);
      BlockListed(chain, 0, k);
      AddedAgrees(index, FreeBlocks(chain) - {x}, x);
      assert FreeBlocks(chain) - {x} + {x} == FreeBlocks(chain);
      index := Added(index, block, memory[block].size);
    }

    /** The free block at `block` is linked in but not in the indexes. */
    ghost predicate Loose(block: int, k: nat)
      reads this
    {
      && Linked() && k < |chain| && block == Addr(chain, k) && chain[k].free
      && Agrees(index, FreeBlocks(chain) - {(Addr(chain, k), chain[k].size)})
    }

    /** The flag and the counter. */
    method GiveBack(block: int, ghost i: nat)
      requires Valid() && i < |chain| && block == Addr(chain, i) && !chain[i].free
      modifies this`memory, this`used, this`chain
      ensures Loose(block, i)
      ensures chain == Mark(old(chain), i, true) && used == old(used) - old(chain)[i].size
    {
      assert HeaderAt(memory, chain, i);
      SetFreeRepresents(memory, chain, i, true);
      MarkBlocks(chain, i, true);
      MarkKeeps(chain, i, true);
      AddrMark(chain, i, true, i);
      memory := SetFree(memory, block, true);
      used := used - memory[block].size;
      chain := Mark(chain, i, true);
      assert FreeBlocks(chain) - {(block, chain[i].size)} == old(FreeBlocks(chain));
    }

    /** The first loop of `merge_with_neighbors`. */
    method MergePrevious(at: int, ghost i: nat) returns (block: nat, ghost k: nat)
      requires Loose(at, i)
      modifies this`memory, this`index, this`chain
      ensures Loose(block, k)
      ensures k == Leftmost(old(chain), i) && chain == MergeLeft(old(chain), k, i)
    {
      block, k := at, i;
      while PrevFree(memory, block)
        invariant Loose(block, k) && MergesTo(old(chain), i, chain, k)
        decreases k
      {
        block, k := MergeIntoPrevious(block, k, old(chain), i);
      }
      MergesEnd(old(chain), i, memory, chain, k);
    }

    method MergeIntoPrevious(at: nat, ghost k: nat, ghost c: Chain, ghost i: nat) returns (block: nat, ghost j: nat)
      requires Loose(at, k) && at in memory && PrevFree(memory, at) && MergesTo(c, i, chain, k)
      modifies this`memory, this`index, this`chain
      ensures j < k && Loose(block, j) && MergesTo(c, i, chain, j)
    {
      Links(memory, chain, k);
      MergesOn(c, i, chain, k);
      block, j := memory[at].prev, k - 1;
      MergeLoose(block, j, true);
    }

    /** The second loop of `merge_with_neighbors`. */
    method MergeFollowing(block: nat, ghost k: nat)
      requires Loose(block, k)
      modifies this`memory, this`index, this`chain
      ensures Loose(block, k) && chain == MergeRight(old(chain), k)
    {
      while NextFree(memory, block)
        invariant Loose(block, k)
        invariant MergeRight(chain, k) == MergeRight(old(chain), k)
        decreases |chain|
      {
        Links(memory, chain, k);
        MergeLoose(block, k, false);
      }
      Links(memory, chain, k);
    }

    /** One merge: the neighbour leaves the indexes, then the links and the size are set. The
        unindexed block is the right one of the two if `left`, and the left one otherwise. */
    method MergeLoose(a: nat, ghost k: nat, left: bool)
      requires k + 1 < |chain| && a == Addr(chain, k)
      requires Loose(if left then Addr(chain, k + 1) else a, if left then k + 1 else k)
      requires chain[k].free && chain[k + 1].free
      modifies this`memory, this`index, this`chain
      ensures Loose(a, k) && chain == Merge(old(chain), k)
    {
      Links(memory, chain, k);
      Links(memory, chain, k + 1);
      MergeAgrees(index, chain, k, left);
      MergeRepresents(memory, chain, k);
      MergeKeeps(chain, k);
      AddrMerge(chain, k, k);
      var gone := if left then a else memory[a].next;
      index := Removed(index, gone, memory[gone].size);
      memory := MergeNext(memory, a);
      chain := Merge(chain, k);
    }

    method Reset()
      requires Valid()
      modifies this
      ensures Valid() && View() == Fresh(cfg)
    {
      FreshInv(cfg);
      head := 0;
      memory := memory[head := Header(cfg.total, true, NIL, NIL)];
      used := 0;
      chain := [Block(cfg.total, true)];
      FreshIndexed(cfg.total);
      index := Added(EmptyIndex, head, memory[head].size);
    }

    /** One pass that merges adjacent free blocks, and one that rebuilds the indexes. */
    method Defragment()
      requires Linked()
      modifies this`memory, this`index, this`chain
      ensures Valid() && View() == Apply(cfg, old(View()), PoolModel.Defragment)
    {
      var curr := head;
      ghost var k := 0;
      Links(memory, chain, 0);
      while memory[curr].next != NIL
        invariant Linked() && k < |chain| && curr == Addr(chain, k)
        invariant curr in memory && memory[curr].next == (if k + 1 < |chain| then Addr(chain, k + 1) else NIL)
        invariant Defragmented(chain, k) == Defragmented(old(chain), 0)
        decreases |chain| - k
      {
        Links(memory, chain, k);
        if memory[curr].free && NextFree(memory, curr) {
          MergeRepresents(memory, chain, k);
          MergeKeeps(chain, k);
          AddrMerge(chain, k, k);
          memory := MergeNext(memory, curr);
          chain := Merge(chain, k);
        } else {
          curr := memory[curr].next;
          k := k + 1;
        }
        Links(memory, chain, k);
      }
      RebuildIndex();
    }

    method RebuildIndex()
      requires Linked()
      modifies this`index
      ensures Valid()
    {
      index := EmptyIndex;
      var curr := head;
      ghost var k := 0;
      assert FreeBlocks(chain[..0]) == {};
      while curr != NIL
        invariant k <= |chain| && curr == (if k < |chain| then Addr(chain, k) else NIL)
        invariant Agrees(index, FreeBlocks(chain[..k]))
        decreases |chain| - k
      {
        Links(memory, chain, k);
        FreePrefix(chain, k);
        if memory[curr].free {
          AddedAgrees(index, FreeBlocks(chain[..k]), (curr, memory[curr].size));
          index := Added(index, curr, memory[curr].size);
        }
        curr := memory[curr].next;
        k := k + 1;
      }
      assert chain[..k] == chain;
    }
  }
}
