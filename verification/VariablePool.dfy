/** `VariableMemoryPool`: first fit over the linked headers, at most one merge on each side when
  a block is given back.
 */
module VariablePool {
  import opened BlockChain
  import opened BlockHeaders
  import opened PoolModel

  predicate Fits(b: Block, n: nat) {
    b.free && b.size >= n
  }

  /** The first block that fits; the length of the chain if none does. */
  function FirstFit(c: Chain, n: nat): (i: nat)
    ensures i <= |c| && (forall j | 0 <= j < i :: !Fits(c[j], n)) && (i < |c| ==> Fits(c[i], n))
  {
    if c == [] || Fits(c[0], n) then 0 else 1 + FirstFit(c[1..], n)
  }

  class VariableMemoryPool {
    const cfg: Config
    var memory: Memory
    var head: int
    var used: int
    ghost var chain: Chain

    ghost predicate Valid()
      reads this
    {
      && chain != [] && Represents(memory, chain) && head == 0
      && 0 < cfg.align && cfg.total + HEADER + cfg.align < WORD
      && Len(chain) == HEADER + cfg.total
    }

    ghost function View(): Pool
      reads this
    {
      Pool(chain, used)
    }

    constructor (total: nat, align: nat)
      requires 0 < align && total + HEADER + align < WORD
      ensures Valid() && cfg == Config(total, align) && View() == Fresh(cfg)
    {
      cfg := Config(total, align);
      memory := map[0 := Header(total, true, NIL, NIL)];
      head := 0;
      used := 0;
      chain := [Block(total, true)];
      new;
      FreshInv(cfg);
    }

    /** Hands out the first block that fits, or nothing if none does. */
    method Allocate(request: nat) returns (ptr: int)
      requires Valid() && request < WORD
      modifies this
      ensures Valid()
      ensures request == 0 || FirstFit(old(chain), AlignUp(request, cfg.align)) == |old(chain)| ==>
                ptr == NIL && View() == old(View())
      ensures request > 0 && FirstFit(old(chain), AlignUp(request, cfg.align)) < |old(chain)| ==>
                var i := FirstFit(old(chain), AlignUp(request, cfg.align));
                && ptr == Addr(old(chain), i) + HEADER
                && Enabled(cfg, old(View()), PoolModel.Allocate(request, i))
                && View() == Apply(cfg, old(View()), PoolModel.Allocate(request, i))
    {
      if request == 0 {
        return NIL;
      }
      var size := AlignUp(request, cfg.align);
      var curr := head;
      ghost var k := 0;
      ghost var found := FirstFit(chain, size);
      while curr != NIL
        invariant Valid() && unchanged(this)
        invariant k <= |chain| && curr == (if k < |chain| then Addr(chain, k) else NIL)
        invariant k <= found
        decreases |chain| - k
      {
        Links(memory, chain, k);
        if memory[curr].free && memory[curr].size >= size {
          assert k == found;
          ptr := Take(curr, size, k);
          return;
        }
        curr := memory[curr].next;
        k := k + 1;
      }
      ptr := NIL;
    }

    /** Splits the block if the rest can be a block, and marks it used. */
    method Take(curr: int, size: nat, ghost k: nat) returns (ptr: int)
      requires Valid() && k < |chain| && curr == Addr(chain, k) && Fits(chain[k], size)
      modifies this
      ensures Valid() && ptr == curr + HEADER
      ensures chain == Allocated(old(chain), k, size, cfg.align) && used == old(used) + chain[k].size
    {
      AllocatedLive(chain, k, size, cfg.align);
      assert HeaderAt(memory, chain, k);
      if memory[curr].size >= size + HEADER + cfg.align {
        SplitRepresents(memory, chain, k, size);
        AddrSplit(chain, k, size, k);
        memory := SplitAt(memory, curr, size);
        chain := Split(chain, k, size);
      }
      assert HeaderAt(memory, chain, k);
      SetFreeRepresents(memory, chain, k, false);
      memory := SetFree(memory, curr, false);
      used := used + memory[curr].size;
      chain := Mark(chain, k, false);
      ptr := curr + HEADER;
    }

    predicate OwnsPtr(ptr: int) {
      0 <= ptr < cfg.total
    }

    /** Gives a block back. A null pointer, one outside the pool, or a block that is already
        free is ignored; otherwise the block is freed and merged with its free neighbours. */
    method Deallocate(ptr: int)
      requires Valid()
      requires ptr == NIL || !OwnsPtr(ptr) || IsBlock(chain, ptr - HEADER)
      modifies this
      ensures Valid()
      ensures ptr == NIL || !OwnsPtr(ptr) ==> View() == old(View())
      ensures ptr != NIL && OwnsPtr(ptr) ==>
                var i := BlockAt(old(chain), ptr - HEADER);
                if old(chain)[i].free then View() == old(View())
                else && chain == FreedOnce(old(chain), i) && used == old(used) - old(chain)[i].size
                     && (Coalesced(old(chain)) ==>
                           && Enabled(cfg, old(View()), PoolModel.Deallocate(i))
                           && View() == Apply(cfg, old(View()), PoolModel.Deallocate(i)))
    {
      if ptr == NIL || !OwnsPtr(ptr) {
        return;
      }
      var block := ptr - HEADER;
      ghost var i := BlockAt(chain, block);
      Links(memory, chain, i);
      if memory[block].free {
        return;
      }
      Release(block, i);
    }

    method Release(block: int, ghost i: nat)
      requires Valid() && i < |chain| && block == Addr(chain, i) && !chain[i].free
      modifies this
      ensures Valid() && chain == FreedOnce(old(chain), i) && used == old(used) - old(chain)[i].size
      ensures Coalesced(old(chain)) ==> chain == Freed(old(chain), i)
    {
      if Coalesced(chain) {
        OneMergePerSide(chain, i);
      }
      GiveBack(block, i);
      MergeAround(block, i);
    }

    /** The flag and the counter. */
    method GiveBack(block: int, ghost i: nat)
      requires Valid() && i < |chain| && block == Addr(chain, i) && !chain[i].free
      modifies this`memory, this`used, this`chain
      ensures Valid() && used == old(used) - old(chain)[i].size
      ensures chain == Mark(old(chain), i, true) && block == Addr(chain, i)
    {
      assert HeaderAt(memory, chain, i);
      SetFreeRepresents(memory, chain, i, true);
      MarkKeeps(chain, i, true);
      AddrMark(chain, i, true, i);
      memory := SetFree(memory, block, true);
      used := used - memory[block].size;
      chain := Mark(chain, i, true);
    }

    /** `merge`: at most one merge with the block before and one with the block after. */
    method MergeAround(at: int, ghost i: nat)
      requires Valid() && i < |chain| && at == Addr(chain, i) && chain[i].free
      modifies this`memory, this`chain
      ensures Valid()
      ensures var m := old(chain);
              var k := if i > 0 && m[i - 1].free then i - 1 else i;
              var d := if k < i then Merge(m, k) else m;
              chain == if k + 1 < |d| && d[k + 1].free then Merge(d, k) else d
    {
      var block := at;
      ghost var k := i;
      Links(memory, chain, i);
      if PrevFree(memory, block) {
        block := memory[block].prev;
        k := i - 1;
        MergeStep(block, k);
      }
      Links(memory, chain, k);
      if NextFree(memory, block) {
        MergeStep(block, k);
      }
    }

    /** One merge of the free block at `block` with the free block after it. */
    method MergeStep(block: int, ghost k: nat)
      requires Valid() && k + 1 < |chain| && block == Addr(chain, k) && chain[k].free && chain[k + 1].free
      modifies this`memory, this`chain
      ensures Valid() && chain == Merge(old(chain), k) && block == Addr(chain, k) && chain[k].free
    {
      MergeRepresents(memory, chain, k);
      MergeKeeps(chain, k);
      AddrMerge(chain, k, k);
      memory := MergeNext(memory, block);
      chain := Merge(chain, k);
    }

    method Reset()
      requires Valid()
      modifies this
      ensures Valid() && View() == Fresh(cfg)
    {
      FreshInv(cfg);
      head := 0;
      memory := memory[head := Header(cfg.total, true, NIL, NIL)];
      used := 0;
      chain := [Block(cfg.total, true)];
    }

    /** One pass over the chain that merges adjacent free blocks. */
    method Defragment()
      requires Valid()
      modifies this`memory, this`chain
      ensures Valid() && View() == Apply(cfg, old(View()), PoolModel.Defragment)
    {
      var curr := head;
      ghost var k := 0;
      Links(memory, chain, 0);
      while memory[curr].next != NIL
        invariant Valid() && k < |chain| && curr == Addr(chain, k)
        invariant curr in memory && memory[curr].next == (if k + 1 < |chain| then Addr(chain, k + 1) else NIL)
        invariant Defragmented(chain, k) == Defragmented(old(chain), 0)
        decreases |chain| - k
      {
        Links(memory, chain, k);
        if memory[curr].free && NextFree(memory, curr) {
          MergeStep(curr, k);
        } else {
          curr := memory[curr].next;
          k := k + 1;
        }
        Links(memory, chain, k);
      }
    }
  }
}
