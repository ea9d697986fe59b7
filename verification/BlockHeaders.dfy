/** The chain as it lies in memory: headers linked both ways, keyed by their offset. Headers
  that a merge has swallowed stay behind as garbage.
 */
module BlockHeaders {
  import opened BlockChain

  const NIL: int := -1

  datatype Header = Header(size: int, free: bool, prev: int, next: int)

  type Memory = map<int, Header>

  function HeaderOf(c: Chain, i: nat): Header
    requires i < |c|
  {
    Header(c[i].size, c[i].free,
           if i == 0 then NIL else Addr(c, i - 1),
           if i + 1 == |c| then NIL else Addr(c, i + 1))
  }

  predicate HeaderAt(m: Memory, c: Chain, i: nat)
    requires i < |c|
  {
    Addr(c, i) in m && m[Addr(c, i)] == HeaderOf(c, i)
  }

  /** The links, sizes and flags in memory are those of the chain: `prev` and `next` mirror each
      other and every header is where the payload before it ends. */
  predicate Represents(m: Memory, c: Chain) {
    forall i | 0 <= i < |c| :: HeaderAt(m, c, i)
  }

  lemma AddrsDiffer(c: Chain, i: nat, j: nat)
    requires i < |c| && j < |c| && i != j
    ensures Addr(c, i) != Addr(c, j)
  {
    if i < j { AddrMono(c, i, j); } else { AddrMono(c, j, i); }
  }

  /** The block at `a` has a free block before it; and after it. */
  predicate PrevFree(m: Memory, a: int) {
    a in m && m[a].prev != NIL && m[a].prev in m && m[m[a].prev].free
  }

  predicate NextFree(m: Memory, a: int) {
    a in m && m[a].next != NIL && m[a].next in m && m[m[a].next].free
  }

  /** What the links of block `k` lead to. */
  lemma Links(m: Memory, c: Chain, k: nat)
    requires Represents(m, c) && k < |c|
    ensures var a := Addr(c, k);
            && a in m && m[a].size == c[k].size && m[a].free == c[k].free
            && (PrevFree(m, a) <==> k > 0 && c[k - 1].free) && (k > 0 ==> m[a].prev == Addr(c, k - 1))
            && (NextFree(m, a) <==> k + 1 < |c| && c[k + 1].free)
            && m[a].next == (if k + 1 < |c| then Addr(c, k + 1) else NIL)
  {
    assert HeaderAt(m, c, k);
    if k > 0 { assert HeaderAt(m, c, k - 1); }
    if k + 1 < |c| { assert HeaderAt(m, c, k + 1); }
  }

  // ---- the writes of each operation ------------------------------------------------------------

  function SetFree(m: Memory, a: int, free: bool): Memory
    requires a in m
  {
    m[a := m[a].(free := free)]
  }

  function SetPrev(m: Memory, a: int, prev: int): Memory {
    if a != NIL && a in m then m[a := m[a].(prev := prev)] else m
  }

  /** A new header `n` bytes into the payload of the block at `a`, linked in after it. */
  function SplitAt(m: Memory, a: int, n: int): Memory
    requires a in m
  {
    var b := a + HEADER + n;
    var cut := Header(m[a].size - n - HEADER, true, a, m[a].next);
    SetPrev(m[b := cut], m[a].next, b)[a := m[a].(next := b, size := n)]
  }

  /** The block at `a` swallows the one after it. */
  function MergeNext(m: Memory, a: int): Memory
    requires a in m && m[a].next in m
  {
    var b := m[m[a].next];
    SetPrev(m, b.next, a)[a := m[a].(size := m[a].size + HEADER + b.size, next := b.next)]
  }

  // ---- they do to memory what the model does to the chain -----------------------------------------

  lemma SetFreeRepresents(m: Memory, c: Chain, i: nat, free: bool)
    requires Represents(m, c) && i < |c| && Addr(c, i) in m
    ensures Represents(SetFree(m, Addr(c, i), free), Mark(c, i, free))
  {
    var d := Mark(c, i, free);
    forall j | 0 <= j < |d| ensures HeaderAt(SetFree(m, Addr(c, i), free), d, j) {
      assert HeaderAt(m, c, j);
      AddrMark(c, i, free, j);
      if j > 0 { AddrMark(c, i, free, j - 1); }
      if j + 1 < |c| { AddrMark(c, i, free, j + 1); }
      if j != i { AddrsDiffer(c, i, j); }
    }
  }

  lemma SplitRepresents(m: Memory, c: Chain, i: nat, n: nat)
    requires Represents(m, c) && i < |c| && c[i].size >= n + HEADER && Addr(c, i) in m
    ensures Represents(SplitAt(m, Addr(c, i), n), Split(c, i, n))
  {
    var d, m' := Split(c, i, n), SplitAt(m, Addr(c, i), n);
    forall j | 0 <= j < |d| ensures HeaderAt(m', d, j) {
      SplitHeader(m, c, i, n, j);
    }
  }

  lemma SplitHeader(m: Memory, c: Chain, i: nat, n: nat, j: nat)
    requires Represents(m, c) && i < |c| && c[i].size >= n + HEADER && Addr(c, i) in m && j <= |c|
    ensures HeaderAt(SplitAt(m, Addr(c, i), n), Split(c, i, n), j)
  {
    var k := if j <= i then j else j - 1;
    assert HeaderAt(m, c, i) && HeaderAt(m, c, k);
    SplitLinks(c, i, n, j);
    AddrNext(c, i);
    if i + 1 < |c| {
      assert HeaderAt(m, c, i + 1);
      if k != i + 1 { AddrsDiffer(c, k, i + 1); }
    }
    if k < i { AddrMono(c, k, i); }
    if k > i { AddrMono(c, i, k); }
  }

  /** Where the headers around index `j` of the cut chain are. */
  lemma SplitLinks(c: Chain, i: nat, n: nat, j: nat)
    requires i < |c| && c[i].size >= n + HEADER && j <= |c|
    ensures var d, b := Split(c, i, n), Addr(c, i) + HEADER + n;
            && Addr(d, j) == (if j <= i then Addr(c, j) else if j == i + 1 then b else Addr(c, j - 1))
            && HeaderOf(d, j).prev == (if j == 0 then NIL else if j == i + 1 then Addr(c, i)
                                       else if j == i + 2 then b else HeaderOf(c, if j <= i then j else j - 1).prev)
            && HeaderOf(d, j).next == (if j == i then b else HeaderOf(c, if j < i then j else j - 1).next)
  {
    AddrSplit(c, i, n, j);
    AddrSplit(c, i, n, j + 1);
    if j > 0 { AddrSplit(c, i, n, j - 1); }
  }

  lemma MergeRepresents(m: Memory, c: Chain, i: nat)
    requires Represents(m, c) && i + 1 < |c|
    ensures Addr(c, i) in m && m[Addr(c, i)].next in m
    ensures Represents(MergeNext(m, Addr(c, i)), Merge(c, i))
  {
    assert HeaderAt(m, c, i) && HeaderAt(m, c, i + 1);
    var d, m' := Merge(c, i), MergeNext(m, Addr(c, i));
    forall j | 0 <= j < |d| ensures HeaderAt(m', d, j) {
      MergeHeader(m, c, i, j);
    }
  }

  lemma MergeHeader(m: Memory, c: Chain, i: nat, j: nat)
    requires Represents(m, c) && i + 1 < |c| && j + 1 < |c|
    requires Addr(c, i) in m && m[Addr(c, i)].next in m
    ensures HeaderAt(MergeNext(m, Addr(c, i)), Merge(c, i), j)
  {
    var k := if j <= i then j else j + 1;
    assert HeaderAt(m, c, i) && HeaderAt(m, c, i + 1) && HeaderAt(m, c, k);
    AddrMerge(c, i, j);
    AddrMerge(c, i, j + 1);
    if j > 0 { AddrMerge(c, i, j - 1); }
    if i + 2 < |c| {
      assert HeaderAt(m, c, i + 2);
      if k != i + 2 { AddrsDiffer(c, k, i + 2); }
    }
    if k != i { AddrsDiffer(c, k, i); }
  }

  // ---- pointers into the chain --------------------------------------------------------------------

  /** `a` is the offset of a header of the chain. */
  ghost predicate IsBlock(c: Chain, a: int) {
    exists i | 0 <= i < |c| :: Addr(c, i) == a
  }

  ghost function BlockAt(c: Chain, a: int): (i: nat)
    requires IsBlock(c, a)
    ensures i < |c| && Addr(c, i) == a
  {
    var i :| 0 <= i < |c| && Addr(c, i) == a;
    i
  }

  lemma BlockAtIs(c: Chain, i: nat)
    requires i < |c|
    ensures IsBlock(c, Addr(c, i)) && BlockAt(c, Addr(c, i)) == i
  {
    if BlockAt(c, Addr(c, i)) != i {
      AddrsDiffer(c, i, BlockAt(c, Addr(c, i)));
    }
  }
}
