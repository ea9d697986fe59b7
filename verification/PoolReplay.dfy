/** Whole histories of the two pool classes: what a pool object is after any list of calls, and that it
  keeps the invariant of the pool model.
 */
module PoolReplay {
  import opened BlockChain
  import opened BlockHeaders
  import opened PoolModel
  import opened SizeIndex
  import opened VariablePool
  import opened IndexedPool

  /** A call by a program that gives back only pointers it holds. */
  datatype Call = Ask(size: nat) | GiveBack(ptr: int) | StartOver | Tidy

  predicate Asks(calls: seq<Call>) {
    forall c <- calls :: c.Ask? ==> c.size < WORD
  }

  /** The pointers to the payloads of the live allocations. */
  function Payloads(c: Chain): set<int> {
    set x <- Live(c) :: x.0 + HEADER
  }

  /** The invariant of the model, and only pointers to live allocations are held. */
  predicate Good(cfg: Config, p: Pool, held: set<int>) {
    Inv(cfg, p) && held <= Payloads(p.chain)
  }

  predicate NoFit(c: Chain, n: nat) {
    forall b <- c :: !Fits(b, n)
  }

  /** What a call does to the pool and to the pointers held: a request of some size is met exactly
      if a free block is large enough, and a pointer that the pool does not own is lost. */
  ghost predicate Step(cfg: Config, p: Pool, held: set<int>, call: Call, q: Pool, now: set<int>)
    requires cfg.align > 0
  {
    match call
    case Ask(size) =>
      if size == 0 || NoFit(p.chain, AlignUp(size, cfg.align)) then q == p && now == held
      else exists i: nat :: Takes(cfg, p, held, size, i, q, now)
    case GiveBack(ptr) =>
      if ptr !in held || !(0 <= ptr < cfg.total) then q == p && now == held - {ptr}
      else exists i: nat :: Frees(cfg, p, held, ptr, i, q, now)
    case StartOver => q == Fresh(cfg) && now == {}
    case Tidy => p.chain != [] && q == Apply(cfg, p, Defragment) && now == held
  }

  ghost predicate Takes(cfg: Config, p: Pool, held: set<int>, size: nat, i: nat, q: Pool, now: set<int>) {
    && Enabled(cfg, p, Allocate(size, i)) && q == Apply(cfg, p, Allocate(size, i))
    && now == held + {Addr(p.chain, i) + HEADER}
  }

  ghost predicate Frees(cfg: Config, p: Pool, held: set<int>, ptr: int, i: nat, q: Pool, now: set<int>) {
    && Enabled(cfg, p, Deallocate(i)) && q == Apply(cfg, p, Deallocate(i))
    && ptr == Addr(p.chain, i) + HEADER && now == held - {ptr}
  }

  /** What the calls make of a fresh pool, from the first to the last. */
  ghost predicate After(cfg: Config, calls: seq<Call>, q: Pool, now: set<int>)
    requires cfg.align > 0
    decreases |calls|
  {
    if calls == [] then q == Fresh(cfg) && now == {} else
      var last := |calls| - 1;
      exists p, held :: After(cfg, calls[..last], p, held) && Step(cfg, p, held, calls[last], q, now)
  }

  lemma AfterMore(cfg: Config, calls: seq<Call>, i: nat, p: Pool, held: set<int>, q: Pool, now: set<int>)
    requires cfg.align > 0 && i < |calls|
    requires After(cfg, calls[..i], p, held) && Step(cfg, p, held, calls[i], q, now)
    ensures After(cfg, calls[..i + 1], q, now)
  {
    assert calls[..i + 1][..i] == calls[..i];
  }

  lemma TakesGood(cfg: Config, p: Pool, held: set<int>, size: nat, i: nat, q: Pool, now: set<int>)
    requires Good(cfg, p, held) && Takes(cfg, p, held, size, i, q, now)
    ensures Good(cfg, q, now)
  {
    InvStep(cfg, p, Allocate(size, i));
    CallEffect(cfg, p, Allocate(size, i));
    assert (Addr(p.chain, i), Granted(cfg, p.chain[i].size, size)) in Live(q.chain);
    assert Payloads(p.chain) <= Payloads(q.chain);
  }

  lemma FreesGood(cfg: Config, p: Pool, held: set<int>, ptr: int, i: nat, q: Pool, now: set<int>)
    requires Good(cfg, p, held) && Frees(cfg, p, held, ptr, i, q, now)
    ensures Good(cfg, q, now)
  {
    InvStep(cfg, p, Deallocate(i));
    CallEffect(cfg, p, Deallocate(i));
    forall other <- now ensures other in Payloads(q.chain) {
      assert other in Payloads(p.chain);
      var x :| x in Live(p.chain) && x.0 + HEADER == other;
      assert x in Live(q.chain);
    }
  }

  lemma StepGood(cfg: Config, p: Pool, held: set<int>, call: Call, q: Pool, now: set<int>)
    requires cfg.align > 0 && Good(cfg, p, held) && Step(cfg, p, held, call, q, now)
    ensures Good(cfg, q, now)
  {
    match call
    case Ask(size) =>
      if size > 0 && !NoFit(p.chain, AlignUp(size, cfg.align)) {
        var i: nat :| Takes(cfg, p, held, size, i, q, now);
        TakesGood(cfg, p, held, size, i, q, now);
      }
    case GiveBack(ptr) =>
      if ptr in held && 0 <= ptr < cfg.total {
        var i: nat :| Frees(cfg, p, held, ptr, i, q, now);
        FreesGood(cfg, p, held, ptr, i, q, now);
      }
    case StartOver => FreshInv(cfg);
    case Tidy =>
      InvStep(cfg, p, Defragment);
      CallEffect(cfg, p, Defragment);
  }

  /** Whatever the calls, the invariant of the model holds, and every pointer still held is that of
      a live allocation. */
  lemma {:induction false} AfterGood(cfg: Config, calls: seq<Call>, q: Pool, now: set<int>)
    requires cfg.align > 0 && After(cfg, calls, q, now)
    ensures Good(cfg, q, now)
    decreases |calls|
  {
    if calls == [] {
      FreshInv(cfg);
    } else {
      var last := |calls| - 1;
      var p, held :| After(cfg, calls[..last], p, held) && Step(cfg, p, held, calls[last], q, now);
      AfterGood(cfg, calls[..last], p, held);
      StepGood(cfg, p, held, calls[last], q, now);
    }
  }

  // ---------------------------------------------------------------- the two classes

  lemma Handed(cfg: Config, p: Pool, held: set<int>, size: nat, i: nat, q: Pool, ptr: int)
    requires Enabled(cfg, p, Allocate(size, i)) && q == Apply(cfg, p, Allocate(size, i))
    requires ptr == Addr(p.chain, i) + HEADER
    ensures Step(cfg, p, held, Ask(size), q, held + {ptr})
  {
    assert Fits(p.chain[i], AlignUp(size, cfg.align));
    assert Takes(cfg, p, held, size, i, q, held + {ptr});
  }

  lemma Returned(cfg: Config, p: Pool, held: set<int>, i: nat, q: Pool, ptr: int)
    requires cfg.align > 0 && Enabled(cfg, p, Deallocate(i)) && q == Apply(cfg, p, Deallocate(i))
    requires ptr == Addr(p.chain, i) + HEADER && ptr in held
    ensures Step(cfg, p, held, GiveBack(ptr), q, held - {ptr})
  {
    assert Frees(cfg, p, held, ptr, i, q, held - {ptr});
  }

  /** A pointer that is held belongs to a used block. */
  lemma HeldBlock(cfg: Config, p: Pool, held: set<int>, ptr: int)
    requires Good(cfg, p, held) && ptr in held
    ensures IsBlock(p.chain, ptr - HEADER) && !p.chain[BlockAt(p.chain, ptr - HEADER)].free
    ensures Coalesced(p.chain)
  {
    assert ptr in Payloads(p.chain);
    var x :| x in Live(p.chain) && x.0 + HEADER == ptr;
    var i := ListedBlock(p.chain, 0, false, x);
    BlockAtIs(p.chain, i);
  }

  lemma NoneListed(c: Chain, n: nat)
    requires forall x <- FreeBlocks(c) :: x.1 < n
    ensures NoFit(c, n)
  {
    forall b <- c ensures !Fits(b, n) {
      var i :| 0 <= i < |c| && c[i] == b;
      BlockListed(c, 0, i);
    }
  }

  method AskVariable(pool: VariableMemoryPool, size: nat, held: set<int>) returns (now: set<int>)
    requires pool.Valid() && size < WORD
    modifies pool
    ensures pool.Valid() && Step(pool.cfg, old(pool.View()), held, Ask(size), pool.View(), now)
  {
    ghost var p := pool.View();
    var ptr := pool.Allocate(size);
    if ptr == NIL {
      return held;
    }
    Handed(pool.cfg, p, held, size, FirstFit(p.chain, AlignUp(size, pool.cfg.align)), pool.View(), ptr);
    return held + {ptr};
  }

  method ReturnVariable(pool: VariableMemoryPool, ptr: int, held: set<int>) returns (now: set<int>)
    requires pool.Valid() && Good(pool.cfg, pool.View(), held) && ptr in held
    modifies pool
    ensures pool.Valid() && Step(pool.cfg, old(pool.View()), held, GiveBack(ptr), pool.View(), now)
  {
    ghost var p := pool.View();
    HeldBlock(pool.cfg, p, held, ptr);
    pool.Deallocate(ptr);
    if pool.OwnsPtr(ptr) {
      Returned(pool.cfg, p, held, BlockAt(p.chain, ptr - HEADER), pool.View(), ptr);
    }
    return held - {ptr};
  }

  /** One call to a `VariableMemoryPool`. */
  method CallVariable(pool: VariableMemoryPool, call: Call, held: set<int>) returns (now: set<int>)
    requires pool.Valid() && Good(pool.cfg, pool.View(), held) && (call.Ask? ==> call.size < WORD)
    modifies pool
    ensures pool.Valid() && Step(pool.cfg, old(pool.View()), held, call, pool.View(), now)
  {
    match call
    case Ask(size) =>
      now := AskVariable(pool, size, held);
    case GiveBack(ptr) =>
      now := held;
      if ptr in held {
        now := ReturnVariable(pool, ptr, held);
      }
    case StartOver =>
      pool.Reset();
      now := {};
    case Tidy =>
      pool.Defragment();
      now := held;
  }

  method AskIndexed(pool: IndexedMemoryPool, size: nat, held: set<int>) returns (now: set<int>)
    requires pool.Valid() && size < WORD
    modifies pool
    ensures pool.Valid() && Step(pool.cfg, old(pool.View()), held, Ask(size), pool.View(), now)
  {
    ghost var p := pool.View();
    var ptr := pool.Allocate(size);
    if ptr == NIL {
      if size > 0 {
        NoneListed(p.chain, AlignUp(size, pool.cfg.align));
      }
      return held;
    }
    Handed(pool.cfg, p, held, size, BlockAt(p.chain, ptr - HEADER), pool.View(), ptr);
    return held + {ptr};
  }

  method ReturnIndexed(pool: IndexedMemoryPool, ptr: int, held: set<int>) returns (now: set<int>)
    requires pool.Valid() && Good(pool.cfg, pool.View(), held) && ptr in held
    modifies pool
    ensures pool.Valid() && Step(pool.cfg, old(pool.View()), held, GiveBack(ptr), pool.View(), now)
  {
    ghost var p := pool.View();
    HeldBlock(pool.cfg, p, held, ptr);
    pool.Deallocate(ptr);
    if pool.OwnsPtr(ptr) {
      Returned(pool.cfg, p, held, BlockAt(p.chain, ptr - HEADER), pool.View(), ptr);
    }
    return held - {ptr};
  }

  /** One call to an `IndexedMemoryPool`. */
  method CallIndexed(pool: IndexedMemoryPool, call: Call, held: set<int>) returns (now: set<int>)
    requires pool.Valid() && Good(pool.cfg, pool.View(), held) && (call.Ask? ==> call.size < WORD)
    modifies pool
    ensures pool.Valid() && Step(pool.cfg, old(pool.View()), held, call, pool.View(), now)
  {
    match call
    case Ask(size) =>
      now := AskIndexed(pool, size, held);
    case GiveBack(ptr) =>
      now := held;
      if ptr in held {
        now := ReturnIndexed(pool, ptr, held);
      }
    case StartOver =>
      pool.Reset();
      now := {};
    case Tidy =>
      pool.Defragment();
      now := held;
  }

  /** A `VariableMemoryPool` through any list of calls: its headers are those of a chain that the calls
      lead to, which tiles the buffer, is coalesced and is counted right, and every pointer still
      held is that of a live allocation. */
  method ReplayVariable(total: nat, align: nat, calls: seq<Call>) returns (pool: VariableMemoryPool, held: set<int>)
    requires 0 < align && total + HEADER + align < WORD && Asks(calls)
    ensures fresh(pool) && pool.Valid() && pool.cfg == Config(total, align)
    ensures After(pool.cfg, calls, pool.View(), held) && Good(pool.cfg, pool.View(), held)
  {
    pool := new VariableMemoryPool(total, align);
    held := {};
    for i := 0 to |calls|
      invariant pool.Valid() && After(pool.cfg, calls[..i], pool.View(), held)
    {
      ghost var p := pool.View();
      AfterGood(pool.cfg, calls[..i], p, held);
      assert calls[i] in calls;
      var now := CallVariable(pool, calls[i], held);
      AfterMore(pool.cfg, calls, i, p, held, pool.View(), now);
      held := now;
    }
    assert calls[..|calls|] == calls;
    AfterGood(pool.cfg, calls, pool.View(), held);
  }

  /** The same for an `IndexedMemoryPool`, whose indexes list exactly the free blocks. */
  method ReplayIndexed(total: nat, align: nat, calls: seq<Call>) returns (pool: IndexedMemoryPool, held: set<int>)
    requires 0 < align && total + HEADER + align < WORD && Asks(calls)
    ensures fresh(pool) && pool.Valid() && pool.cfg == Config(total, align)
    ensures After(pool.cfg, calls, pool.View(), held) && Good(pool.cfg, pool.View(), held)
    ensures Agrees(pool.index, FreeBlocks(pool.chain))
  {
    pool := new IndexedMemoryPool(total, align);
    held := {};
    for i := 0 to |calls|
      invariant pool.Valid() && After(pool.cfg, calls[..i], pool.View(), held)
    {
      ghost var p := pool.View();
      AfterGood(pool.cfg, calls[..i], p, held);
      assert calls[i] in calls;
      var now := CallIndexed(pool, calls[i], held);
      AfterMore(pool.cfg, calls, i, p, held, pool.View(), now);
      held := now;
    }
    assert calls[..|calls|] == calls;
    AfterGood(pool.cfg, calls, pool.View(), held);
  }
}
