/** The strong/weak reference-count protocol shared by `my_shared_ptr` and `my_weak_ptr`, as an
  interleaving state machine over any number of threads, control blocks and handles. One step
  is one atomic operation on a counter, one `delete`, or one read or write of a handle.

  Handles may be members of the managed objects: destroying an object destroys them, which may
  destroy further objects on the same thread. An assignment releases its old reference before it
  looks at its source, so what matters is where source and target live.
 */
module ControlBlock {

  type Slot = nat      // a handle object
  type BlockId = nat
  type Tid = nat

  /** History of a block: which part of its life it is in, and which thread is to act. */
  datatype Phase =
    | Live                              // strong count positive
    | Doomed(t: Tid, left: set<Slot>)   // t took the strong count to 0 and runs the object's
                                        // destructor; `left` are the members still to be destroyed
    | Emptied(t: Tid)                   // t deleted the object and will drop the implicit weak reference
    | Expired                           // only weak handles are left
    | Unreferenced(t: Tid)              // t took the weak count to 0 and will delete the block
    | Freed

  /** `destroyed` and `freed` count the executions of `delete ptr_` and `delete this`. */
  datatype Block = Block(strong: int, weak: int, destroyed: nat, freed: nat, phase: Phase)

  /** What a non-empty handle holds: a block, as a shared or as a weak pointer. */
  datatype Ref = Ref(b: BlockId, isStrong: bool)

  /** What an operation does after it has released its old reference: nothing for a destructor,
      `reset()` clears the handle, an assignment takes over from its source. */
  datatype Rest = Nothing | Clear(dst: Slot) | Copy(dst: Slot, src: Slot) | Move(dst: Slot, src: Slot)

  /** A thread inside an operation; a thread that is in none has no entry. A thread that releases
      is in `Releasing` until every deletion that this has started is done; until then its
      target still shows the old reference, `was`. */
  datatype Pc =
    | Releasing(rest: Rest, was: Ref)
    | Locking(w: Slot, dst: Slot, current: int)
    | Locked(b: BlockId, dst: Slot)

  /** Empty handles have no entry in `handles`; a handle that has given up its reference counts
      as empty at once. `homes` says in which block's object a member handle lies, and `stale`
      what is left in the memory of destroyed shared handles. */
  datatype State = State(
    blocks: map<BlockId, Block>,
    handles: map<Slot, Ref>,
    pcs: map<Tid, Pc>,
    homes: map<Slot, BlockId>,
    stale: map<Slot, Ref>)

  datatype Action =
    | Create(t: Tid, dst: Slot, b: BlockId, members: set<Slot>)   // my_shared_ptr(T*), reset(T*)
    | AddRef(t: Tid, dst: Slot, src: Slot, isStrong: bool)        // copy constructions, weak from shared
    | Transfer(t: Tid, dst: Slot, src: Slot)                      // move constructions
    | Release(t: Tid, x: Slot, rest: Rest)                        // destructor, reset, assignment: first half
    | DestroyMember(t: Tid, b: BlockId, x: Slot)                  // the object's destructor reaches a member
    | DeleteObject(t: Tid, b: BlockId)                            // delete ptr_ ends
    | DropImplicit(t: Tid, b: BlockId)
    | DeleteBlock(t: Tid, b: BlockId)                             // delete this
    | Finish(t: Tid)                                              // the rest of the operation
    | LoadStrong(t: Tid, w: Slot, dst: Slot)                      // try_lock: the first load
    | CompareExchange(t: Tid, spurious: bool)                     // try_lock: one round of the loop
    | GiveUp(t: Tid)                                              // try_lock: current == 0
    | ReadPtr(t: Tid)                                             // get_ptr() after a successful try_lock
    | Inspect(t: Tid, x: Slot)                                    // expired(), use_count()
    | Dereference(t: Tid, x: Slot)                                // *p through a shared handle

  const Empty := State(map[], map[], map[], map[], map[])

  // ---- ownership of handles ---------------------------------------------------------

  function PinsOf(k: Rest): set<Slot> {
    match k
    case Nothing => {}
    case Clear(dst) => {dst}
    case _ => {k.dst, k.src}
  }

  /** The handles a thread is working on. */
  function Pins(pc: Pc): set<Slot> {
    match pc
    case Releasing(k, _) => PinsOf(k)
    case Locking(w, dst, _) => {w, dst}
    case Locked(_, dst) => {dst}
  }

  /** No thread is in the middle of an operation on the handle `x`. */
  predicate Free(s: State, x: Slot) {
    forall t <- s.pcs :: x !in Pins(s.pcs[t])
  }

  /** No thread but `t` works on the handles `xs`. */
  predicate OwnedBy(s: State, t: Tid, xs: set<Slot>) {
    forall u <- s.pcs | u != t :: Pins(s.pcs[u]) !! xs
  }

  /** The block `b` as memory shows it; an unknown address shows nothing. */
  function At(s: State, b: BlockId): Block {
    if b in s.blocks then s.blocks[b] else Block(0, 0, 0, 0, Freed)
  }

  /** A handle that an operation may begin on: no thread is at work on it, and the object that it
      is a member of, if any, is alive. */
  predicate Usable(s: State, x: Slot) {
    Free(s, x) && (x in s.homes ==> At(s, s.homes[x]).phase.Live?)
  }

  predicate Blank(s: State, x: Slot) {
    x !in s.handles && Usable(s, x)
  }

  predicate Ready(s: State, x: Slot) {
    x in s.handles && Usable(s, x)
  }

  predicate Idle(s: State, t: Tid) {
    t !in s.pcs
  }

  function Members(s: State, b: BlockId): set<Slot> {
    set x | x in s.homes && s.homes[x] == b
  }

  predicate Named(p: Phase) {
    p.Doomed? || p.Emptied? || p.Unreferenced?
  }

  predicate Names(p: Phase, t: Tid) {
    Named(p) && p.t == t
  }

  /** Storage for the members of a new object. */
  predicate Unused(s: State, xs: set<Slot>) {
    forall x <- xs :: x !in s.homes && x !in s.handles && x !in s.stale && Free(s, x)
  }

  // ---- steps --------------------------------------------------------------------------

  predicate CanRelease(s: State, x: Slot, k: Rest) {
    match k
    case Nothing => x !in s.homes
    case Clear(dst) => dst == x
    case _ => k.dst == x && k.src != x && Usable(s, k.src)
  }

  /** What program order and handle ownership allow. Operations begin on handles of living objects,
      and a destructor does not run into a handle that another thread is at work on; nothing here
      asks whether a block or an object is still there later: that is to be proved. A thread with
      several deletions under way does the innermost first; here it may take them in any order,
      which only adds runs. */
  predicate Enabled(s: State, a: Action) {
    match a
    case Create(t, dst, b, members) =>
      Idle(s, t) && Blank(s, dst) && b !in s.blocks && Unused(s, members) && dst !in members
    case AddRef(t, dst, src, isStrong) =>
      Idle(s, t) && Blank(s, dst) && Ready(s, src) && (isStrong ==> s.handles[src].isStrong)
    case Transfer(t, dst, src) => Idle(s, t) && Blank(s, dst) && Ready(s, src)
    case Release(t, x, k) => Idle(s, t) && Ready(s, x) && CanRelease(s, x, k)
    case DestroyMember(t, b, x) =>
      && b in s.blocks && s.blocks[b].phase.Doomed? && s.blocks[b].phase.t == t
      && x in s.blocks[b].phase.left && OwnedBy(s, t, {x})
    case DeleteObject(t, b) => b in s.blocks && s.blocks[b].phase == Doomed(t, {})
    case DropImplicit(t, b) => b in s.blocks && s.blocks[b].phase == Emptied(t)
    case DeleteBlock(t, b) => b in s.blocks && s.blocks[b].phase == Unreferenced(t)
    case Finish(t) => t in s.pcs && s.pcs[t].Releasing? && (forall b <- s.blocks :: !Names(s.blocks[b].phase, t))
    case LoadStrong(t, w, dst) => Idle(s, t) && Ready(s, w) && !s.handles[w].isStrong && Blank(s, dst)
    case CompareExchange(t, _) =>
      t in s.pcs && s.pcs[t].Locking? && s.pcs[t].current != 0 && s.pcs[t].w in s.handles
    case GiveUp(t) => t in s.pcs && s.pcs[t].Locking? && s.pcs[t].current == 0
    case ReadPtr(t) => t in s.pcs && s.pcs[t].Locked?
    case Inspect(t, x) => Idle(s, t) && Ready(s, x)
    case Dereference(t, x) => Idle(s, t) && Ready(s, x) && s.handles[x].isStrong
  }

  function SetBlock(s: State, b: BlockId, blk: Block): State {
    s.(blocks := s.blocks[b := blk])
  }

  /** `add_strong_ref` or `add_weak_ref`, the reference going to the handle `dst`. */
  function Acquire(s: State, r: Ref, dst: Slot): State {
    var blk := At(s, r.b);
    SetBlock(s, r.b, if r.isStrong then blk.(strong := blk.strong + 1) else blk.(weak := blk.weak + 1))
      .(handles := s.handles[dst := r])
  }

  function Moved(s: State, dst: Slot, src: Slot): State
    requires src in s.handles
  {
    s.(handles := (s.handles - {src})[dst := s.handles[src]])
  }

  function Goto(s: State, t: Tid, pc: Pc): State {
    s.(pcs := s.pcs[t := pc])
  }

  function Leave(s: State, t: Tid): State {
    s.(pcs := s.pcs - {t})
  }

  /** The block after the `fetch_sub` of `release_strong`, or of `release_weak`. `ms` are the
      members of its object. */
  function Fewer(blk: Block, isStrong: bool, t: Tid, ms: set<Slot>): Block {
    if isStrong then
      if blk.strong == 1 then blk.(strong := 0, phase := Doomed(t, ms)) else blk.(strong := blk.strong - 1)
    else
      if blk.weak == 1 then blk.(weak := 0, phase := Unreferenced(t)) else blk.(weak := blk.weak - 1)
  }

  function DropRef(s: State, t: Tid, r: Ref): State {
    SetBlock(s, r.b, Fewer(At(s, r.b), r.isStrong, t, Members(s, r.b)))
  }

  /** The handle `x` gives up its reference. */
  function Dropped(s: State, t: Tid, x: Slot): State
    requires x in s.handles
  {
    DropRef(s.(handles := s.handles - {x}), t, s.handles[x])
  }

  /** `x` is the handle that `t` is about to overwrite. */
  predicate OwnTarget(s: State, t: Tid, x: Slot) {
    t in s.pcs && s.pcs[t].Releasing? && !s.pcs[t].rest.Nothing? && s.pcs[t].rest.dst == x
  }

  /** The member `x` of the object of `b` is gone; a shared handle leaves its contents behind. */
  function Shrunk(s: State, b: BlockId, x: Slot, left: map<Slot, Ref>): State {
    var p := At(s, b).phase;
    SetBlock(s, b, At(s, b).(phase := if p.Doomed? then p.(left := p.left - {x}) else p)).(stale := s.stale + left)
  }

  /** What the destructor of the handle `x` leaves in memory: `my_weak_ptr` clears its pointer. */
  function Remains(s: State, x: Slot): map<Slot, Ref> {
    if x in s.handles && s.handles[x].isStrong then map[x := s.handles[x]] else map[]
  }

  /** What an assignment finds in its source, dead or alive. */
  function Found(s: State, src: Slot): set<Ref> {
    if src in s.handles then {s.handles[src]} else if src in s.stale then {s.stale[src]} else {}
  }

  /** The second half of an operation. */
  function Assigned(s: State, k: Rest): State {
    match k
    case Copy(dst, src) =>
      if src in s.handles then Acquire(s, s.handles[src], dst)
      else if src in s.stale then Acquire(s, s.stale[src], dst) else s
    case Move(dst, src) =>
      if src in s.handles then Moved(s, dst, src)
      else if src in s.stale then s.(handles := s.handles[dst := s.stale[src]]) else s
    case _ => s
  }

  function Next(s: State, a: Action): State
    requires Enabled(s, a)
  {
    match a
    case Create(t, dst, b, members) =>
      SetBlock(s, b, Block(1, 1, 0, 0, Live))
        .(handles := s.handles[dst := Ref(b, true)], homes := s.homes + map x | x in members :: b)
    case AddRef(t, dst, src, isStrong) => Acquire(s, Ref(s.handles[src].b, isStrong), dst)
    case Transfer(t, dst, src) => Moved(s, dst, src)
    case Release(t, x, k) => Goto(Dropped(s, t, x), t, Releasing(k, s.handles[x]))
    case DestroyMember(t, b, x) =>
      var d := if x in s.handles then Dropped(s, t, x)
               else if OwnTarget(s, t, x) then DropRef(s, t, s.pcs[t].was) else s;
      Shrunk(d, b, x, Remains(s, x))
    case DeleteObject(t, b) =>
      SetBlock(s, b, s.blocks[b].(destroyed := s.blocks[b].destroyed + 1, phase := Emptied(t)))
    case DropImplicit(t, b) =>
      SetBlock(s, b, if s.blocks[b].weak == 1 then s.blocks[b].(weak := 0, phase := Unreferenced(t))
                     else s.blocks[b].(weak := s.blocks[b].weak - 1, phase := Expired))
    case DeleteBlock(t, b) => SetBlock(s, b, s.blocks[b].(freed := s.blocks[b].freed + 1, phase := Freed))
    case Finish(t) => Assigned(Leave(s, t), s.pcs[t].rest)
    case LoadStrong(t, w, dst) => Goto(s, t, Locking(w, dst, At(s, s.handles[w].b).strong))
    case CompareExchange(t, spurious) =>
      var b := s.handles[s.pcs[t].w].b;
      if !spurious && At(s, b).strong == s.pcs[t].current
      then Goto(Acquire(s, Ref(b, true), s.pcs[t].dst), t, Locked(b, s.pcs[t].dst))
      else Goto(s, t, s.pcs[t].(current := At(s, b).strong))
    case GiveUp(t) => Leave(s, t)
    case ReadPtr(t) => Leave(s, t)
    case Inspect(t, x) => s
    case Dereference(t, x) => s
  }

  predicate CanRun(s: State, acts: seq<Action>)
    decreases |acts|
  {
    acts == [] || (Enabled(s, acts[0]) && CanRun(Next(s, acts[0]), acts[1..]))
  }

  function Exec(s: State, acts: seq<Action>): State
    requires CanRun(s, acts)
    decreases |acts|
  {
    if acts == [] then s else Exec(Next(s, acts[0]), acts[1..])
  }

  // ---- what a step touches --------------------------------------------------------------

  /** The existing control blocks that a step reads, writes or deletes. */
  function Blocks(s: State, a: Action): set<BlockId>
    requires Enabled(s, a)
  {
    match a
    case Create(_, _, _, _) => {}
    case AddRef(_, _, src, _) => {s.handles[src].b}
    case Transfer(_, _, _) => {}
    case Release(_, x, _) => {s.handles[x].b}
    case DestroyMember(_, b, x) => {b} + if x in s.handles then {s.handles[x].b} else {}
    case Finish(t) => if s.pcs[t].rest.Copy? then set r | r in Found(s, s.pcs[t].rest.src) :: r.b else {}
    case LoadStrong(_, w, _) => {s.handles[w].b}
    case CompareExchange(t, _) => {s.handles[s.pcs[t].w].b}
    case GiveUp(_) => {}
    case ReadPtr(t) => {s.pcs[t].b}
    case Inspect(_, x) => {s.handles[x].b}
    case Dereference(_, x) => {}
    case _ => {a.b}
  }

  /** The handles that it reads or writes. */
  function Slots(s: State, a: Action): set<Slot>
    requires Enabled(s, a)
  {
    match a
    case Create(_, dst, _, _) => {dst}
    case AddRef(_, dst, src, _) => {dst, src}
    case Transfer(_, dst, src) => {dst, src}
    case Release(_, x, _) => {x}
    case DestroyMember(_, _, x) => {x}
    case Finish(t) => Pins(s.pcs[t])
    case LoadStrong(_, w, _) => {w}
    case CompareExchange(t, _) => {s.pcs[t].w}
    case GiveUp(t) => {s.pcs[t].dst}
    case ReadPtr(t) => {s.pcs[t].dst}
    case Inspect(_, x) => {x}
    case Dereference(_, x) => {x}
    case _ => {}
  }

  /** The objects that it uses or deletes, other than through their members. */
  function Objects(s: State, a: Action): set<BlockId>
    requires Enabled(s, a)
  {
    match a
    case DeleteObject(_, b) => {b}
    case ReadPtr(t) => {s.pcs[t].b}
    case Dereference(_, x) => {s.handles[x].b}
    case _ => {}
  }

  /** A destructor reaches the handle that its own thread is about to overwrite, and gives up a
      second time the reference that this handle still shows. */
  predicate Twice(s: State, a: Action) {
    a.DestroyMember? && OwnTarget(s, a.t, a.x)
  }

  /** The memory of the handle `x` is still there. */
  predicate Standing(s: State, x: Slot) {
    x in s.homes ==> At(s, s.homes[x]).destroyed == 0
  }

  /** The step touches no freed control block and no destroyed object, members included, and
      releases nothing twice. */
  predicate Safe(s: State, a: Action)
    requires Enabled(s, a)
  {
    && (forall b <- Blocks(s, a) :: b in s.blocks && s.blocks[b].freed == 0)
    && (forall x <- Slots(s, a) :: Standing(s, x))
    && (forall b <- Objects(s, a) :: b in s.blocks && s.blocks[b].destroyed == 0)
    && !Twice(s, a)
  }

  predicate AllSafe(s: State, acts: seq<Action>)
    requires CanRun(s, acts)
    decreases |acts|
  {
    acts == [] || (Safe(s, acts[0]) && AllSafe(Next(s, acts[0]), acts[1..]))
  }

  predicate HasSource(k: Rest) {
    k.Copy? || k.Move?
  }

  /** The step shows that an operation's target, or its source, lies in an object that the
      operation's own release destroys: the destructor reaches the target, or the source is gone
      when its turn comes. */
  predicate Inside(s: State, a: Action)
    requires Enabled(s, a)
  {
    || Twice(s, a)
    || (a.Finish? && HasSource(s.pcs[a.t].rest) && !Standing(s, s.pcs[a.t].rest.src))
  }

  predicate NoneInside(s: State, acts: seq<Action>)
    requires CanRun(s, acts)
    decreases |acts|
  {
    acts == [] || (!Inside(s, acts[0]) && NoneInside(Next(s, acts[0]), acts[1..]))
  }

  // ---- counting handles ---------------------------------------------------------------

  function Holders(m: map<Slot, Ref>, r: Ref): set<Slot> {
    set x | x in m && m[x] == r
  }

  /** A handle enters: its reference gains one holder, the others none. */
  lemma HoldersPut(m: map<Slot, Ref>, x: Slot, r: Ref, q: Ref)
    requires x !in m
    ensures |Holders(m[x := r], q)| == |Holders(m, q)| + (if r == q then 1 else 0)
  {
    if r == q {
      assert Holders(m[x := r], q) == Holders(m, q) + {x};
    } else {
      assert Holders(m[x := r], q) == Holders(m, q);
    }
  }

  lemma HoldersDrop(m: map<Slot, Ref>, x: Slot, q: Ref)
    requires x in m
    ensures |Holders(m - {x}, q)| == |Holders(m, q)| - (if m[x] == q then 1 else 0)
  {
    if m[x] == q {
      assert Holders(m - {x}, q) == Holders(m, q) - {x};
    } else {
      assert Holders(m - {x}, q) == Holders(m, q);
    }
  }

  // ---- the inductive invariant ----------------------------------------------------------

  /** All shared handles together hold one weak reference, until the thread that destroyed the
      object gives it up. */
  function Implicit(p: Phase): int {
    if p.Live? || p.Doomed? || p.Emptied? then 1 else 0
  }

  /** Each counter is the number of handles that hold the block, the implicit one included. */
  predicate CountOk(handles: map<Slot, Ref>, b: BlockId, blk: Block) {
    && blk.strong == |Holders(handles, Ref(b, true))|
    && blk.weak == |Holders(handles, Ref(b, false))| + Implicit(blk.phase)
  }

  predicate CountsOk(s: State) {
    && (forall b <- s.blocks :: CountOk(s.handles, b, s.blocks[b]))
    && (forall x <- s.handles :: s.handles[x].b in s.blocks)
  }

  /** What each phase says about the block itself. */
  predicate PhaseOk(blk: Block) {
    && (blk.phase.Live? <==> blk.strong > 0)
    && (blk.phase.Unreferenced? || blk.phase.Freed? <==> blk.weak == 0)
    && blk.destroyed == (if blk.phase.Live? || blk.phase.Doomed? then 0 else 1)
    && blk.freed == (if blk.phase.Freed? then 1 else 0)
  }

  predicate PhasesOk(s: State) {
    forall b <- s.blocks :: PhaseOk(s.blocks[b])
  }

  predicate InRelease(pcs: map<Tid, Pc>, t: Tid) {
    t in pcs && pcs[t].Releasing?
  }

  /** A block whose phase names a thread has that thread at work. */
  predicate Attended(s: State) {
    forall b <- s.blocks | Named(s.blocks[b].phase) :: InRelease(s.pcs, s.blocks[b].phase.t)
  }

  /** The object of a block in this phase still has its member `x`. */
  predicate Keeps(p: Phase, x: Slot) {
    p.Live? || (p.Doomed? && x in p.left)
  }

  predicate Intact(s: State, x: Slot) {
    x in s.homes ==> Keeps(At(s, s.homes[x]).phase, x)
  }

  predicate HomesOk(s: State) {
    && (forall x <- s.homes :: s.homes[x] in s.blocks)
    && (forall x <- s.handles :: Intact(s, x))
    && (forall x <- s.stale :: x in s.homes && !Intact(s, x))
    && (forall b <- s.blocks | s.blocks[b].phase.Doomed? :: s.blocks[b].phase.left <= Members(s, b))
  }

  /** The source of `t`'s own assignment may go down with what `t` releases. */
  predicate Lost(s: State, t: Tid, x: Slot) {
    && InRelease(s.pcs, t) && HasSource(s.pcs[t].rest) && s.pcs[t].rest.src == x && x in s.homes
    && var blk := At(s, s.homes[x]);
       blk.destroyed > 0 || (blk.phase.Doomed? && blk.phase.t == t)
  }

  predicate PinsOk(s: State) {
    forall t, x | t in s.pcs && x in Pins(s.pcs[t]) :: Intact(s, x) || Lost(s, t, x)
  }

  predicate PcOk(handles: map<Slot, Ref>, pc: Pc) {
    match pc
    case Releasing(k, _) => (!k.Nothing? ==> k.dst !in handles) && (HasSource(k) ==> k.dst != k.src)
    case Locking(w, dst, _) => w in handles && !handles[w].isStrong && dst !in handles && w != dst
    case Locked(b, dst) => dst in handles && handles[dst] == Ref(b, true)
  }

  predicate PcsOk(s: State) {
    forall t <- s.pcs :: PcOk(s.handles, s.pcs[t])
  }

  predicate PinsDisjoint(s: State) {
    forall t, u | t in s.pcs && u in s.pcs && t != u :: Pins(s.pcs[t]) !! Pins(s.pcs[u])
  }

  predicate Inv(s: State) {
    CountsOk(s) && PhasesOk(s) && Attended(s) && HomesOk(s) && PinsOk(s) && PcsOk(s) && PinsDisjoint(s)
  }

  // ---- each step keeps the counts -------------------------------------------------------

  lemma AcquireCounts(s: State, r: Ref, dst: Slot)
    requires CountsOk(s) && r.b in s.blocks && dst !in s.handles
    ensures CountsOk(Acquire(s, r, dst))
  {
    var s' := Acquire(s, r, dst);
    forall c <- s'.blocks ensures CountOk(s'.handles, c, s'.blocks[c]) {
      HoldersPut(s.handles, dst, r, Ref(c, true));
      HoldersPut(s.handles, dst, r, Ref(c, false));
    }
  }

  lemma MovedCounts(s: State, dst: Slot, src: Slot)
    requires CountsOk(s) && src in s.handles && dst !in s.handles
    ensures CountsOk(Moved(s, dst, src))
  {
    var s' := Moved(s, dst, src);
    forall c, k | c in s'.blocks ensures |Holders(s'.handles, Ref(c, k))| == |Holders(s.handles, Ref(c, k))| {
      HoldersDrop(s.handles, src, Ref(c, k));
      HoldersPut(s.handles - {src}, dst, s.handles[src], Ref(c, k));
    }
    forall c <- s'.blocks ensures CountOk(s'.handles, c, s'.blocks[c]) {
    }
  }

  lemma CreateCounts(s: State, t: Tid, dst: Slot, b: BlockId, members: set<Slot>)
    requires CountsOk(s) && Enabled(s, Create(t, dst, b, members))
    ensures CountsOk(Next(s, Create(t, dst, b, members)))
  {
    var s' := Next(s, Create(t, dst, b, members));
    assert Holders(s.handles, Ref(b, true)) == {} == Holders(s.handles, Ref(b, false));
    forall c <- s'.blocks ensures CountOk(s'.handles, c, s'.blocks[c]) {
      HoldersPut(s.handles, dst, Ref(b, true), Ref(c, true));
      HoldersPut(s.handles, dst, Ref(b, true), Ref(c, false));
    }
  }

  lemma DroppedCounts(s: State, t: Tid, x: Slot)
    requires CountsOk(s) && PhasesOk(s) && x in s.handles
    ensures CountsOk(Dropped(s, t, x))
  {
    var s' := Dropped(s, t, x);
    Held(s, x);
    forall c <- s'.blocks ensures CountOk(s'.handles, c, s'.blocks[c]) {
      HoldersDrop(s.handles, x, Ref(c, true));
      HoldersDrop(s.handles, x, Ref(c, false));
    }
  }

  /** What holding a reference means for the block. */
  lemma Held(s: State, x: Slot)
    requires CountsOk(s) && PhasesOk(s) && x in s.handles
    ensures var r := s.handles[x];
            && r.b in s.blocks && s.blocks[r.b].freed == 0
            && (r.isStrong ==> s.blocks[r.b].strong > 0 && s.blocks[r.b].phase.Live?)
            && (!r.isStrong ==> s.blocks[r.b].weak > Implicit(s.blocks[r.b].phase))
            && s.blocks[r.b].weak > 0
            && !s.blocks[r.b].phase.Unreferenced? && !s.blocks[r.b].phase.Freed?
  {
    var r := s.handles[x];
    assert x in Holders(s.handles, r);
    assert CountOk(s.handles, r.b, s.blocks[r.b]) && PhaseOk(s.blocks[r.b]);
  }

  // ---- a step of one thread leaves the others as they were --------------------------------

  ghost predicate SameOthers(pcs: map<Tid, Pc>, pcs': map<Tid, Pc>, t: Tid) {
    forall u | u != t :: (u in pcs <==> u in pcs') && (u in pcs ==> pcs[u] == pcs'[u])
  }

  ghost predicate SameOutside(m: map<Slot, Ref>, m': map<Slot, Ref>, xs: set<Slot>) {
    forall x | x !in xs :: (x in m <==> x in m') && (x in m ==> m[x] == m'[x])
  }

  ghost predicate SameBlocksBut(m: map<BlockId, Block>, m': map<BlockId, Block>, b: BlockId) {
    && b in m && b in m'
    && (forall c | c != b :: (c in m <==> c in m') && (c in m ==> m[c] == m'[c]))
  }

  /** A block goes on: phases do not go back, and its object loses no member but `gone`. */
  ghost predicate Evolves(p: Block, q: Block, ms: set<Slot>, gone: set<Slot>) {
    && PhaseOk(q)
    && (p.destroyed > 0 ==> q.destroyed > 0)
    && (p.phase.Doomed? ==> (q.phase.Doomed? && q.phase.t == p.phase.t) || q.destroyed > 0)
    && (q.phase.Doomed? ==> q.phase.left <= ms)
    && (forall x <- ms :: Keeps(q.phase, x) ==> Keeps(p.phase, x))
    && (forall x <- ms | x !in gone :: Keeps(p.phase, x) ==> Keeps(q.phase, x))
  }

  /** `s'` differs from `s` in the thread `t`, the block `b` and the handles `xs`, all of which
      `t` may change. */
  ghost predicate LocalStep(s: State, s': State, t: Tid, b: BlockId, xs: set<Slot>, gone: set<Slot>) {
    && SameOthers(s.pcs, s'.pcs, t) && SameOutside(s.handles, s'.handles, xs) && SameBlocksBut(s.blocks, s'.blocks, b)
    && s'.homes == s.homes
    && Evolves(s.blocks[b], s'.blocks[b], Members(s, b), gone)
    && (Named(s'.blocks[b].phase) ==>
          || (Named(s.blocks[b].phase) && s'.blocks[b].phase.t == s.blocks[b].phase.t)
          || (s'.blocks[b].phase.t == t && InRelease(s'.pcs, t)))
    && (InRelease(s.pcs, t) ==> InRelease(s'.pcs, t))
    && (t in s'.pcs ==> PcOk(s'.handles, s'.pcs[t]) && Pins(s'.pcs[t]) <= xs)
  }

  lemma LocalPhases(s: State, s': State, t: Tid, b: BlockId, xs: set<Slot>, gone: set<Slot>)
    requires PhasesOk(s) && Attended(s) && LocalStep(s, s', t, b, xs, gone)
    ensures PhasesOk(s') && Attended(s')
  {
  }

  lemma LocalPcs(s: State, s': State, t: Tid, b: BlockId, xs: set<Slot>, gone: set<Slot>)
    requires PcsOk(s) && PinsDisjoint(s) && LocalStep(s, s', t, b, xs, gone) && OwnedBy(s, t, xs)
    ensures PcsOk(s') && PinsDisjoint(s')
  {
    forall u <- s'.pcs ensures PcOk(s'.handles, s'.pcs[u]) {
      if u != t {
        assert PcOk(s.handles, s.pcs[u]) && Pins(s.pcs[u]) !! xs;
      }
    }
  }

  /** What becomes of the members. */
  lemma LocalIntact(s: State, s': State, t: Tid, b: BlockId, xs: set<Slot>, gone: set<Slot>)
    requires LocalStep(s, s', t, b, xs, gone)
    ensures forall x | Intact(s, x) && x !in gone :: Intact(s', x)
    ensures forall x | Intact(s', x) :: Intact(s, x)
    ensures forall u, x | Lost(s, u, x) && u in s'.pcs && s'.pcs[u] == s.pcs[u] :: Lost(s', u, x)
  {
    forall x | x in s.homes && s.homes[x] == b ensures x in Members(s, b) {
    }
  }

  lemma LocalHomes(s: State, s': State, t: Tid, b: BlockId, xs: set<Slot>, gone: set<Slot>)
    requires HomesOk(s) && LocalStep(s, s', t, b, xs, gone)
    requires gone <= xs && (forall x <- xs | x in s'.handles :: Intact(s', x))
    requires forall x <- s'.stale :: x in s.stale || (x in s.homes && !Intact(s', x))
    ensures HomesOk(s')
  {
    LocalIntact(s, s', t, b, xs, gone);
    forall x <- s'.handles ensures Intact(s', x) {
      assert x !in xs ==> x in s.handles;
    }
    forall c <- s'.blocks | s'.blocks[c].phase.Doomed? ensures s'.blocks[c].phase.left <= Members(s', c) {
      assert Members(s', c) == Members(s, c);
    }
  }

  lemma LocalPins(s: State, s': State, t: Tid, b: BlockId, xs: set<Slot>, gone: set<Slot>)
    requires PinsOk(s) && LocalStep(s, s', t, b, xs, gone) && OwnedBy(s, t, xs) && gone <= xs
    requires t in s'.pcs ==> forall x <- Pins(s'.pcs[t]) :: Intact(s', x) || Lost(s', t, x)
    ensures PinsOk(s')
  {
    LocalIntact(s, s', t, b, xs, gone);
    forall u, x | u in s'.pcs && x in Pins(s'.pcs[u]) ensures Intact(s', x) || Lost(s', u, x) {
      if u != t {
        assert u in s.pcs && x in Pins(s.pcs[u]) && x !in xs;
      }
    }
  }

  lemma LocalInv(s: State, s': State, t: Tid, b: BlockId, xs: set<Slot>, gone: set<Slot>)
    requires Inv(s) && CountsOk(s') && LocalStep(s, s', t, b, xs, gone) && OwnedBy(s, t, xs) && gone <= xs
    requires forall x <- xs | x in s'.handles :: Intact(s', x)
    requires forall x <- s'.stale :: x in s.stale || (x in s.homes && !Intact(s', x))
    requires t in s'.pcs ==> forall x <- Pins(s'.pcs[t]) :: Intact(s', x) || Lost(s', t, x)
    ensures Inv(s')
  {
    LocalPhases(s, s', t, b, xs, gone);
    LocalPcs(s, s', t, b, xs, gone);
    LocalHomes(s, s', t, b, xs, gone);
    LocalPins(s, s', t, b, xs, gone);
  }

  // ---- each step keeps the invariant --------------------------------------------------------

  lemma FreeOwned(s: State, t: Tid, xs: set<Slot>)
    requires forall x <- xs :: Free(s, x)
    ensures OwnedBy(s, t, xs)
  {
  }

  /** A thread that does not release is named by no block. */
  lemma NotNamed(s: State, t: Tid, b: BlockId)
    requires Attended(s) && b in s.blocks && !InRelease(s.pcs, t)
    ensures !Names(s.blocks[b].phase, t)
  {
  }

  /** A step that destroys no member. */
  lemma PlainInv(s: State, s': State, t: Tid, b: BlockId, xs: set<Slot>)
    requires Inv(s) && CountsOk(s') && LocalStep(s, s', t, b, xs, {}) && OwnedBy(s, t, xs) && s'.stale == s.stale
    requires forall x <- xs | x in s'.handles :: Intact(s, x)
    requires t in s'.pcs && !(t in s.pcs && s'.pcs[t] == s.pcs[t]) ==> forall x <- Pins(s'.pcs[t]) :: Intact(s, x)
    ensures Inv(s')
  {
    LocalIntact(s, s', t, b, xs, {});
    LocalInv(s, s', t, b, xs, {});
  }

  lemma CreateHomes(s: State, t: Tid, dst: Slot, b: BlockId, members: set<Slot>)
    requires HomesOk(s) && PinsOk(s) && Enabled(s, Create(t, dst, b, members))
    ensures HomesOk(Next(s, Create(t, dst, b, members))) && PinsOk(Next(s, Create(t, dst, b, members)))
  {
    var s' := Next(s, Create(t, dst, b, members));
    forall x | x !in members
      ensures (x in s'.homes <==> x in s.homes) && (x in s.homes ==> s'.homes[x] == s.homes[x] != b)
    {
    }
    forall x | x !in members ensures Intact(s, x) <==> Intact(s', x) {
    }
    forall c <- s'.blocks | s'.blocks[c].phase.Doomed? ensures s'.blocks[c].phase.left <= Members(s', c) {
      assert c != b;
      assert forall x <- Members(s, c) :: x in Members(s', c);
    }
    forall u, x | u in s'.pcs && x in Pins(s'.pcs[u]) ensures Intact(s', x) || Lost(s', u, x) {
      assert u in s.pcs && x in Pins(s.pcs[u]) && x !in members;
      assert Lost(s, u, x) ==> Lost(s', u, x);
    }
  }

  lemma CreateRest(s: State, t: Tid, dst: Slot, b: BlockId, members: set<Slot>)
    requires PhasesOk(s) && Attended(s) && PcsOk(s) && PinsDisjoint(s) && Enabled(s, Create(t, dst, b, members))
    ensures var s' := Next(s, Create(t, dst, b, members));
            PhasesOk(s') && Attended(s') && PcsOk(s') && PinsDisjoint(s')
  {
    var s' := Next(s, Create(t, dst, b, members));
    forall u <- s'.pcs ensures PcOk(s'.handles, s'.pcs[u]) {
      assert PcOk(s.handles, s.pcs[u]) && dst !in Pins(s.pcs[u]);
    }
  }

  lemma CreateStep(s: State, t: Tid, dst: Slot, b: BlockId, members: set<Slot>)
    requires Inv(s) && Enabled(s, Create(t, dst, b, members))
    ensures Inv(Next(s, Create(t, dst, b, members)))
  {
    CreateCounts(s, t, dst, b, members);
    CreateHomes(s, t, dst, b, members);
    CreateRest(s, t, dst, b, members);
  }

  lemma AcquireLocal(s: State, t: Tid, r: Ref, dst: Slot)
    requires Idle(s, t) && r.b in s.blocks && PhaseOk(s.blocks[r.b])
    requires s.blocks[r.b].phase.Doomed? ==> s.blocks[r.b].phase.left <= Members(s, r.b)
    requires if r.isStrong then s.blocks[r.b].strong > 0 else s.blocks[r.b].weak > 0
    ensures LocalStep(s, Acquire(s, r, dst), t, r.b, {dst}, {})
  {
  }

  lemma AcquireStep(s: State, t: Tid, r: Ref, dst: Slot)
    requires Inv(s) && Idle(s, t) && dst !in s.handles && Intact(s, dst) && OwnedBy(s, t, {dst})
    requires r.b in s.blocks && if r.isStrong then s.blocks[r.b].strong > 0 else s.blocks[r.b].weak > 0
    ensures Inv(Acquire(s, r, dst))
  {
    AcquireLocal(s, t, r, dst);
    AcquireCounts(s, r, dst);
    PlainInv(s, Acquire(s, r, dst), t, r.b, {dst});
  }

  lemma MovedLocal(s: State, t: Tid, dst: Slot, src: Slot)
    requires Idle(s, t) && src in s.handles && s.handles[src].b in s.blocks
    requires var blk := s.blocks[s.handles[src].b];
             PhaseOk(blk) && (blk.phase.Doomed? ==> blk.phase.left <= Members(s, s.handles[src].b))
    ensures LocalStep(s, Moved(s, dst, src), t, s.handles[src].b, {dst, src}, {})
  {
  }

  lemma MovedStep(s: State, t: Tid, dst: Slot, src: Slot)
    requires Inv(s) && Idle(s, t) && src in s.handles && dst !in s.handles
    requires Intact(s, dst) && OwnedBy(s, t, {dst, src})
    ensures Inv(Moved(s, dst, src))
  {
    MovedLocal(s, t, dst, src);
    MovedCounts(s, dst, src);
    PlainInv(s, Moved(s, dst, src), t, s.handles[src].b, {dst, src});
  }

  /** The block that loses a reference. */
  lemma FewerEvolves(blk: Block, isStrong: bool, t: Tid, ms: set<Slot>)
    requires PhaseOk(blk) && (blk.phase.Doomed? ==> blk.phase.left <= ms)
    requires if isStrong then blk.phase.Live? else blk.weak > Implicit(blk.phase)
    ensures Evolves(blk, Fewer(blk, isStrong, t, ms), ms, {})
    ensures var p := Fewer(blk, isStrong, t, ms).phase; p == blk.phase || (Named(p) && p.t == t && !Named(blk.phase))
  {
  }

  lemma DroppedLocal(s: State, t: Tid, x: Slot, pc: Pc, xs: set<Slot>)
    requires x in s.handles && (t in s.pcs ==> s.pcs[t].Releasing?) && s.handles[x].b in s.blocks
    requires var r, blk := s.handles[x], s.blocks[s.handles[x].b];
             && PhaseOk(blk) && (blk.phase.Doomed? ==> blk.phase.left <= Members(s, r.b))
             && if r.isStrong then blk.phase.Live? else blk.weak > Implicit(blk.phase)
    requires pc.Releasing? && PcOk(s.handles - {x}, pc) && {x} + Pins(pc) <= xs
    ensures LocalStep(s, Goto(Dropped(s, t, x), t, pc), t, s.handles[x].b, xs, {})
  {
    var r := s.handles[x];
    assert Members(s.(handles := s.handles - {x}), r.b) == Members(s, r.b);
    FewerEvolves(s.blocks[r.b], r.isStrong, t, Members(s, r.b));
  }

  /** What an operation that releases begins with. */
  lemma ReleaseReady(s: State, t: Tid, x: Slot, k: Rest)
    requires Enabled(s, Release(t, x, k))
    ensures var xs := {x} + PinsOf(k);
            OwnedBy(s, t, xs) && (forall y <- xs :: Intact(s, y)) && PcOk(s.handles - {x}, Releasing(k, s.handles[x]))
  {
    FreeOwned(s, t, {x} + PinsOf(k));
  }

  lemma ReleaseStep(s: State, t: Tid, x: Slot, k: Rest)
    requires Inv(s) && Enabled(s, Release(t, x, k))
    ensures Inv(Next(s, Release(t, x, k)))
  {
    ReleaseReady(s, t, x, k);
    StartRelease(s, t, x, Releasing(k, s.handles[x]), {x} + PinsOf(k));
  }

  lemma StartRelease(s: State, t: Tid, x: Slot, pc: Pc, xs: set<Slot>)
    requires Inv(s) && t !in s.pcs && x in s.handles && pc.Releasing? && PcOk(s.handles - {x}, pc)
    requires OwnedBy(s, t, xs) && (forall y <- xs :: Intact(s, y)) && xs == {x} + Pins(pc)
    ensures Inv(Goto(Dropped(s, t, x), t, pc))
  {
    Held(s, x);
    DroppedLocal(s, t, x, pc, xs);
    DroppedCounts(s, t, x);
    PlainInv(s, Goto(Dropped(s, t, x), t, pc), t, s.handles[x].b, xs);
  }

  lemma OwnPins(s: State, t: Tid)
    requires PinsDisjoint(s) && t in s.pcs
    ensures OwnedBy(s, t, Pins(s.pcs[t]))
  {
  }

  /** The first half of destroying a member. */
  lemma DropMember(s: State, t: Tid, x: Slot)
    requires Inv(s) && x in s.handles && InRelease(s.pcs, t) && OwnedBy(s, t, {x})
    ensures Inv(Dropped(s, t, x))
  {
    var s', xs := Dropped(s, t, x), {x} + Pins(s.pcs[t]);
    assert s' == Goto(s', t, s.pcs[t]);
    assert PcOk(s.handles, s.pcs[t]);
    Held(s, x);
    DroppedLocal(s, t, x, s.pcs[t], xs);
    DroppedCounts(s, t, x);
    OwnPins(s, t);
    PlainInv(s, s', t, s.handles[x].b, xs);
  }

  lemma ShrunkCounts(s: State, b: BlockId, x: Slot, left: map<Slot, Ref>)
    requires CountsOk(s) && b in s.blocks
    ensures CountsOk(Shrunk(s, b, x, left))
  {
    var s' := Shrunk(s, b, x, left);
    forall c <- s'.blocks ensures CountOk(s'.handles, c, s'.blocks[c]) {
      assert CountOk(s.handles, c, s.blocks[c]);
    }
  }

  lemma ShrunkLocal(s: State, t: Tid, b: BlockId, x: Slot, left: map<Slot, Ref>, xs: set<Slot>)
    requires b in s.blocks && PhaseOk(s.blocks[b])
    requires s.blocks[b].phase.Doomed? && s.blocks[b].phase.left <= Members(s, b)
    requires InRelease(s.pcs, t) && PcOk(s.handles, s.pcs[t]) && Pins(s.pcs[t]) <= xs
    ensures LocalStep(s, Shrunk(s, b, x, left), t, b, xs, {x})
  {
  }

  /** What becomes of the thread's own handles: its source may be the member that goes. */
  lemma ShrunkPins(s: State, t: Tid, b: BlockId, x: Slot, left: map<Slot, Ref>, xs: set<Slot>)
    requires LocalStep(s, Shrunk(s, b, x, left), t, b, xs, {x}) && PinsOk(s) && t in s.pcs
    requires s.blocks[b].phase.Doomed? && s.blocks[b].phase.t == t && x in s.homes && s.homes[x] == b
    requires !OwnTarget(s, t, x) && s.pcs[t].Releasing?
    ensures !Intact(Shrunk(s, b, x, left), x)
    ensures forall y <- Pins(s.pcs[t]) :: Intact(Shrunk(s, b, x, left), y) || Lost(Shrunk(s, b, x, left), t, y)
  {
    var s' := Shrunk(s, b, x, left);
    LocalIntact(s, s', t, b, xs, {x});
    forall y <- Pins(s.pcs[t]) ensures Intact(s', y) || Lost(s', t, y) {
      assert Intact(s, y) || Lost(s, t, y);
    }
  }

  lemma ShrinkReady(s: State, t: Tid, b: BlockId, x: Slot)
    requires PhasesOk(s) && Attended(s) && HomesOk(s) && PcsOk(s)
    requires b in s.blocks && s.blocks[b].phase.Doomed? && s.blocks[b].phase.t == t && x in s.blocks[b].phase.left
    ensures InRelease(s.pcs, t) && PcOk(s.handles, s.pcs[t]) && PhaseOk(s.blocks[b])
    ensures s.blocks[b].phase.left <= Members(s, b) && x in s.homes && s.homes[x] == b
  {
    assert x in Members(s, b);
  }

  /** The second half. */
  lemma ShrinkStep(s: State, t: Tid, b: BlockId, x: Slot, left: map<Slot, Ref>)
    requires Inv(s) && b in s.blocks && s.blocks[b].phase.Doomed? && s.blocks[b].phase.t == t
    requires x in s.blocks[b].phase.left && x !in s.handles && left.Keys <= {x}
    requires OwnedBy(s, t, {x}) && !OwnTarget(s, t, x)
    ensures Inv(Shrunk(s, b, x, left))
  {
    ShrinkReady(s, t, b, x);
    var xs := {x} + Pins(s.pcs[t]);
    ShrunkLocal(s, t, b, x, left, xs);
    ShrunkCounts(s, b, x, left);
    OwnPins(s, t);
    ShrunkPins(s, t, b, x, left, xs);
    LocalInv(s, Shrunk(s, b, x, left), t, b, xs, {x});
  }

  lemma DestroyMemberStep(s: State, t: Tid, b: BlockId, x: Slot)
    requires Inv(s) && Enabled(s, DestroyMember(t, b, x)) && !OwnTarget(s, t, x)
    ensures Inv(Next(s, DestroyMember(t, b, x)))
  {
    if x in s.handles {
      var d := Dropped(s, t, x);
      Held(s, x);
      DropMember(s, t, x);
      assert d.blocks[b].phase == s.blocks[b].phase;
      ShrinkStep(d, t, b, x, Remains(s, x));
    } else {
      ShrinkStep(s, t, b, x, Remains(s, x));
    }
  }

  lemma DeletionLocal(s: State, a: Action)
    requires Enabled(s, a) && (a.DeleteObject? || a.DropImplicit? || a.DeleteBlock?)
    requires PhaseOk(s.blocks[a.b]) && InRelease(s.pcs, a.t) && PcOk(s.handles, s.pcs[a.t])
    requires a.DropImplicit? ==> s.blocks[a.b].weak > 0
    ensures LocalStep(s, Next(s, a), a.t, a.b, Pins(s.pcs[a.t]), {})
  {
  }

  lemma DeletionCounts(s: State, a: Action)
    requires CountsOk(s) && Enabled(s, a) && (a.DeleteObject? || a.DropImplicit? || a.DeleteBlock?)
    ensures CountsOk(Next(s, a))
  {
    var s' := Next(s, a);
    forall c <- s'.blocks ensures CountOk(s'.handles, c, s'.blocks[c]) {
      assert CountOk(s.handles, c, s.blocks[c]);
    }
  }

  /** The three steps of a deletion. */
  lemma DeletionStep(s: State, a: Action)
    requires Inv(s) && Enabled(s, a) && (a.DeleteObject? || a.DropImplicit? || a.DeleteBlock?)
    ensures Inv(Next(s, a))
  {
    var xs := Pins(s.pcs[a.t]);
    assert PhaseOk(s.blocks[a.b]) && CountOk(s.handles, a.b, s.blocks[a.b]) && PcOk(s.handles, s.pcs[a.t]);
    DeletionCounts(s, a);
    DeletionLocal(s, a);
    OwnPins(s, a.t);
    PlainInv(s, Next(s, a), a.t, a.b, xs);
  }

  /** Leaving an operation. */
  lemma LeaveHomes(s: State, t: Tid)
    requires HomesOk(s) && PinsOk(s) && t in s.pcs
    ensures HomesOk(Leave(s, t)) && PinsOk(Leave(s, t))
  {
    var s' := Leave(s, t);
    assert forall x :: Intact(s, x) <==> Intact(s', x);
    forall b <- s'.blocks | s'.blocks[b].phase.Doomed? ensures s'.blocks[b].phase.left <= Members(s', b) {
      assert Members(s', b) == Members(s, b);
    }
    forall u, x | u in s'.pcs && x in Pins(s'.pcs[u]) ensures Intact(s', x) || Lost(s', u, x) {
      assert Lost(s, u, x) ==> Lost(s', u, x);
    }
  }

  lemma LeaveStep(s: State, t: Tid)
    requires Inv(s) && t in s.pcs && (forall b <- s.blocks :: !Names(s.blocks[b].phase, t))
    ensures Inv(Leave(s, t)) && OwnedBy(Leave(s, t), t, Pins(s.pcs[t]))
  {
    LeaveHomes(s, t);
  }

  /** A thread that has finished its deletions finds its target in place, and its source in place
      or destroyed. */
  lemma FinishFinds(s: State, t: Tid)
    requires Inv(s) && Enabled(s, Finish(t))
    ensures forall x <- Pins(s.pcs[t]) ::
              Intact(s, x) || (HasSource(s.pcs[t].rest) && s.pcs[t].rest.src == x && !Standing(s, x))
    ensures forall x <- Pins(s.pcs[t]) | Intact(s, x) :: x !in s.stale && Standing(s, x)
  {
    forall x <- Pins(s.pcs[t])
      ensures Intact(s, x) || (HasSource(s.pcs[t].rest) && s.pcs[t].rest.src == x && !Standing(s, x))
    {
      assert Intact(s, x) || Lost(s, t, x);
    }
    forall x <- Pins(s.pcs[t]) | Intact(s, x) ensures x !in s.stale && Standing(s, x) {
      IntactStands(s, x);
    }
  }

  lemma IntactStands(s: State, x: Slot)
    requires HomesOk(s) && PhasesOk(s) && Intact(s, x)
    ensures Standing(s, x)
  {
    if x in s.homes {
      assert PhaseOk(s.blocks[s.homes[x]]);
    }
  }

  lemma FinishTakes(s: State, t: Tid, k: Rest)
    requires Inv(s) && Idle(s, t) && HasSource(k) && k.src in s.handles && k.dst !in s.handles
    requires Intact(s, k.dst) && OwnedBy(s, t, {k.dst, k.src})
    ensures Inv(Assigned(s, k))
  {
    Held(s, k.src);
    if k.Copy? {
      AcquireStep(s, t, s.handles[k.src], k.dst);
    } else {
      MovedStep(s, t, k.dst, k.src);
    }
  }

  /** What the second half of an operation finds. */
  lemma FinishReady(s: State, t: Tid)
    requires Inv(s) && Enabled(s, Finish(t)) && !Inside(s, Finish(t))
    ensures var k := s.pcs[t].rest;
            HasSource(k) ==> k.dst !in s.handles && Intact(Leave(s, t), k.dst) && k.src !in s.stale
  {
    var k := s.pcs[t].rest;
    assert PcOk(s.handles, s.pcs[t]);
    FinishFinds(s, t);
    if HasSource(k) {
      assert k.dst in Pins(s.pcs[t]) && k.src in Pins(s.pcs[t]);
    }
  }

  lemma FinishStep(s: State, t: Tid)
    requires Inv(s) && Enabled(s, Finish(t)) && !Inside(s, Finish(t))
    ensures Inv(Next(s, Finish(t)))
  {
    var k := s.pcs[t].rest;
    LeaveStep(s, t);
    FinishReady(s, t);
    if HasSource(k) && k.src in s.handles {
      FinishTakes(Leave(s, t), t, k);
    }
  }

  lemma GotoHomes(s: State, t: Tid, pc: Pc)
    requires HomesOk(s) && PinsOk(s) && (forall x <- Pins(pc) :: Intact(s, x))
    ensures HomesOk(Goto(s, t, pc)) && PinsOk(Goto(s, t, pc))
  {
    var s' := Goto(s, t, pc);
    assert forall x :: Intact(s, x) <==> Intact(s', x);
    forall b <- s'.blocks | s'.blocks[b].phase.Doomed? ensures s'.blocks[b].phase.left <= Members(s', b) {
      assert Members(s', b) == Members(s, b);
    }
    forall u, x | u in s'.pcs && x in Pins(s'.pcs[u]) ensures Intact(s', x) || Lost(s', u, x) {
      assert u != t && Lost(s, u, x) ==> Lost(s', u, x);
    }
  }

  /** A step inside `lock`. */
  lemma GotoStep(s: State, t: Tid, pc: Pc)
    requires Inv(s) && !InRelease(s.pcs, t) && PcOk(s.handles, pc) && OwnedBy(s, t, Pins(pc))
    requires forall x <- Pins(pc) :: Intact(s, x)
    ensures Inv(Goto(s, t, pc))
  {
    GotoHomes(s, t, pc);
  }

  lemma LoadStrongStep(s: State, t: Tid, w: Slot, dst: Slot)
    requires Inv(s) && Enabled(s, LoadStrong(t, w, dst))
    ensures Inv(Next(s, LoadStrong(t, w, dst)))
  {
    FreeOwned(s, t, {w, dst});
    GotoStep(s, t, Locking(w, dst, At(s, s.handles[w].b).strong));
  }

  lemma LockPins(s: State, t: Tid)
    requires PinsOk(s) && t in s.pcs && !s.pcs[t].Releasing?
    ensures forall x <- Pins(s.pcs[t]) :: Intact(s, x)
  {
    forall x <- Pins(s.pcs[t]) ensures Intact(s, x) {
      assert Intact(s, x) || Lost(s, t, x);
    }
  }

  lemma CompareExchangeStep(s: State, t: Tid, spurious: bool)
    requires Inv(s) && Enabled(s, CompareExchange(t, spurious))
    ensures Inv(Next(s, CompareExchange(t, spurious)))
  {
    var pc := s.pcs[t];
    var b := s.handles[pc.w].b;
    assert PcOk(s.handles, pc);
    OwnPins(s, t);
    LockPins(s, t);
    if !spurious && At(s, b).strong == pc.current {
      ExchangeWins(s, t, pc);
    } else {
      GotoStep(s, t, pc.(current := At(s, b).strong));
    }
  }

  lemma ExchangeWins(s: State, t: Tid, pc: Pc)
    requires Inv(s) && t in s.pcs && s.pcs[t] == pc && pc.Locking? && PcOk(s.handles, pc) && Intact(s, pc.dst)
    requires var b := s.handles[pc.w].b; At(s, b).strong == pc.current != 0
    ensures Inv(Goto(Acquire(s, Ref(s.handles[pc.w].b, true), pc.dst), t, Locked(s.handles[pc.w].b, pc.dst)))
  {
    var b := s.handles[pc.w].b;
    StrongPositive(s, b);
    QuitLock(s, t);
    TakeLocked(Leave(s, t), t, b, pc.dst);
    LeaveAndBack(s, t, Ref(b, true), pc.dst, Locked(b, pc.dst));
  }

  lemma StrongPositive(s: State, b: BlockId)
    requires CountsOk(s) && At(s, b).strong != 0
    ensures b in s.blocks && s.blocks[b].strong > 0
  {
    assert CountOk(s.handles, b, s.blocks[b]);
  }

  lemma LeaveAndBack(s: State, t: Tid, r: Ref, dst: Slot, pc: Pc)
    ensures Goto(Acquire(Leave(s, t), r, dst), t, pc) == Goto(Acquire(s, r, dst), t, pc)
  {
    assert (s.pcs - {t})[t := pc] == s.pcs[t := pc];
  }

  lemma TakeLocked(s: State, t: Tid, b: BlockId, dst: Slot)
    requires Inv(s) && Idle(s, t) && b in s.blocks && s.blocks[b].strong > 0
    requires dst !in s.handles && Intact(s, dst) && OwnedBy(s, t, {dst})
    ensures Inv(Goto(Acquire(s, Ref(b, true), dst), t, Locked(b, dst)))
  {
    var s' := Acquire(s, Ref(b, true), dst);
    AcquireStep(s, t, Ref(b, true), dst);
    assert dst in s'.handles;
    assert PcOk(s'.handles, Locked(b, dst)) && OwnedBy(s', t, {dst});
    GotoStep(s', t, Locked(b, dst));
  }

  lemma AddRefStep(s: State, t: Tid, dst: Slot, src: Slot, isStrong: bool)
    requires Inv(s) && Enabled(s, AddRef(t, dst, src, isStrong))
    ensures Inv(Next(s, AddRef(t, dst, src, isStrong)))
  {
    Held(s, src);
    FreeOwned(s, t, {dst});
    AcquireStep(s, t, Ref(s.handles[src].b, isStrong), dst);
  }

  lemma TransferStep(s: State, t: Tid, dst: Slot, src: Slot)
    requires Inv(s) && Enabled(s, Transfer(t, dst, src))
    ensures Inv(Next(s, Transfer(t, dst, src)))
  {
    FreeOwned(s, t, {dst, src});
    MovedStep(s, t, dst, src);
  }

  lemma QuitLock(s: State, t: Tid)
    requires Inv(s) && t in s.pcs && !s.pcs[t].Releasing?
    ensures Inv(Leave(s, t)) && OwnedBy(Leave(s, t), t, Pins(s.pcs[t]))
  {
    forall b <- s.blocks ensures !Names(s.blocks[b].phase, t) {
      NotNamed(s, t, b);
    }
    LeaveStep(s, t);
  }

  lemma InvStep(s: State, a: Action)
    requires Inv(s) && Enabled(s, a) && !Inside(s, a)
    ensures Inv(Next(s, a))
  {
    match a
    case Create(t, dst, b, members) => CreateStep(s, t, dst, b, members);
    case AddRef(t, dst, src, isStrong) => AddRefStep(s, t, dst, src, isStrong);
    case Transfer(t, dst, src) => TransferStep(s, t, dst, src);
    case Release(t, x, k) => ReleaseStep(s, t, x, k);
    case DestroyMember(t, b, x) => DestroyMemberStep(s, t, b, x);
    case Finish(t) => FinishStep(s, t);
    case LoadStrong(t, w, dst) => LoadStrongStep(s, t, w, dst);
    case CompareExchange(t, spurious) => CompareExchangeStep(s, t, spurious);
    case GiveUp(t) => QuitLock(s, t);
    case ReadPtr(t) => QuitLock(s, t);
    case Inspect(_, _) =>
    case Dereference(_, _) =>
    case _ => DeletionStep(s, a);
  }

  // ---- what is safe --------------------------------------------------------------------------

  lemma UsableStands(s: State, xs: set<Slot>)
    requires HomesOk(s) && PhasesOk(s) && (forall x <- xs :: Usable(s, x) || x in s.handles)
    ensures forall x <- xs :: Standing(s, x)
  {
    forall x <- xs ensures Standing(s, x) {
      IntactStands(s, x);
    }
  }

  lemma HeldAll(s: State)
    requires CountsOk(s) && PhasesOk(s)
    ensures forall x <- s.handles :: s.handles[x].b in s.blocks && s.blocks[s.handles[x].b].freed == 0
    ensures forall x <- s.handles | s.handles[x].isStrong :: s.blocks[s.handles[x].b].destroyed == 0
  {
    forall x <- s.handles
      ensures s.handles[x].b in s.blocks && s.blocks[s.handles[x].b].freed == 0
      ensures s.handles[x].isStrong ==> s.blocks[s.handles[x].b].destroyed == 0
    {
      Held(s, x);
      assert PhaseOk(s.blocks[s.handles[x].b]);
    }
  }

  /** Steps that begin an operation, or are one. */
  predicate Begins(a: Action) {
    a.Create? || a.AddRef? || a.Transfer? || a.Release? || a.LoadStrong? || a.Inspect? || a.Dereference?
  }

  lemma BeginSlots(s: State, a: Action)
    requires PhasesOk(s) && HomesOk(s) && Enabled(s, a) && Begins(a)
    ensures forall x <- Slots(s, a) :: Standing(s, x)
  {
    UsableStands(s, Slots(s, a));
  }

  lemma BeginBlocks(s: State, a: Action)
    requires CountsOk(s) && PhasesOk(s) && Enabled(s, a) && Begins(a)
    ensures forall b <- Blocks(s, a) :: b in s.blocks && s.blocks[b].freed == 0
    ensures forall b <- Objects(s, a) :: b in s.blocks && s.blocks[b].destroyed == 0
  {
    HeldAll(s);
  }

  lemma BeginSafe(s: State, a: Action)
    requires CountsOk(s) && PhasesOk(s) && HomesOk(s) && Enabled(s, a) && Begins(a)
    ensures Safe(s, a) && !Inside(s, a)
  {
    BeginSlots(s, a);
    BeginBlocks(s, a);
  }

  lemma MemberStands(s: State, b: BlockId, x: Slot)
    requires PhasesOk(s) && HomesOk(s) && b in s.blocks && s.blocks[b].phase.Doomed? && x in s.blocks[b].phase.left
    ensures Standing(s, x) && s.blocks[b].freed == 0
  {
    assert PhaseOk(s.blocks[b]) && x in Members(s, b);
  }

  lemma DestroyMemberSafe(s: State, t: Tid, b: BlockId, x: Slot)
    requires CountsOk(s) && PhasesOk(s) && HomesOk(s) && Enabled(s, DestroyMember(t, b, x))
    ensures Safe(s, DestroyMember(t, b, x)) <==> !OwnTarget(s, t, x)
  {
    MemberStands(s, b, x);
    if x in s.handles {
      Held(s, x);
    }
    DestroyMemberTouches(s, t, b, x);
  }

  lemma DestroyMemberTouches(s: State, t: Tid, b: BlockId, x: Slot)
    requires Enabled(s, DestroyMember(t, b, x)) && Standing(s, x) && s.blocks[b].freed == 0
    requires x in s.handles ==> s.handles[x].b in s.blocks && s.blocks[s.handles[x].b].freed == 0
    ensures Safe(s, DestroyMember(t, b, x)) <==> !OwnTarget(s, t, x)
  {
  }

  /** The other steps of a deletion. */
  lemma DeletionSafe(s: State, a: Action)
    requires PhasesOk(s) && Enabled(s, a) && (a.DeleteObject? || a.DropImplicit? || a.DeleteBlock?)
    ensures Safe(s, a) && !Inside(s, a)
  {
    assert PhaseOk(s.blocks[a.b]);
  }

  /** Steps inside `lock`. */
  lemma LockSafe(s: State, a: Action)
    requires CountsOk(s) && PhasesOk(s) && HomesOk(s) && PinsOk(s) && PcsOk(s) && Enabled(s, a)
    requires a.CompareExchange? || a.GiveUp? || a.ReadPtr?
    ensures Safe(s, a) && !Inside(s, a)
  {
    HeldAll(s);
    LockPins(s, a.t);
    assert PcOk(s.handles, s.pcs[a.t]);
    forall x <- Slots(s, a) ensures Standing(s, x) {
      IntactStands(s, x);
    }
  }

  lemma FinishSafe(s: State, t: Tid)
    requires Inv(s) && Enabled(s, Finish(t))
    ensures Safe(s, Finish(t)) <==> !Inside(s, Finish(t))
  {
    var k := s.pcs[t].rest;
    HeldAll(s);
    FinishFinds(s, t);
    if HasSource(k) {
      assert k.src in Pins(s.pcs[t]);
    }
  }

  /** In a consistent state the only unsafe steps are those of an operation whose target or source
      lies in an object that its own release has destroyed. */
  lemma SafeExactly(s: State, a: Action)
    requires Inv(s) && Enabled(s, a)
    ensures Safe(s, a) <==> !Inside(s, a)
  {
    match a
    case DestroyMember(t, b, x) => DestroyMemberSafe(s, t, b, x);
    case DeleteObject(_, _) => DeletionSafe(s, a);
    case DropImplicit(_, _) => DeletionSafe(s, a);
    case DeleteBlock(_, _) => DeletionSafe(s, a);
    case Finish(t) => FinishSafe(s, t);
    case CompareExchange(_, _) => LockSafe(s, a);
    case GiveUp(_) => LockSafe(s, a);
    case ReadPtr(_) => LockSafe(s, a);
    case _ => BeginSafe(s, a);
  }

  lemma {:induction false} InvRun(s: State, acts: seq<Action>)
    requires Inv(s) && CanRun(s, acts) && NoneInside(s, acts)
    ensures Inv(Exec(s, acts)) && AllSafe(s, acts)
    decreases |acts|
  {
    if acts != [] {
      InvStep(s, acts[0]);
      SafeExactly(s, acts[0]);
      InvRun(Next(s, acts[0]), acts[1..]);
    }
  }

  lemma {:induction false} SafeNoneInside(s: State, acts: seq<Action>)
    requires Inv(s) && CanRun(s, acts) && AllSafe(s, acts)
    ensures NoneInside(s, acts)
    decreases |acts|
  {
    if acts != [] {
      SafeExactly(s, acts[0]);
      InvStep(s, acts[0]);
      SafeNoneInside(Next(s, acts[0]), acts[1..]);
    }
  }

  lemma EmptyInv()
    ensures Inv(Empty)
  {
  }

  // ---- main results -----------------------------------------------------------------------

  /** In every interleaving, no step touches a freed control block or a destroyed object and none
      releases a reference twice, exactly when no operation's target or source lies in an object
      that the operation's own release destroys. */
  lemma NoUseAfterFreeExactly(acts: seq<Action>)
    requires CanRun(Empty, acts)
    ensures AllSafe(Empty, acts) <==> NoneInside(Empty, acts)
  {
    EmptyInv();
    if NoneInside(Empty, acts) {
      InvRun(Empty, acts);
    }
    if AllSafe(Empty, acts) {
      SafeNoneInside(Empty, acts);
    }
  }

  /** Neither target nor source of a release is a member of a managed object. */
  predicate OutsideRest(s: State, k: Rest) {
    forall x <- PinsOf(k) :: x !in s.homes
  }

  predicate AllOutside(s: State) {
    forall t <- s.pcs | s.pcs[t].Releasing? :: OutsideRest(s, s.pcs[t].rest)
  }

  /** Every operation that releases is on handles outside the managed objects. */
  predicate Apart(s: State, acts: seq<Action>)
    requires CanRun(s, acts)
    decreases |acts|
  {
    acts == [] || ((acts[0].Release? ==> OutsideRest(s, acts[0].rest)) && Apart(Next(s, acts[0]), acts[1..]))
  }

  lemma OutsideNotInside(s: State, a: Action)
    requires HomesOk(s) && AllOutside(s) && Enabled(s, a)
    ensures !Inside(s, a)
  {
    if a.DestroyMember? {
      assert a.x in Members(s, a.b);
    }
  }

  lemma OutsideStep(s: State, a: Action)
    requires AllOutside(s) && Enabled(s, a) && (a.Release? ==> OutsideRest(s, a.rest))
    ensures AllOutside(Next(s, a))
  {
    var s' := Next(s, a);
    forall t <- s'.pcs | s'.pcs[t].Releasing? ensures OutsideRest(s', s'.pcs[t].rest) {
      if a.Release? && t == a.t {
        assert OutsideRest(s, a.rest) && s'.homes == s.homes;
      } else {
        assert t in s.pcs && s.pcs[t] == s'.pcs[t] && OutsideRest(s, s.pcs[t].rest);
      }
    }
  }

  lemma {:induction false} ApartRun(s: State, acts: seq<Action>)
    requires Inv(s) && CanRun(s, acts) && AllOutside(s) && Apart(s, acts)
    ensures NoneInside(s, acts)
    decreases |acts|
  {
    if acts != [] {
      OutsideNotInside(s, acts[0]);
      OutsideStep(s, acts[0]);
      InvStep(s, acts[0]);
      ApartRun(Next(s, acts[0]), acts[1..]);
    }
  }

  /** In particular, a program that assigns and resets only handles outside the managed objects,
      from sources outside them, is safe in every interleaving. */
  lemma ApartIsSafe(acts: seq<Action>)
    requires CanRun(Empty, acts) && Apart(Empty, acts)
    ensures AllSafe(Empty, acts)
  {
    EmptyInv();
    ApartRun(Empty, acts);
    InvRun(Empty, acts);
  }

  /** In every such interleaving, every shared handle leads to an object that has not been
      destroyed. */
  lemma HandlesKeepObjectAlive(acts: seq<Action>, x: Slot)
    requires CanRun(Empty, acts) && NoneInside(Empty, acts)
    requires x in Exec(Empty, acts).handles && Exec(Empty, acts).handles[x].isStrong
    ensures var s := Exec(Empty, acts);
            s.handles[x].b in s.blocks && s.blocks[s.handles[x].b].destroyed == 0
  {
    EmptyInv();
    InvRun(Empty, acts);
    HeldAll(Exec(Empty, acts));
  }

  /** A thread whose exchange succeeded finds the object alive when it then reads `ptr_`,
      whatever the other threads did in between. */
  lemma LockedObjectAlive(acts: seq<Action>, t: Tid)
    requires CanRun(Empty, acts) && NoneInside(Empty, acts) && Enabled(Exec(Empty, acts), ReadPtr(t))
    ensures var s := Exec(Empty, acts); s.pcs[t].b in s.blocks && s.blocks[s.pcs[t].b].destroyed == 0
  {
    var s := Exec(Empty, acts);
    EmptyInv();
    InvRun(Empty, acts);
    LockSafe(s, ReadPtr(t));
    assert s.pcs[t].b in Objects(s, ReadPtr(t));
  }

  /** The object and the block are each deleted at most once, the object first; the object only
      when no shared handle is left, the block only when no handle of either kind is left. */
  lemma DeletedAtMostOnce(acts: seq<Action>, b: BlockId)
    requires CanRun(Empty, acts) && NoneInside(Empty, acts) && b in Exec(Empty, acts).blocks
    ensures var s := Exec(Empty, acts);
            && s.blocks[b].freed <= s.blocks[b].destroyed <= 1
            && (s.blocks[b].destroyed == 1 ==> Holders(s.handles, Ref(b, true)) == {})
            && (s.blocks[b].freed == 1 ==> Holders(s.handles, Ref(b, false)) == {})
  {
    var s := Exec(Empty, acts);
    EmptyInv();
    InvRun(Empty, acts);
    assert CountOk(s.handles, b, s.blocks[b]) && PhaseOk(s.blocks[b]);
  }

  /** Nothing leaks that no handle holds: when no thread is inside an operation, the object has
      been destroyed if and only if no shared handle holds the block, and the block has been freed
      if and only if no handle does. */
  lemma DeletedExactlyOnceAtRest(acts: seq<Action>, b: BlockId)
    requires CanRun(Empty, acts) && NoneInside(Empty, acts)
    requires b in Exec(Empty, acts).blocks && Exec(Empty, acts).pcs == map[]
    ensures var s := Exec(Empty, acts);
            && (s.blocks[b].destroyed == 1 <==> Holders(s.handles, Ref(b, true)) == {})
            && (s.blocks[b].freed == 1 <==>
                  Holders(s.handles, Ref(b, true)) == {} && Holders(s.handles, Ref(b, false)) == {})
  {
    var s := Exec(Empty, acts);
    EmptyInv();
    InvRun(Empty, acts);
    assert CountOk(s.handles, b, s.blocks[b]) && PhaseOk(s.blocks[b]);
    assert |Holders(s.handles, Ref(b, true))| == 0 <==> Holders(s.handles, Ref(b, true)) == {};
    assert |Holders(s.handles, Ref(b, false))| == 0 <==> Holders(s.handles, Ref(b, false)) == {};
  }

  /** `get_weak_count()` when its two loads see the same state. */
  function WeakCount(blk: Block): int {
    blk.weak - (if blk.strong > 0 then 1 else 0)
  }

  /** `use_count()` is the number of shared handles, in every safe interleaving, and `expired()` says
      that there is none. */
  lemma UseCountExact(acts: seq<Action>, b: BlockId)
    requires CanRun(Empty, acts) && NoneInside(Empty, acts) && b in Exec(Empty, acts).blocks
    ensures var s := Exec(Empty, acts);
            && s.blocks[b].strong == |Holders(s.handles, Ref(b, true))|
            && (s.blocks[b].strong == 0 <==> Holders(s.handles, Ref(b, true)) == {})
  {
    EmptyInv();
    InvRun(Empty, acts);
    var s := Exec(Empty, acts);
    assert CountOk(s.handles, b, s.blocks[b]);
  }

  /** `get_weak_count()` is the number of weak handles, except that it is one too many exactly while
      the last shared handle's thread is between its decrement and the drop of the implicit
      reference. */
  lemma WeakCountExact(acts: seq<Action>, b: BlockId)
    requires CanRun(Empty, acts) && NoneInside(Empty, acts) && b in Exec(Empty, acts).blocks
    ensures var s := Exec(Empty, acts);
            WeakCount(s.blocks[b]) == |Holders(s.handles, Ref(b, false))|
              + (if s.blocks[b].phase.Doomed? || s.blocks[b].phase.Emptied? then 1 else 0)
  {
    var s := Exec(Empty, acts);
    EmptyInv();
    InvRun(Empty, acts);
    assert CountOk(s.handles, b, s.blocks[b]) && PhaseOk(s.blocks[b]);
  }

  /** The step a thread inside an operation takes next. */
  lemma NextOf(s: State, t: Tid) returns (a: Action)
    requires PcsOk(s) && t in s.pcs
    ensures a.t == t
    ensures Enabled(s, a) || (a.DestroyMember? && exists u <- s.pcs :: u != t && a.x in Pins(s.pcs[u]))
  {
    assert PcOk(s.handles, s.pcs[t]);
    match s.pcs[t]
    case Locking(_, _, current) => a := if current == 0 then GiveUp(t) else CompareExchange(t, false);
    case Locked(_, _) => a := ReadPtr(t);
    case Releasing(_, _) =>
      if b :| b in s.blocks && Names(s.blocks[b].phase, t) {
        match s.blocks[b].phase
        case Emptied(_) => a := DropImplicit(t, b);
        case Unreferenced(_) => a := DeleteBlock(t, b);
        case Doomed(_, left) =>
          if x :| x in left {
            a := DestroyMember(t, b, x);
          } else {
            a := DeleteObject(t, b);
          }
      } else {
        a := Finish(t);
      }
  }

  /** No thread is ever stuck inside an operation, unless it destroys an object while another
      thread is at work on one of that object's handles. */
  lemma NeverStuck(acts: seq<Action>, t: Tid) returns (a: Action)
    requires CanRun(Empty, acts) && NoneInside(Empty, acts) && t in Exec(Empty, acts).pcs
    ensures a.t == t
    ensures var s := Exec(Empty, acts);
            Enabled(s, a) || (a.DestroyMember? && exists u <- s.pcs :: u != t && a.x in Pins(s.pcs[u]))
  {
    EmptyInv();
    InvRun(Empty, acts);
    a := NextOf(Exec(Empty, acts), t);
  }

  // ---- p = p->next ---------------------------------------------------------------------------

  lemma RunHead(s: State, a: Action, rest: seq<Action>)
    requires Enabled(s, a) && CanRun(Next(s, a), rest)
    ensures CanRun(s, [a] + rest) && Exec(s, [a] + rest) == Exec(Next(s, a), rest)
    ensures AllSafe(s, [a] + rest) <==> Safe(s, a) && AllSafe(Next(s, a), rest)
  {
    assert ([a] + rest)[1..] == rest;
  }

  lemma {:induction false} RunConcat(s: State, a: seq<Action>, b: seq<Action>)
    requires CanRun(s, a) && CanRun(Exec(s, a), b)
    ensures CanRun(s, a + b) && Exec(s, a + b) == Exec(Exec(s, a), b)
    ensures AllSafe(s, a + b) <==> AllSafe(s, a) && AllSafe(Exec(s, a), b)
    decreases |a|
  {
    if a == [] {
      assert a + b == b;
    } else {
      assert (a + b)[1..] == a[1..] + b;
      RunConcat(Next(s, a[0]), a[1..], b);
    }
  }

  /** The three last steps of a deletion. */
  function Deletion(t: Tid, b: BlockId): seq<Action> {
    [DeleteObject(t, b)] + ([DropImplicit(t, b)] + [DeleteBlock(t, b)])
  }

  lemma RunOne(s: State, a: Action)
    requires Enabled(s, a)
    ensures CanRun(s, [a]) && Exec(s, [a]) == Next(s, a)
  {
    assert CanRun(Next(s, a), []);
    assert [a][1..] == [];
  }

  lemma DeletionRuns(s: State, t: Tid, b: BlockId)
    requires b in s.blocks && s.blocks[b] == Block(0, 1, 0, 0, Doomed(t, {}))
    ensures CanRun(s, Deletion(t, b)) && Exec(s, Deletion(t, b)) == SetBlock(s, b, Block(0, 0, 1, 1, Freed))
  {
    var s1 := Next(s, DeleteObject(t, b));
    var s2 := Next(s1, DropImplicit(t, b));
    RunOne(s2, DeleteBlock(t, b));
    RunHead(s1, DropImplicit(t, b), [DeleteBlock(t, b)]);
    RunHead(s, DeleteObject(t, b), [DropImplicit(t, b)] + [DeleteBlock(t, b)]);
    assert Next(s2, DeleteBlock(t, b)) == SetBlock(s, b, Block(0, 0, 1, 1, Freed));
  }

  /** The handle `p` owns a node with the member `m`, which owns a second node. */
  function TwoNodes(p: Slot, m: Slot, b: BlockId, c: BlockId): State {
    State(map[b := Block(1, 1, 0, 0, Live), c := Block(1, 1, 0, 0, Live)], map[p := Ref(b, true), m := Ref(c, true)],
          map[], map[m := b], map[])
  }

  function Build(t: Tid, p: Slot, q: Slot, m: Slot, b: BlockId, c: BlockId): seq<Action> {
    [Create(t, p, b, {m})] + ([Create(t, q, c, {})] + [Transfer(t, m, q)])
  }

  lemma BuildRuns(t: Tid, p: Slot, q: Slot, m: Slot, b: BlockId, c: BlockId)
    requires p != q && p != m && q != m && b != c
    ensures CanRun(Empty, Build(t, p, q, m, b, c)) && Exec(Empty, Build(t, p, q, m, b, c)) == TwoNodes(p, m, b, c)
  {
    var s1 := Next(Empty, Create(t, p, b, {m}));
    assert s1.homes == map[m := b];
    var s2 := Next(s1, Create(t, q, c, {}));
    assert s2.homes == map[m := b];
    RunOne(s2, Transfer(t, m, q));
    RunHead(s1, Create(t, q, c, {}), [Transfer(t, m, q)]);
    RunHead(Empty, Create(t, p, b, {m}), [Create(t, q, c, {})] + [Transfer(t, m, q)]);
    assert Next(s2, Transfer(t, m, q)) == TwoNodes(p, m, b, c);
  }

  /** `p = p->next` has given up the first node, and its destructor the second. */
  function TwoDoomed(t: Tid, p: Slot, m: Slot, b: BlockId, c: BlockId): State {
    State(map[b := Block(0, 1, 0, 0, Doomed(t, {})), c := Block(0, 1, 0, 0, Doomed(t, {}))], map[],
          map[t := Releasing(Copy(p, m), Ref(b, true))], map[m := b], map[m := Ref(c, true)])
  }

  function OneDoomed(t: Tid, p: Slot, m: Slot, b: BlockId, c: BlockId): State {
    State(map[b := Block(0, 1, 0, 0, Doomed(t, {m})), c := Block(1, 1, 0, 0, Live)], map[m := Ref(c, true)],
          map[t := Releasing(Copy(p, m), Ref(b, true))], map[m := b], map[])
  }

  lemma ReleaseFirst(t: Tid, p: Slot, m: Slot, b: BlockId, c: BlockId)
    requires p != m && b != c
    ensures var s := TwoNodes(p, m, b, c);
            Enabled(s, Release(t, p, Copy(p, m))) && Next(s, Release(t, p, Copy(p, m))) == OneDoomed(t, p, m, b, c)
  {
    var s := TwoNodes(p, m, b, c);
    assert Members(s.(handles := s.handles - {p}), b) == {m};
    assert s.handles - {p} == map[m := Ref(c, true)];
  }

  lemma DestroyNext(t: Tid, p: Slot, m: Slot, b: BlockId, c: BlockId)
    requires p != m && b != c
    ensures var s := OneDoomed(t, p, m, b, c);
            Enabled(s, DestroyMember(t, b, m)) && Next(s, DestroyMember(t, b, m)) == TwoDoomed(t, p, m, b, c)
  {
    var s := OneDoomed(t, p, m, b, c);
    assert Members(s.(handles := s.handles - {m}), c) == {};
    assert s.handles - {m} == map[] && {m} - {m} == {};
    assert s.stale + map[m := Ref(c, true)] == map[m := Ref(c, true)];
  }

  lemma ReleaseRuns(t: Tid, p: Slot, m: Slot, b: BlockId, c: BlockId)
    requires p != m && b != c
    ensures var acts := [Release(t, p, Copy(p, m))] + [DestroyMember(t, b, m)];
            CanRun(TwoNodes(p, m, b, c), acts) && Exec(TwoNodes(p, m, b, c), acts) == TwoDoomed(t, p, m, b, c)
  {
    ReleaseFirst(t, p, m, b, c);
    DestroyNext(t, p, m, b, c);
    RunOne(OneDoomed(t, p, m, b, c), DestroyMember(t, b, m));
    RunHead(TwoNodes(p, m, b, c), Release(t, p, Copy(p, m)), [DestroyMember(t, b, m)]);
  }

  function Advance(t: Tid, p: Slot, m: Slot, b: BlockId, c: BlockId): seq<Action> {
    [Release(t, p, Copy(p, m))] + [DestroyMember(t, b, m)] + Deletion(t, c) + Deletion(t, b)
  }

  /** On one thread, with `p` the only owner of the first of two nodes: `p = p->next` reads its
      source in the destroyed node and adds a reference to the freed block of the second. */
  lemma AdvanceTouchesFreed(t: Tid, p: Slot, q: Slot, m: Slot, b: BlockId, c: BlockId)
    requires p != q && p != m && q != m && b != c
    ensures var acts := Build(t, p, q, m, b, c) + Advance(t, p, m, b, c);
            && CanRun(Empty, acts) && Enabled(Exec(Empty, acts), Finish(t))
            && c in Blocks(Exec(Empty, acts), Finish(t)) && At(Exec(Empty, acts), c).freed == 1
            && m in Slots(Exec(Empty, acts), Finish(t)) && !Standing(Exec(Empty, acts), m)
  {
    var s0, s1 := TwoNodes(p, m, b, c), TwoDoomed(t, p, m, b, c);
    BuildRuns(t, p, q, m, b, c);
    ReleaseRuns(t, p, m, b, c);
    var release := [Release(t, p, Copy(p, m))] + [DestroyMember(t, b, m)];
    DeletionRuns(s1, t, c);
    var s2 := SetBlock(s1, c, Block(0, 0, 1, 1, Freed));
    DeletionRuns(s2, t, b);
    var s3 := SetBlock(s2, b, Block(0, 0, 1, 1, Freed));
    RunConcat(s0, release, Deletion(t, c));
    RunConcat(s0, release + Deletion(t, c), Deletion(t, b));
    RunConcat(Empty, Build(t, p, q, m, b, c), Advance(t, p, m, b, c));
    assert Ref(c, true) in Found(s3, m);
  }
}
