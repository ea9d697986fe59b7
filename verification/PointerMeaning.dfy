/** What the operations on handles mean, without counters, phases and deletions: a handle holds a
  reference or is empty, and `lock()` looks at how many shared handles there are. The counting
  protocol does this in every safe interleaving.
 */
module PointerMeaning {
  import opened ControlBlock

  /** A thread inside an operation: it is to overwrite a handle, it tries to lock and has seen so
      many owners, or it has got its handle. */
  datatype Job = Putting(rest: Rest) | Trying(w: Slot, dst: Slot, seen: int) | Got(b: BlockId, dst: Slot)

  datatype Ideal = Ideal(held: map<Slot, Ref>, jobs: map<Tid, Job>)

  const NOTHING := Ideal(map[], map[])

  /** The shared handles of a block. */
  function Owners(held: map<Slot, Ref>, b: BlockId): nat {
    |Holders(held, Ref(b, true))|
  }

  function Put(held: map<Slot, Ref>, k: Rest): map<Slot, Ref> {
    if HasSource(k) && k.src in held then
      if k.Copy? then held[k.dst := held[k.src]] else (held - {k.src})[k.dst := held[k.src]]
    else held
  }

  function Exchanged(i: Ideal, t: Tid, j: Job, spurious: bool): Ideal
    requires j.Trying? && j.w in i.held
  {
    var b := i.held[j.w].b;
    if !spurious && Owners(i.held, b) == j.seen then Ideal(i.held[j.dst := Ref(b, true)], i.jobs[t := Got(b, j.dst)])
    else i.(jobs := i.jobs[t := j.(seen := Owners(i.held, b))])
  }

  function Onward(i: Ideal, a: Action): Ideal {
    match a
    case Create(_, dst, b, _) => i.(held := i.held[dst := Ref(b, true)])
    case AddRef(_, dst, src, isStrong) =>
      if src in i.held then i.(held := i.held[dst := Ref(i.held[src].b, isStrong)]) else i
    case Transfer(_, dst, src) =>
      if src in i.held then i.(held := (i.held - {src})[dst := i.held[src]]) else i
    case Release(t, x, k) => Ideal(i.held - {x}, i.jobs[t := Putting(k)])
    case DestroyMember(_, _, x) => i.(held := i.held - {x})
    case Finish(t) =>
      if t in i.jobs && i.jobs[t].Putting? then Ideal(Put(i.held, i.jobs[t].rest), i.jobs - {t}) else i
    case LoadStrong(t, w, dst) =>
      if w in i.held then i.(jobs := i.jobs[t := Trying(w, dst, Owners(i.held, i.held[w].b))]) else i
    case CompareExchange(t, spurious) =>
      if t in i.jobs && i.jobs[t].Trying? && i.jobs[t].w in i.held then Exchanged(i, t, i.jobs[t], spurious) else i
    case GiveUp(t) => i.(jobs := i.jobs - {t})
    case ReadPtr(t) => i.(jobs := i.jobs - {t})
    case _ => i
  }

  function After(i: Ideal, acts: seq<Action>): Ideal
    decreases |acts|
  {
    if acts == [] then i else After(Onward(i, acts[0]), acts[1..])
  }

  // ---- the protocol does what the operations mean ---------------------------------------

  function JobOf(pc: Pc): Job {
    match pc
    case Releasing(k, _) => Putting(k)
    case Locking(w, dst, current) => Trying(w, dst, current)
    case Locked(b, dst) => Got(b, dst)
  }

  function Jobs(pcs: map<Tid, Pc>): map<Tid, Job> {
    map t | t in pcs :: JobOf(pcs[t])
  }

  function View(s: State): Ideal {
    Ideal(s.handles, Jobs(s.pcs))
  }

  lemma JobsMove(pcs: map<Tid, Pc>, t: Tid, pc: Pc)
    ensures Jobs(pcs[t := pc]) == Jobs(pcs)[t := JobOf(pc)] && Jobs(pcs - {t}) == Jobs(pcs) - {t}
  {
  }

  lemma OwnersCounted(s: State, w: Slot)
    requires CountsOk(s) && w in s.handles
    ensures At(s, s.handles[w].b).strong == Owners(s.handles, s.handles[w].b)
  {
    var b := s.handles[w].b;
    assert CountOk(s.handles, b, s.blocks[b]);
  }

  lemma LockMeans(s: State, a: Action)
    requires CountsOk(s) && Enabled(s, a) && (a.LoadStrong? || a.CompareExchange? || a.GiveUp? || a.ReadPtr?)
    ensures View(Next(s, a)) == Onward(View(s), a)
  {
    var t := a.t;
    match a
    case LoadStrong(_, w, dst) =>
      OwnersCounted(s, w);
      JobsMove(s.pcs, t, Locking(w, dst, At(s, s.handles[w].b).strong));
    case CompareExchange(_, spurious) =>
      var pc := s.pcs[t];
      var b := s.handles[pc.w].b;
      OwnersCounted(s, pc.w);
      JobsMove(s.pcs, t, Locked(b, pc.dst));
      JobsMove(s.pcs, t, pc.(current := At(s, b).strong));
    case GiveUp(_) => JobsMove(s.pcs, t, s.pcs[t]);
    case ReadPtr(_) => JobsMove(s.pcs, t, s.pcs[t]);
  }

  /** A source that is there is not one of the destroyed handles. */
  lemma SourceFound(s: State, t: Tid)
    requires Inv(s) && Enabled(s, Finish(t)) && !Inside(s, Finish(t))
    ensures HasSource(s.pcs[t].rest) ==> s.pcs[t].rest.src !in s.stale
  {
    FinishReady(s, t);
  }

  lemma FinishMeans(s: State, t: Tid)
    requires Enabled(s, Finish(t)) && (HasSource(s.pcs[t].rest) ==> s.pcs[t].rest.src !in s.stale)
    ensures View(Next(s, Finish(t))) == Onward(View(s), Finish(t))
  {
    JobsMove(s.pcs, t, s.pcs[t]);
  }

  lemma PlainMeans(s: State, a: Action)
    requires Enabled(s, a) && !Twice(s, a)
    requires !(a.Finish? || a.LoadStrong? || a.CompareExchange? || a.GiveUp? || a.ReadPtr?)
    ensures View(Next(s, a)) == Onward(View(s), a)
  {
    if a.Release? {
      JobsMove(s.pcs, a.t, Releasing(a.rest, s.handles[a.x]));
    } else if a.DestroyMember? {
      assert a.x !in s.handles ==> s.handles - {a.x} == s.handles;
    }
  }

  lemma StepMeans(s: State, a: Action)
    requires Inv(s) && Enabled(s, a) && !Inside(s, a)
    ensures View(Next(s, a)) == Onward(View(s), a)
  {
    if a.Finish? {
      SourceFound(s, a.t);
      FinishMeans(s, a.t);
    } else if a.LoadStrong? || a.CompareExchange? || a.GiveUp? || a.ReadPtr? {
      LockMeans(s, a);
    } else {
      PlainMeans(s, a);
    }
  }

  lemma {:induction false} RunMeans(s: State, acts: seq<Action>)
    requires Inv(s) && CanRun(s, acts) && NoneInside(s, acts)
    ensures View(Exec(s, acts)) == After(View(s), acts)
    decreases |acts|
  {
    if acts != [] {
      StepMeans(s, acts[0]);
      InvStep(s, acts[0]);
      RunMeans(Next(s, acts[0]), acts[1..]);
    }
  }

  /** In every safe interleaving the handles hold what the operations mean. */
  lemma HandlesMean(acts: seq<Action>)
    requires CanRun(Empty, acts) && NoneInside(Empty, acts)
    ensures Exec(Empty, acts).handles == After(NOTHING, acts).held
  {
    EmptyInv();
    RunMeans(Empty, acts);
    assert View(Empty) == NOTHING;
  }

  // ---- lock() -----------------------------------------------------------------------------

  /** A thread that has seen no owner has none to find. */
  predicate SeenOk(s: State) {
    forall t <- s.pcs | s.pcs[t].Locking? && s.pcs[t].current == 0 && s.pcs[t].w in s.handles ::
      At(s, s.handles[s.pcs[t].w].b).strong == 0
  }

  lemma FinishNoOwner(s: State, t: Tid, b: BlockId)
    requires CountsOk(s) && PhasesOk(s) && Enabled(s, Finish(t)) && b in s.blocks && s.blocks[b].strong == 0
    requires HasSource(s.pcs[t].rest) ==> s.pcs[t].rest.src !in s.stale
    ensures b in Next(s, Finish(t)).blocks && Next(s, Finish(t)).blocks[b].strong == 0
  {
    var k := s.pcs[t].rest;
    if HasSource(k) && k.src in s.handles {
      Held(s, k.src);
    }
  }

  lemma DropNoOwner(s: State, t: Tid, x: Slot, b: BlockId)
    requires CountsOk(s) && PhasesOk(s) && x in s.handles && b in s.blocks && s.blocks[b].strong == 0
    ensures b in Dropped(s, t, x).blocks && Dropped(s, t, x).blocks[b].strong == 0
  {
    Held(s, x);
  }

  lemma BeginNoOwner(s: State, a: Action, b: BlockId)
    requires CountsOk(s) && PhasesOk(s) && Enabled(s, a) && b in s.blocks && s.blocks[b].strong == 0
    requires a.Create? || a.AddRef? || a.Transfer? || a.Release?
    ensures b in Next(s, a).blocks && Next(s, a).blocks[b].strong == 0
  {
    match a
    case Create(_, _, _, _) =>
    case AddRef(_, _, src, _) => Held(s, src);
    case Transfer(_, _, _) =>
    case Release(t, x, _) => DropNoOwner(s, t, x, b);
  }

  lemma DestroyNoOwner(s: State, a: Action, b: BlockId)
    requires CountsOk(s) && PhasesOk(s) && Enabled(s, a) && a.DestroyMember? && !Twice(s, a)
    requires b in s.blocks && s.blocks[b].strong == 0
    ensures b in Next(s, a).blocks && Next(s, a).blocks[b].strong == 0
  {
    if a.x in s.handles {
      DropNoOwner(s, a.t, a.x, b);
    }
  }

  lemma LateNoOwner(s: State, a: Action, b: BlockId)
    requires Enabled(s, a) && b in s.blocks && s.blocks[b].strong == 0
    requires !(a.Create? || a.AddRef? || a.Transfer? || a.Release? || a.DestroyMember? || a.Finish?)
    ensures b in Next(s, a).blocks && Next(s, a).blocks[b].strong == 0
  {
  }

  /** A block without owners does not get one. */
  lemma NoOwnerStays(s: State, a: Action, b: BlockId)
    requires Inv(s) && Enabled(s, a) && !Inside(s, a) && b in s.blocks && s.blocks[b].strong == 0
    ensures b in Next(s, a).blocks && Next(s, a).blocks[b].strong == 0
  {
    if a.Create? || a.AddRef? || a.Transfer? || a.Release? {
      BeginNoOwner(s, a, b);
    } else if a.DestroyMember? {
      DestroyNoOwner(s, a, b);
    } else if a.Finish? {
      SourceFound(s, a.t);
      FinishNoOwner(s, a.t, b);
    } else {
      LateNoOwner(s, a, b);
    }
  }

  /** The handles that a step may change. */
  function Changed(s: State, a: Action): set<Slot>
    requires Enabled(s, a)
  {
    match a
    case Create(_, dst, _, _) => {dst}
    case AddRef(_, dst, _, _) => {dst}
    case Transfer(_, dst, src) => {dst, src}
    case Release(_, x, _) => {x}
    case DestroyMember(_, _, x) => {x}
    case Finish(t) => Pins(s.pcs[t])
    case CompareExchange(t, _) => Pins(s.pcs[t])
    case _ => {}
  }

  lemma OnlyChanged(s: State, a: Action, w: Slot)
    requires Enabled(s, a) && w !in Changed(s, a) && w in s.handles
    ensures w in Next(s, a).handles && Next(s, a).handles[w] == s.handles[w]
  {
  }

  /** The handles that a thread works on are left alone by the others. */
  lemma PinnedNotChanged(s: State, a: Action, t: Tid, w: Slot)
    requires PinsDisjoint(s) && Enabled(s, a) && a.t != t && t in s.pcs && w in Pins(s.pcs[t])
    ensures w !in Changed(s, a)
  {
    if a.Finish? || a.CompareExchange? {
      assert Pins(s.pcs[a.t]) !! Pins(s.pcs[t]);
    }
  }

  lemma OthersStay(s: State, a: Action, t: Tid)
    requires Enabled(s, a) && a.t != t
    ensures t in Next(s, a).pcs <==> t in s.pcs
    ensures t in s.pcs ==> Next(s, a).pcs[t] == s.pcs[t]
  {
  }

  lemma SeenOther(s: State, a: Action, t: Tid)
    requires Inv(s) && SeenOk(s) && Enabled(s, a) && !Inside(s, a) && a.t != t
    requires t in s.pcs && s.pcs[t].Locking? && s.pcs[t].current == 0
    ensures var w := s.pcs[t].w;
            w in Next(s, a).handles && At(Next(s, a), Next(s, a).handles[w].b).strong == 0
  {
    var w := s.pcs[t].w;
    assert PcOk(s.handles, s.pcs[t]);
    PinnedNotChanged(s, a, t, w);
    OnlyChanged(s, a, w);
    NoOwnerStays(s, a, s.handles[w].b);
  }

  lemma SeenOwn(s: State, a: Action)
    requires PcsOk(s) && SeenOk(s) && Enabled(s, a) && (a.LoadStrong? || a.CompareExchange?)
    requires var pcs := Next(s, a).pcs; pcs[a.t].Locking? && pcs[a.t].current == 0
    ensures var w := Next(s, a).pcs[a.t].w;
            w in Next(s, a).handles && At(Next(s, a), Next(s, a).handles[w].b).strong == 0
  {
  }

  lemma SeenStep(s: State, a: Action)
    requires Inv(s) && SeenOk(s) && Enabled(s, a) && !Inside(s, a)
    ensures SeenOk(Next(s, a))
  {
    var e := Next(s, a);
    forall t <- e.pcs | e.pcs[t].Locking? && e.pcs[t].current == 0 && e.pcs[t].w in e.handles
      ensures At(e, e.handles[e.pcs[t].w].b).strong == 0
    {
      if a.t != t {
        OthersStay(s, a, t);
        SeenOther(s, a, t);
      } else {
        OwnLocking(s, a);
        SeenOwn(s, a);
      }
    }
  }

  /** Only these steps leave their own thread at a lock. */
  lemma OwnLocking(s: State, a: Action)
    requires Attended(s) && Enabled(s, a) && a.t in Next(s, a).pcs && Next(s, a).pcs[a.t].Locking?
    ensures a.LoadStrong? || a.CompareExchange?
  {
  }

  lemma {:induction false} SeenRun(s: State, acts: seq<Action>)
    requires Inv(s) && SeenOk(s) && CanRun(s, acts) && NoneInside(s, acts)
    ensures Inv(Exec(s, acts)) && SeenOk(Exec(s, acts))
    decreases |acts|
  {
    if acts != [] {
      SeenStep(s, acts[0]);
      InvStep(s, acts[0]);
      SeenRun(Next(s, acts[0]), acts[1..]);
    }
  }

  /** In every safe interleaving `lock()` gives up only if no shared handle is left, when it does and
      ever after. */
  lemma GivesUpOnlyExpired(acts: seq<Action>, t: Tid)
    requires CanRun(Empty, acts) && NoneInside(Empty, acts) && Enabled(Exec(Empty, acts), GiveUp(t))
    ensures var s := Exec(Empty, acts);
            var w := s.pcs[t].w;
            && w in s.handles && At(s, s.handles[w].b).strong == 0
            && Holders(s.handles, Ref(s.handles[w].b, true)) == {}
  {
    EmptyInv();
    SeenRun(Empty, acts);
    var s := Exec(Empty, acts);
    assert PcOk(s.handles, s.pcs[t]);
    OwnersCounted(s, s.pcs[t].w);
  }

  lemma RunTwo(s: State, a: Action, b: Action)
    requires Enabled(s, a) && Enabled(Next(s, a), b)
    ensures CanRun(s, [a, b]) && Exec(s, [a, b]) == Next(Next(s, a), b)
  {
    RunOne(Next(s, a), b);
    RunHead(s, a, [b]);
    assert [a] + [b] == [a, b];
  }

  function Locks(t: Tid, w: Slot, dst: Slot): seq<Action> {
    [LoadStrong(t, w, dst)] + [CompareExchange(t, false), ReadPtr(t)]
  }

  lemma LockRuns(s: State, t: Tid, w: Slot, dst: Slot)
    requires Enabled(s, LoadStrong(t, w, dst)) && At(s, s.handles[w].b).strong != 0
    ensures CanRun(s, Locks(t, w, dst)) && Exec(s, Locks(t, w, dst)).pcs == s.pcs
    ensures Exec(s, Locks(t, w, dst)).handles == s.handles[dst := Ref(s.handles[w].b, true)]
  {
    var s1 := Next(s, LoadStrong(t, w, dst));
    var s2 := Next(s1, CompareExchange(t, false));
    RunTwo(s1, CompareExchange(t, false), ReadPtr(t));
    RunHead(s, LoadStrong(t, w, dst), [CompareExchange(t, false), ReadPtr(t)]);
    assert s2.pcs - {t} == s.pcs;
  }

  lemma GiveUpRuns(s: State, t: Tid, w: Slot, dst: Slot)
    requires Enabled(s, LoadStrong(t, w, dst)) && At(s, s.handles[w].b).strong == 0
    ensures CanRun(s, [LoadStrong(t, w, dst), GiveUp(t)]) && Exec(s, [LoadStrong(t, w, dst), GiveUp(t)]) == s
  {
    RunTwo(s, LoadStrong(t, w, dst), GiveUp(t));
    assert s.pcs[t := Locking(w, dst, 0)] - {t} == s.pcs;
  }

  /** From every state of a safe interleaving, an undisturbed `lock()` gives the target a shared
      reference if there is a shared handle, and otherwise leaves it empty. */
  lemma LockExactly(acts: seq<Action>, t: Tid, w: Slot, dst: Slot)
    requires CanRun(Empty, acts) && NoneInside(Empty, acts) && Enabled(Exec(Empty, acts), LoadStrong(t, w, dst))
    ensures var s := Exec(Empty, acts);
            var b := s.handles[w].b;
            if Holders(s.handles, Ref(b, true)) != {} then
              && CanRun(s, Locks(t, w, dst)) && Exec(s, Locks(t, w, dst)).pcs == s.pcs
              && Exec(s, Locks(t, w, dst)).handles == s.handles[dst := Ref(b, true)]
            else
              CanRun(s, [LoadStrong(t, w, dst), GiveUp(t)]) && Exec(s, [LoadStrong(t, w, dst), GiveUp(t)]) == s
  {
    EmptyInv();
    InvRun(Empty, acts);
    var s := Exec(Empty, acts);
    OwnersCounted(s, w);
    if Holders(s.handles, Ref(s.handles[w].b, true)) != {} {
      LockRuns(s, t, w, dst);
    } else {
      GiveUpRuns(s, t, w, dst);
    }
  }
}
