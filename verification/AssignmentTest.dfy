/** Which assignments of reference-counted handles are safe, told before they begin: the blocks that
  fall when a handle lets go of its reference.
 */
module AssignmentTest {
  import opened ControlBlock
  import PointerMeaning

  // ---- the test before the call ----------------------------------------------------------------

  /** Blocks that fall one after the other when the handle `x` lets go: each is alive, and all its
      shared handles are `x` or members of the objects of earlier ones. The first therefore has
      strong count 1. */
  predicate FallsAt(s: State, x: Slot, fall: seq<BlockId>, i: nat)
    requires i < |fall|
  {
    && At(s, fall[i]).phase.Live?
    && forall y <- Holders(s.handles, Ref(fall[i], true)) :: y == x || MemberOf(s, y, fall[..i])
  }

  predicate MemberOf(s: State, y: Slot, bs: seq<BlockId>) {
    y in s.homes && s.homes[y] in bs
  }

  predicate Fall(s: State, x: Slot, fall: seq<BlockId>) {
    forall i | 0 <= i < |fall| :: FallsAt(s, x, fall, i)
  }

  /** The handle `y` lies in an object that goes when `x` lets go of its reference. */
  ghost predicate GoesWith(s: State, x: Slot, y: Slot) {
    exists fall: seq<BlockId> :: Fall(s, x, fall) && MemberOf(s, y, fall)
  }

  /** A deletion step of the thread `t`. */
  predicate Deletes(a: Action, t: Tid) {
    a.t == t && (a.DestroyMember? || a.DeleteObject? || a.DropImplicit? || a.DeleteBlock?)
  }

  /** What the deletions of `t` alone have done since `s`, when `x` let go: to the handles, */
  ghost predicate HandlesFell(s: State, e: State, x: Slot, fall: seq<BlockId>) {
    && (forall y <- e.handles :: y in s.handles && s.handles[y] == e.handles[y])
    && (forall y <- s.handles | y !in e.handles :: y == x || MemberOf(s, y, fall))
  }

  /** and to the blocks. */
  ghost predicate BlocksFell(s: State, e: State, t: Tid, fall: seq<BlockId>) {
    && (forall b <- e.blocks | e.blocks[b].phase.Live? :: At(s, b).phase.Live?)
    && (forall b <- s.blocks | s.blocks[b].phase.Live? :: FellBy(At(e, b), t, b in fall))
    && (forall b <- e.blocks | e.blocks[b].phase.Doomed? && e.blocks[b].phase.t == t :: b in fall)
  }

  ghost predicate Fallen(s: State, e: State, t: Tid, x: Slot, fall: seq<BlockId>) {
    Fall(s, x, fall) && e.homes == s.homes && HandlesFell(s, e, x, fall) && BlocksFell(s, e, t, fall)
  }

  /** A block that was alive still is, or it fell by the hand of `t`. */
  predicate FellBy(blk: Block, t: Tid, inFall: bool) {
    blk.phase.Live? || (inFall && (blk.destroyed > 0 || (blk.phase.Doomed? && blk.phase.t == t)))
  }

  lemma FallMore(s: State, x: Slot, fall: seq<BlockId>, c: BlockId)
    requires Fall(s, x, fall) && At(s, c).phase.Live?
    requires forall y <- Holders(s.handles, Ref(c, true)) :: y == x || MemberOf(s, y, fall)
    ensures Fall(s, x, fall + [c])
  {
    var more := fall + [c];
    forall i | 0 <= i < |more| ensures FallsAt(s, x, more, i) {
      if i < |fall| {
        assert FallsAt(s, x, fall, i) && more[..i] == fall[..i];
      } else {
        assert more[..i] == fall;
      }
    }
  }

  lemma MemberOfMore(s: State, fall: seq<BlockId>, c: BlockId)
    ensures forall y | MemberOf(s, y, fall) :: MemberOf(s, y, fall + [c])
  {
  }

  /** If `y` is the last shared handle of its block in `e`, all those it had in `s` are accounted
      for. */
  lemma LastHolder(s: State, e: State, t: Tid, x: Slot, fall: seq<BlockId>, y: Slot, c: BlockId)
    requires Fallen(s, e, t, x, fall) && CountsOk(e) && y in e.handles && e.handles[y] == Ref(c, true)
    requires e.blocks[c].strong == 1 && (y == x || MemberOf(s, y, fall))
    ensures forall z <- Holders(s.handles, Ref(c, true)) :: z == x || MemberOf(s, z, fall)
  {
    var hs := Holders(e.handles, Ref(c, true));
    assert CountOk(e.handles, c, e.blocks[c]) && y in hs;
    forall z <- Holders(s.handles, Ref(c, true)) ensures z == x || MemberOf(s, z, fall) {
      if z in e.handles && z != y {
        assert {y, z} <= hs && |{y, z}| == 2;
        Sizes({y, z}, hs);
      }
    }
  }

  lemma Sizes(a: set<Slot>, b: set<Slot>)
    requires a <= b
    ensures |a| <= |b|
  {
    assert b == a + (b - a);
  }

  lemma HandlesDropped(s: State, e: State, x: Slot, fall: seq<BlockId>, t: Tid, y: Slot)
    requires HandlesFell(s, e, x, fall) && y in e.handles && (y == x || MemberOf(s, y, fall))
    ensures HandlesFell(s, Dropped(e, t, y), x, fall)
  {
  }

  lemma HandlesMore(s: State, e: State, x: Slot, fall: seq<BlockId>, c: BlockId)
    requires HandlesFell(s, e, x, fall)
    ensures HandlesFell(s, e, x, fall + [c])
  {
    MemberOfMore(s, fall, c);
  }

  /** One block changes: it falls, or it stays as it was in this respect. */
  lemma BlocksDropped(s: State, e: State, e': State, t: Tid, fall: seq<BlockId>, more: seq<BlockId>, c: BlockId)
    requires BlocksFell(s, e, t, fall) && c in e.blocks && c in e'.blocks && e'.blocks == e.blocks[c := e'.blocks[c]]
    requires var p, q := e.blocks[c].phase, e'.blocks[c].phase;
             || (more == fall && (p == q || (!p.Live? && !p.Doomed? && !q.Live? && !q.Doomed?)))
             || (more == fall + [c] && p.Live? && q.Doomed? && q.t == t)
    requires e.blocks[c].destroyed <= e'.blocks[c].destroyed
    ensures BlocksFell(s, e', t, more)
  {
    forall b <- s.blocks | s.blocks[b].phase.Live? ensures FellBy(At(e', b), t, b in more) {
      assert FellBy(At(e, b), t, b in fall);
    }
  }

  lemma DropFallen(s: State, e: State, t: Tid, x: Slot, fall: seq<BlockId>, y: Slot) returns (more: seq<BlockId>)
    requires Fallen(s, e, t, x, fall) && CountsOk(e) && PhasesOk(e)
    requires y in e.handles && (y == x || MemberOf(s, y, fall))
    ensures Fallen(s, Dropped(e, t, y), t, x, more)
  {
    var r := e.handles[y];
    var e' := Dropped(e, t, y);
    Held(e, y);
    HandlesDropped(s, e, x, fall, t, y);
    more := fall;
    if r.isStrong && e.blocks[r.b].strong == 1 {
      LastHolder(s, e, t, x, fall, y, r.b);
      FallMore(s, x, fall, r.b);
      HandlesMore(s, e', x, fall, r.b);
      more := fall + [r.b];
    }
    BlocksDropped(s, e, e', t, fall, more, r.b);
  }

  lemma ShrunkFallen(s: State, e: State, t: Tid, x: Slot, fall: seq<BlockId>, b: BlockId, y: Slot, left: map<Slot, Ref>)
    requires Fallen(s, e, t, x, fall) && b in e.blocks
    ensures Fallen(s, Shrunk(e, b, y, left), t, x, fall)
  {
    var e' := Shrunk(e, b, y, left);
    forall c <- s.blocks | s.blocks[c].phase.Live? ensures FellBy(At(e', c), t, c in fall) {
      assert FellBy(At(e, c), t, c in fall);
    }
  }

  lemma DestroyMemberFallen(s: State, e: State, t: Tid, x: Slot, fall: seq<BlockId>, b: BlockId, y: Slot)
    returns (more: seq<BlockId>)
    requires Fallen(s, e, t, x, fall) && CountsOk(e) && PhasesOk(e) && HomesOk(e)
    requires Enabled(e, DestroyMember(t, b, y)) && !OwnTarget(e, t, y)
    ensures Fallen(s, Next(e, DestroyMember(t, b, y)), t, x, more)
  {
    assert y in Members(e, b) && b in fall;
    more := fall;
    var d := e;
    if y in e.handles {
      more := DropFallen(s, e, t, x, fall, y);
      d := Dropped(e, t, y);
    }
    ShrunkFallen(s, d, t, x, more, b, y, Remains(e, y));
  }

  lemma DeletionFallen(s: State, e: State, t: Tid, x: Slot, fall: seq<BlockId>, a: Action)
    requires Fallen(s, e, t, x, fall) && PhasesOk(e) && Enabled(e, a) && Deletes(a, t) && !a.DestroyMember?
    ensures Fallen(s, Next(e, a), t, x, fall)
  {
    var e' := Next(e, a);
    assert PhaseOk(e.blocks[a.b]);
    forall c <- s.blocks | s.blocks[c].phase.Live? ensures FellBy(At(e', c), t, c in fall) {
      assert FellBy(At(e, c), t, c in fall);
    }
  }

  lemma FallenStep(s: State, e: State, t: Tid, x: Slot, fall: seq<BlockId>, a: Action) returns (more: seq<BlockId>)
    requires Fallen(s, e, t, x, fall) && CountsOk(e) && PhasesOk(e) && HomesOk(e)
    requires Enabled(e, a) && Deletes(a, t) && !Twice(e, a)
    ensures Fallen(s, Next(e, a), t, x, more) && Next(e, a).pcs == e.pcs
  {
    more := fall;
    if a.DestroyMember? {
      more := DestroyMemberFallen(s, e, t, x, fall, a.b, a.x);
    } else {
      DeletionFallen(s, e, t, x, fall, a);
    }
  }

  /** The deletions of `t` alone, as long as they are safe. */
  lemma {:induction false} FallenRun(s: State, e: State, t: Tid, x: Slot, fall: seq<BlockId>, acts: seq<Action>)
    returns (more: seq<BlockId>)
    requires Fallen(s, e, t, x, fall) && Inv(e) && CanRun(e, acts)
    requires (forall a <- acts :: Deletes(a, t)) && AllSafe(e, acts)
    ensures Fallen(s, Exec(e, acts), t, x, more) && Inv(Exec(e, acts)) && Exec(e, acts).pcs == e.pcs
    decreases |acts|
  {
    if acts == [] {
      more := fall;
    } else {
      var next := FallenStep(s, e, t, x, fall, acts[0]);
      SafeStep(e, acts[0]);
      more := FallenRun(s, Next(e, acts[0]), t, x, next, acts[1..]);
    }
  }

  lemma SafeStep(s: State, a: Action)
    requires Inv(s) && Enabled(s, a) && Safe(s, a)
    ensures Inv(Next(s, a))
  {
    SafeExactly(s, a);
    InvStep(s, a);
  }

  lemma FallenStart(s: State, t: Tid, x: Slot, k: Rest) returns (fall: seq<BlockId>)
    requires CountsOk(s) && PhasesOk(s) && Attended(s) && Enabled(s, Release(t, x, k))
    ensures Fallen(s, Next(s, Release(t, x, k)), t, x, fall)
  {
    forall b <- s.blocks ensures !Names(s.blocks[b].phase, t) {
      NotNamed(s, t, b);
    }
    assert Fallen(s, s, t, x, []);
    fall := DropFallen(s, s, t, x, [], x);
  }

  /** An unsafe deletion step has run into the target. */
  lemma {:induction false} UnsafeGoes(s: State, e: State, t: Tid, x: Slot, fall: seq<BlockId>, acts: seq<Action>)
    requires Fallen(s, e, t, x, fall) && Inv(e) && CanRun(e, acts) && (forall a <- acts :: Deletes(a, t))
    requires !AllSafe(e, acts) && OwnTarget(e, t, x)
    ensures GoesWith(s, x, x)
    decreases |acts|
  {
    var a := acts[0];
    if Twice(e, a) {
      TargetFell(s, e, t, x, fall, a);
    } else {
      var next := FallenStep(s, e, t, x, fall, a);
      DeletionGoesOn(e, a, t);
      UnsafeGoes(s, Next(e, a), t, x, next, acts[1..]);
    }
  }

  lemma DeletionGoesOn(e: State, a: Action, t: Tid)
    requires Inv(e) && Enabled(e, a) && Deletes(a, t) && !Twice(e, a)
    ensures Safe(e, a) && Inv(Next(e, a))
  {
    SafeExactly(e, a);
    InvStep(e, a);
  }

  lemma TargetFell(s: State, e: State, t: Tid, x: Slot, fall: seq<BlockId>, a: Action)
    requires Fallen(s, e, t, x, fall) && HomesOk(e) && Enabled(e, a) && Deletes(a, t) && a.DestroyMember? && a.x == x
    ensures GoesWith(s, x, x)
  {
    assert x in Members(e, a.b) && a.b in fall;
    assert MemberOf(s, x, fall);
  }

  /** A source that is gone was in the fall. */
  lemma SourceFell(s: State, e: State, t: Tid, x: Slot, fall: seq<BlockId>, y: Slot)
    requires Fallen(s, e, t, x, fall) && PhasesOk(e) && HomesOk(s) && HomesOk(e) && Usable(s, y) && !Standing(e, y)
    ensures GoesWith(s, x, y)
  {
    var h := s.homes[y];
    assert FellBy(At(e, h), t, h in fall) && PhaseOk(e.blocks[h]);
    assert MemberOf(s, y, fall);
  }

  /** Everything that can fall has fallen once the thread is done. */
  lemma {:induction false} AllFell(s: State, e: State, t: Tid, x: Slot, fell: seq<BlockId>, fall: seq<BlockId>, i: nat)
    requires Fallen(s, e, t, x, fell) && CountsOk(e) && PhasesOk(e) && HomesOk(e) && x !in e.handles
    requires forall b <- e.blocks :: !Names(e.blocks[b].phase, t)
    requires Fall(s, x, fall) && i < |fall|
    ensures At(e, fall[i]).destroyed > 0
    decreases i
  {
    var c := fall[i];
    assert FallsAt(s, x, fall, i) && FellBy(At(e, c), t, c in fell);
    if At(e, c).phase.Live? {
      var z := SomeHolder(e, c);
      assert z in Holders(s.handles, Ref(c, true)) && MemberOf(s, z, fall[..i]);
      var j: nat :| j < i && fall[j] == s.homes[z];
      IntactStands(e, z);
      AllFell(s, e, t, x, fell, fall, j);
    }
  }

  lemma SomeHolder(e: State, c: BlockId) returns (z: Slot)
    requires CountsOk(e) && PhasesOk(e) && At(e, c).phase.Live?
    ensures z in e.handles && e.handles[z] == Ref(c, true)
  {
    assert CountOk(e.handles, c, e.blocks[c]) && PhaseOk(e.blocks[c]);
    assert Holders(e.handles, Ref(c, true)) != {};
    z :| z in Holders(e.handles, Ref(c, true));
  }

  lemma MemberFell(s: State, e: State, t: Tid, x: Slot, fell: seq<BlockId>, y: Slot)
    requires Fallen(s, e, t, x, fell) && CountsOk(e) && PhasesOk(e) && HomesOk(e) && x !in e.handles
    requires (forall b <- e.blocks :: !Names(e.blocks[b].phase, t)) && GoesWith(s, x, y)
    ensures !Standing(e, y)
  {
    var fall: seq<BlockId> :| Fall(s, x, fall) && MemberOf(s, y, fall);
    var i: nat :| i < |fall| && fall[i] == s.homes[y];
    AllFell(s, e, t, x, fell, fall, i);
  }

  /** The deletions that a release has started are done, and the operation goes on. */
  predicate Completes(s: State, t: Tid, x: Slot, k: Rest, acts: seq<Action>) {
    && Enabled(s, Release(t, x, k)) && !k.Nothing? && (forall a <- acts :: Deletes(a, t))
    && CanRun(Next(s, Release(t, x, k)), acts) && Enabled(Exec(Next(s, Release(t, x, k)), acts), Finish(t))
  }

  /** The target and the source survive the release. */
  ghost predicate Survive(s: State, x: Slot, k: Rest) {
    !GoesWith(s, x, x) && !(HasSource(k) && GoesWith(s, x, k.src))
  }

  predicate SafeToEnd(s: State, acts: seq<Action>, t: Tid)
    requires CanRun(s, acts) && Enabled(Exec(s, acts), Finish(t))
  {
    AllSafe(s, acts) && Safe(Exec(s, acts), Finish(t))
  }

  lemma SurviveSafe(s: State, t: Tid, x: Slot, k: Rest, acts: seq<Action>)
    requires Inv(s) && Completes(s, t, x, k, acts) && Survive(s, x, k)
    ensures SafeToEnd(Next(s, Release(t, x, k)), acts, t)
  {
    var e := Next(s, Release(t, x, k));
    var fall := FallenStart(s, t, x, k);
    ReleaseStep(s, t, x, k);
    if !AllSafe(e, acts) {
      UnsafeGoes(s, e, t, x, fall, acts);
    }
    var more := FallenRun(s, e, t, x, fall, acts);
    var f := Exec(e, acts);
    FinishSafe(f, t);
    if Inside(f, Finish(t)) {
      SourceFell(s, f, t, x, more, k.src);
    }
  }

  lemma SafeSurvive(s: State, t: Tid, x: Slot, k: Rest, acts: seq<Action>)
    requires Inv(s) && Completes(s, t, x, k, acts) && SafeToEnd(Next(s, Release(t, x, k)), acts, t)
    ensures Survive(s, x, k)
  {
    var e := Next(s, Release(t, x, k));
    var fall := FallenStart(s, t, x, k);
    ReleaseStep(s, t, x, k);
    var more := FallenRun(s, e, t, x, fall, acts);
    var f := Exec(e, acts);
    NothingWent(s, f, t, x, more, k);
  }

  lemma NothingWent(s: State, f: State, t: Tid, x: Slot, more: seq<BlockId>, k: Rest)
    requires Fallen(s, f, t, x, more) && CountsOk(f) && PhasesOk(f) && HomesOk(f) && PcsOk(f)
    requires Enabled(f, Finish(t)) && f.pcs[t].rest == k && !k.Nothing? && k.dst == x && Safe(f, Finish(t))
    ensures Survive(s, x, k)
  {
    assert PcOk(f.handles, f.pcs[t]);
    assert x in Slots(f, Finish(t)) && (HasSource(k) ==> k.src in Slots(f, Finish(t)));
    if GoesWith(s, x, x) {
      MemberFell(s, f, t, x, more, x);
    }
    if HasSource(k) && GoesWith(s, x, k.src) {
      MemberFell(s, f, t, x, more, k.src);
    }
  }

  /** Whether an assignment or a reset is safe can be told before it: undisturbed by other threads
      it touches freed memory exactly when its target or its source lies in an object that goes
      with the old reference, that is, in one of which the target is the only owner, or whose
      owners all lie in objects that go with it. */
  lemma AssignmentExactly(before: seq<Action>, t: Tid, x: Slot, k: Rest, acts: seq<Action>)
    requires CanRun(Empty, before) && NoneInside(Empty, before) && Completes(Exec(Empty, before), t, x, k, acts)
    ensures var s := Exec(Empty, before);
            SafeToEnd(Next(s, Release(t, x, k)), acts, t) <==> Survive(s, x, k)
  {
    var s := Exec(Empty, before);
    EmptyInv();
    InvRun(Empty, before);
    if Survive(s, x, k) {
      SurviveSafe(s, t, x, k, acts);
    }
    if SafeToEnd(Next(s, Release(t, x, k)), acts, t) {
      SafeSurvive(s, t, x, k, acts);
    }
  }

  // ---- what the assignment does ---------------------------------------------------------------

  /** The two maps agree on the handle `y`. */
  predicate Agree(m: map<Slot, Ref>, n: map<Slot, Ref>, y: Slot) {
    (y in m <==> y in n) && (y in m ==> m[y] == n[y])
  }

  /** Before the operation goes on: only the old reference, and handles in objects that go with it,
      are gone. */
  lemma OnlyFallen(s: State, e: State, t: Tid, x: Slot, fall: seq<BlockId>, y: Slot)
    requires Fallen(s, e, t, x, fall) && x !in e.handles
    ensures y in e.handles ==> y in s.handles - {x}
    ensures !GoesWith(s, x, y) ==> Agree(e.handles, s.handles - {x}, y)
  {
    if y in s.handles && y !in e.handles && y != x {
      assert MemberOf(s, y, fall);
    }
  }

  lemma PutAgrees(m: map<Slot, Ref>, n: map<Slot, Ref>, k: Rest, y: Slot)
    requires HasSource(k) ==> Agree(m, n, k.src)
    ensures Agree(m, n, y) ==> Agree(PointerMeaning.Put(m, k), PointerMeaning.Put(n, k), y)
    ensures (y in m ==> y in n) ==> y in PointerMeaning.Put(m, k) ==> y in PointerMeaning.Put(n, k)
  {
  }

  /** The state when the deletions are done. */
  lemma Deleted(s: State, t: Tid, x: Slot, k: Rest, acts: seq<Action>) returns (fall: seq<BlockId>)
    requires Inv(s) && Completes(s, t, x, k, acts) && Survive(s, x, k)
    ensures var e := Exec(Next(s, Release(t, x, k)), acts);
            && Fallen(s, e, t, x, fall) && x !in e.handles && e.pcs[t].rest == k && (HasSource(k) ==> k.src !in e.stale)
  {
    var e := Next(s, Release(t, x, k));
    SurviveSafe(s, t, x, k, acts);
    fall := FallenStart(s, t, x, k);
    ReleaseStep(s, t, x, k);
    fall := FallenRun(s, e, t, x, fall, acts);
    var f := Exec(e, acts);
    assert PcOk(f.handles, f.pcs[t]);
    SafeExactly(f, Finish(t));
    PointerMeaning.SourceFound(f, t);
  }

  lemma FinishPuts(e: State, t: Tid)
    requires Enabled(e, Finish(t)) && (HasSource(e.pcs[t].rest) ==> e.pcs[t].rest.src !in e.stale)
    ensures Next(e, Finish(t)).handles == PointerMeaning.Put(e.handles, e.pcs[t].rest)
  {
    PointerMeaning.FinishMeans(e, t);
    assert PointerMeaning.View(Next(e, Finish(t))).held ==
           PointerMeaning.Onward(PointerMeaning.View(e), Finish(t)).held;
  }

  /** After any safe run: once an undisturbed assignment or reset is done, the handles are those from
      before with the target emptied and then, for an assignment, given what the source held, which a
      move empties. Only handles in objects that go with the old reference are gone besides. */
  lemma AssignmentMeans(before: seq<Action>, t: Tid, x: Slot, k: Rest, acts: seq<Action>)
    requires CanRun(Empty, before) && NoneInside(Empty, before) && Completes(Exec(Empty, before), t, x, k, acts)
    requires Survive(Exec(Empty, before), x, k)
    ensures var s := Exec(Empty, before);
            var f := Next(Exec(Next(s, Release(t, x, k)), acts), Finish(t));
            var meant := PointerMeaning.Put(s.handles - {x}, k);
            && (forall y | !GoesWith(s, x, y) :: Agree(f.handles, meant, y))
            && (forall y <- f.handles :: y in meant)
  {
    EmptyInv();
    InvRun(Empty, before);
    var s := Exec(Empty, before);
    var fall := Deleted(s, t, x, k, acts);
    var e := Exec(Next(s, Release(t, x, k)), acts);
    var f := Next(e, Finish(t));
    FinishPuts(e, t);
    if HasSource(k) {
      OnlyFallen(s, e, t, x, fall, k.src);
    }
    forall y ensures !GoesWith(s, x, y) ==> Agree(f.handles, PointerMeaning.Put(s.handles - {x}, k), y)
             ensures y in f.handles ==> y in PointerMeaning.Put(s.handles - {x}, k) {
      OnlyFallen(s, e, t, x, fall, y);
      PutAgrees(e.handles, s.handles - {x}, k, y);
    }
  }
}
