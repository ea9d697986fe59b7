/** The cross-thread functor hand-off of the reactor loop, as an interleaving state machine.

  The loop thread alternates between polling, handling events and running a batch of
  functors. Any number of other threads queue functors: each push happens under the mutex
  and is followed, as a separate step, by a write to the eventfd. One step is one mutex
  section, one eventfd operation or one access to a shared flag.
 */
module EventLoop {

  type Functor = nat
  type Tid = nat

  /** Where the loop thread is. `Starting`: `loop()` has not yet cleared `quit_`, although other
      threads may know the loop already. `Handling(ready)`: the handlers of one poll are running and
      `ready` says that the wakeup channel's handler is still to run. `Running(rest, inside)`:
      `rest` is what is left of the swapped batch, `inside` that some functor has begun. */
  datatype Pc =
    | Starting
    | CheckQuit
    | Polling
    | Handling(ready: bool)
    | Swapping
    | Running(rest: seq<Functor>, inside: bool)
    | Stopped

  /** `pushers` and `quitters` are the threads between their push (or their store to `quit`)
      and their eventfd write; `owesWake` is the same for the loop thread itself. `asked`,
      `queued`, `executed` and `mark` are history: whether `quit()` has been called, every functor
      queued, in lock order, every functor begun, and how many had been queued when the current
      batch was taken. */
  datatype State = State(
    pc: Pc,
    pending: seq<Functor>,
    calling: bool,
    quit: bool,
    wakeups: nat,
    pushers: set<Tid>,
    quitters: set<Tid>,
    owesWake: bool,
    asked: bool,
    queued: seq<Functor>,
    executed: seq<Functor>,
    mark: nat)

  datatype Action =
    | Push(t: Tid, f: Functor)     // queueInLoop on another thread, mutex section
    | Wake(t: Tid)                 // wakeup() on another thread
    | Quit(t: Tid)                 // quit() on another thread, store
    | OwnPush(f: Functor)          // queueInLoop on the loop thread, mutex section
    | OwnWake                      // wakeup() on the loop thread
    | OwnQuit                      // quit() on the loop thread
    | ClearQuit                    // loop(): quit_ = false
    | TestQuit                     // while (!quit_)
    | PollReturn(ready: bool)      // epoll_wait returns, by an event or by its timeout
    | HandleRead                   // the wakeup channel's handler reads the eventfd
    | EndHandling                  // callingPendingFunctors_ = true
    | Swap                         // functors.swap(pendingFunctors_)
    | RunNext                      // the next functor of the batch begins
    | EndBatch                     // callingPendingFunctors_ = false

  const Initial := State(Starting, [], false, false, 0, {}, {}, false, false, [], [], 0)

  /** The loop thread is inside user code: before `loop()`, in an event handler or in a functor. */
  predicate InUserCode(s: State) {
    s.pc.Starting? || s.pc.Handling? || (s.pc.Running? && s.pc.inside)
  }

  predicate Enabled(s: State, a: Action) {
    match a
    case Push(t, _) => t !in s.pushers && t !in s.quitters
    case Wake(t) => t in s.pushers || t in s.quitters
    case Quit(t) => t !in s.pushers && t !in s.quitters
    case OwnPush(_) => InUserCode(s) && !s.owesWake
    case OwnWake => s.owesWake
    case OwnQuit => InUserCode(s) && !s.owesWake
    case ClearQuit => s.pc.Starting?
    case TestQuit => s.pc.CheckQuit?
    case PollReturn(ready) => s.pc.Polling? && (ready ==> s.wakeups > 0)
    case HandleRead => s.pc == Handling(true) && !s.owesWake
    case EndHandling => s.pc == Handling(false) && !s.owesWake
    case Swap => s.pc.Swapping?
    case RunNext => s.pc.Running? && s.pc.rest != [] && !s.owesWake
    case EndBatch => s.pc.Running? && s.pc.rest == [] && !s.owesWake
  }

  function Next(s: State, a: Action): State
    requires Enabled(s, a)
  {
    match a
    case Push(t, f) => s.(pending := s.pending + [f], queued := s.queued + [f], pushers := s.pushers + {t})
    case Wake(t) => s.(wakeups := s.wakeups + 1, pushers := s.pushers - {t}, quitters := s.quitters - {t})
    case Quit(t) => s.(quit := true, asked := true, quitters := s.quitters + {t})
    case OwnPush(f) => s.(pending := s.pending + [f], queued := s.queued + [f], owesWake := s.calling)
    case OwnWake => s.(wakeups := s.wakeups + 1, owesWake := false)
    case OwnQuit => s.(quit := true, asked := true)
    case ClearQuit => s.(pc := CheckQuit, quit := false)
    case TestQuit => s.(pc := if s.quit then Stopped else Polling)
    case PollReturn(ready) => s.(pc := Handling(ready))
    case HandleRead => s.(pc := Handling(false), wakeups := 0)
    case EndHandling => s.(pc := Swapping, calling := true)
    case Swap => s.(pc := Running(s.pending, false), pending := [], mark := |s.queued|)
    case RunNext => s.(pc := Running(s.pc.rest[1..], true), executed := s.executed + [s.pc.rest[0]])
    case EndBatch => s.(pc := CheckQuit, calling := false)
  }

  /** `acts` is an interleaving the program allows from `s`. */
  predicate CanRun(s: State, acts: seq<Action>)
    decreases |acts|
  {
    acts == [] || (Enabled(s, acts[0]) && CanRun(Next(s, acts[0]), acts[1..]))
  }

  function Exec(s: State, acts: seq<Action>): State
    requires CanRun(s, acts)
    decreases |acts|
  {
    if acts == [] then s else Exec(Next(s, acts[0]), acts[1..])
  }

  // ---- what is promised -------------------------------------------------------------

  /** Somebody has written, or is about to write, the eventfd. */
  predicate WakeupDue(s: State) {
    s.wakeups > 0 || s.pushers != {} || s.owesWake
  }

  /** The loop never blocks in epoll_wait on a functor that nobody will wake it for. */
  predicate NoLostWakeup(s: State) {
    s.pc.Polling? && s.pending != [] ==> s.wakeups > 0 || s.pushers != {}
  }

  /** Nor after a `quit()` unless somebody will wake it. */
  predicate NoLostQuit(s: State) {
    s.pc.Polling? && s.asked ==> s.wakeups > 0 || s.quitters != {}
  }

  function Batch(s: State): seq<Functor> {
    if s.pc.Running? then s.pc.rest else []
  }

  /** Queued functors are executed once each, in the order of the lock. */
  predicate ExactlyOnceInOrder(s: State) {
    s.executed + Batch(s) + s.pending == s.queued
  }

  /** One trip round the loop executes what its swap took, no more and no less. */
  predicate BatchIsTheSwap(s: State) {
    |s.executed| + |Batch(s)| == s.mark
  }

  // ---- the inductive invariant --------------------------------------------------------

  /** No swap comes before the next poll, so pending functors need a wakeup. */
  predicate PastTheSwap(pc: Pc) {
    pc.CheckQuit? || pc.Polling? || pc.Running?
  }

  predicate FlagInv(s: State) {
    && (s.calling <==> s.pc.Swapping? || s.pc.Running?)
    && (s.owesWake ==> s.pc.Running?)
  }

  /** Every call of `quit()` still stands in `quit_`. */
  predicate QuitInv(s: State) {
    !s.pc.Starting? && (s.asked ==> s.quit) && NoLostQuit(s)
  }

  predicate WakeInv(s: State) {
    && FlagInv(s) && !s.pc.Starting?
    && (PastTheSwap(s.pc) && s.pending != [] ==> WakeupDue(s))
  }

  predicate QueueInv(s: State) {
    ExactlyOnceInOrder(s) && BatchIsTheSwap(s)
  }

  lemma FlagInvStep(s: State, a: Action)
    requires FlagInv(s) && Enabled(s, a)
    ensures FlagInv(Next(s, a))
  {
  }

  lemma QuitInvStep(s: State, a: Action)
    requires QuitInv(s) && Enabled(s, a)
    ensures QuitInv(Next(s, a))
  {
    if a.Quit? {
      assert a.t in Next(s, a).quitters;
    }
  }

  lemma WakeInvStep(s: State, a: Action)
    requires WakeInv(s) && Enabled(s, a)
    ensures WakeInv(Next(s, a))
  {
    FlagInvStep(s, a);
    if a.Push? {
      assert a.t in Next(s, a).pushers;
    }
  }

  lemma QueueInvStep(s: State, a: Action)
    requires QueueInv(s) && Enabled(s, a)
    ensures QueueInv(Next(s, a))
  {
    var s' := Next(s, a);
    match a
    case Push(_, f) => assert s'.executed + Batch(s') + s'.pending == s.executed + Batch(s) + s.pending + [f];
    case OwnPush(f) => assert s'.executed + Batch(s') + s'.pending == s.executed + Batch(s) + s.pending + [f];
    case Swap => assert s'.executed + Batch(s') + s'.pending == s.executed + Batch(s) + s.pending;
    case RunNext => assert s'.executed + Batch(s') + s'.pending == s.executed + Batch(s) + s.pending;
    case _ =>
  }

  lemma {:induction false} StateInvRun(s: State, acts: seq<Action>)
    requires FlagInv(s) && QueueInv(s) && CanRun(s, acts)
    ensures FlagInv(Exec(s, acts)) && QueueInv(Exec(s, acts))
    decreases |acts|
  {
    if acts != [] {
      FlagInvStep(s, acts[0]);
      QueueInvStep(s, acts[0]);
      StateInvRun(Next(s, acts[0]), acts[1..]);
    }
  }

  lemma {:induction false} QuitInvRun(s: State, acts: seq<Action>)
    requires QuitInv(s) && CanRun(s, acts)
    ensures QuitInv(Exec(s, acts))
    decreases |acts|
  {
    if acts != [] {
      QuitInvStep(s, acts[0]);
      QuitInvRun(Next(s, acts[0]), acts[1..]);
    }
  }

  lemma {:induction false} WakeInvRun(s: State, acts: seq<Action>)
    requires WakeInv(s) && CanRun(s, acts)
    ensures WakeInv(Exec(s, acts))
    decreases |acts|
  {
    if acts != [] {
      WakeInvStep(s, acts[0]);
      WakeInvRun(Next(s, acts[0]), acts[1..]);
    }
  }

  // ---- before the loop runs -------------------------------------------------------------

  /** A run up to the store `quit_ = false`: anybody may queue, wake and quit. */
  predicate Prelude(acts: seq<Action>) {
    CanRun(Initial, acts) && ClearQuit !in acts
  }

  /** The state in which the loop begins to run after such a run. */
  function Begun(acts: seq<Action>): State
    requires Prelude(acts)
  {
    StartingRun(Initial, acts);
    Next(Exec(Initial, acts), ClearQuit)
  }

  predicate Announces(a: Action) {
    a.Push? || a.Wake?
  }

  predicate Stops(a: Action) {
    a.Quit? || a.OwnQuit?
  }

  predicate Queues(a: Action) {
    a.Push? || a.OwnPush?
  }

  predicate Due(s: State) {
    s.wakeups > 0 || s.pushers != {}
  }

  /** What a prelude leaves behind. */
  lemma {:induction false} StartingRun(s: State, acts: seq<Action>)
    requires s.pc.Starting? && FlagInv(s) && CanRun(s, acts) && ClearQuit !in acts
    ensures var e := Exec(s, acts);
            && e.pc.Starting? && FlagInv(e)
            && (e.pending != [] <==> s.pending != [] || exists a <- acts :: Queues(a))
            && (Due(e) <==> Due(s) || exists a <- acts :: Announces(a))
            && (e.asked <==> s.asked || exists a <- acts :: Stops(a))
    decreases |acts|
  {
    if acts != [] {
      var a := acts[0];
      assert acts == [a] + acts[1..];
      StartingStep(s, a);
      StartingRun(Next(s, a), acts[1..]);
    }
  }

  lemma StartingStep(s: State, a: Action)
    requires s.pc.Starting? && FlagInv(s) && Enabled(s, a) && !a.ClearQuit?
    ensures var e := Next(s, a);
            && e.pc.Starting? && FlagInv(e)
            && (e.pending != [] <==> s.pending != [] || Queues(a))
            && (Due(e) <==> Due(s) || Announces(a))
            && (e.asked <==> s.asked || Stops(a))
  {
    if a.Push? {
      assert a.t in Next(s, a).pushers;
    }
  }
  // ---- the loop makes progress on its own ------------------------------------------------

  /** The loop thread's steps from a poll that sees the eventfd to the next poll, when the
      functors queue nothing themselves. */
  function Trip(n: nat): seq<Action> {
    [PollReturn(true), HandleRead, EndHandling, Swap] + Drain(n)
  }

  function Drain(n: nat): seq<Action> {
    if n == 0 then [EndBatch] else [RunNext] + Drain(n - 1)
  }

  lemma {:induction false} DrainRuns(s: State)
    requires s.pc.Running? && !s.owesWake
    ensures CanRun(s, Drain(|s.pc.rest|))
    ensures Exec(s, Drain(|s.pc.rest|)) == s.(pc := CheckQuit, calling := false, executed := s.executed + s.pc.rest)
    decreases |s.pc.rest|
  {
    if s.pc.rest == [] {
      assert s.executed + s.pc.rest == s.executed;
      assert Drain(0)[1..] == [];
    } else {
      var s' := Next(s, RunNext);
      DrainRuns(s');
      assert s'.executed + s'.pc.rest == s.executed + s.pc.rest;
      assert Drain(|s.pc.rest|)[1..] == Drain(|s'.pc.rest|);
    }
  }

  lemma CanRunHead(s: State, a: Action, rest: seq<Action>)
    requires Enabled(s, a) && CanRun(Next(s, a), rest)
    ensures CanRun(s, [a] + rest)
    ensures Exec(s, [a] + rest) == Exec(Next(s, a), rest)
  {
    assert ([a] + rest)[1..] == rest;
  }

  lemma TripRuns(s: State)
    requires s.pc.Polling? && s.wakeups > 0 && !s.owesWake
    ensures CanRun(s, Trip(|s.pending|))
    ensures Exec(s, Trip(|s.pending|)) ==
            s.(pc := CheckQuit, calling := false, wakeups := 0, pending := [],
               executed := s.executed + s.pending, mark := |s.queued|)
  {
    var s1 := Next(s, PollReturn(true));
    var s2 := Next(s1, HandleRead);
    var s3 := Next(s2, EndHandling);
    var s4 := Next(s3, Swap);
    var d := Drain(|s.pending|);
    DrainRuns(s4);
    CanRunHead(s3, Swap, d);
    CanRunHead(s2, EndHandling, [Swap] + d);
    CanRunHead(s1, HandleRead, [EndHandling] + ([Swap] + d));
    CanRunHead(s, PollReturn(true), [HandleRead] + ([EndHandling] + ([Swap] + d)));
    assert Trip(|s.pending|) == [PollReturn(true)] + ([HandleRead] + ([EndHandling] + ([Swap] + d)));
  }

  lemma {:induction false} RunConcat(s: State, a: seq<Action>, b: seq<Action>)
    requires CanRun(s, a) && CanRun(Exec(s, a), b)
    ensures CanRun(s, a + b) && Exec(s, a + b) == Exec(Exec(s, a), b)
    decreases |a|
  {
    if a == [] {
      assert a + b == b;
    } else {
      assert (a + b)[1..] == a[1..] + b;
      RunConcat(Next(s, a[0]), a[1..], b);
    }
  }

  lemma RunOne(s: State, a: Action)
    requires Enabled(s, a)
    ensures CanRun(s, [a]) && Exec(s, [a]) == Next(s, a)
  {
    assert CanRun(Next(s, a), []);
    assert [a][1..] == [];
  }

  /** Every thread inside `quit()` comes to its eventfd write. */
  lemma {:induction false} QuittersWake(s: State) returns (acts: seq<Action>)
    ensures CanRun(s, acts)
    ensures var e := Exec(s, acts);
            && e.quitters == {} && e.wakeups >= s.wakeups
            && e == s.(wakeups := e.wakeups, quitters := {}, pushers := e.pushers)
    decreases |s.quitters|
  {
    if s.quitters == {} {
      acts := [];
    } else {
      var t :| t in s.quitters;
      var rest := QuittersWake(Next(s, Wake(t)));
      CanRunHead(s, Wake(t), rest);
      acts := [Wake(t)] + rest;
    }
  }

  // ---- main results ---------------------------------------------------------------------

  /** The loop thread queued nothing before `loop()`, or another thread wrote the eventfd or was
      about to. */
  predicate Announced(before: seq<Action>) {
    (exists a <- before :: a.OwnPush?) ==> exists a <- before :: Announces(a)
  }

  /** No wakeup is lost in any continuation, exactly when the functors that the loop thread
      queued before `loop()` were announced by somebody else. `queueInLoop` on the loop's own
      thread before `loop()` does not announce them: such a functor waits for the poll's
      timeout. */
  lemma NoLostWakeupExactly(before: seq<Action>)
    requires Prelude(before)
    ensures (forall acts | CanRun(Begun(before), acts) :: NoLostWakeup(Exec(Begun(before), acts)))
            <==> Announced(before)
  {
    var s := Begun(before);
    StartingRun(Initial, before);
    if Announced(before) {
      forall acts | CanRun(s, acts) ensures NoLostWakeup(Exec(s, acts)) {
        WakeInvRun(s, acts);
      }
    } else {
      RunOne(s, TestQuit);
      assert !NoLostWakeup(Exec(Begun(before), [TestQuit]));
    }
  }

  /** The run up to a poll in which nobody wakes the loop although `quit()` was called. */
  lemma QuitForgotten(s: State) returns (acts: seq<Action>)
    requires s.pc.CheckQuit? && s.asked && !s.quit && FlagInv(s)
    ensures CanRun(s, acts) && !NoLostQuit(Exec(s, acts))
  {
    acts := QuittersWake(s);
    var s1 := Exec(s, acts);
    RunOne(s1, TestQuit);
    RunConcat(s, acts, [TestQuit]);
    acts := acts + [TestQuit];
    var s2 := Exec(s, acts);
    if s2.wakeups > 0 {
      TripRuns(s2);
      var trip := Trip(|s2.pending|);
      RunOne(Exec(s2, trip), TestQuit);
      RunConcat(s2, trip, [TestQuit]);
      RunConcat(s, acts, trip + [TestQuit]);
      acts := acts + (trip + [TestQuit]);
    }
  }

  lemma {:induction false} QuitRun(s: State, acts: seq<Action>)
    requires CanRun(s, acts) && !s.pc.Starting? && (s.pc.Stopped? ==> s.quit)
    ensures var e := Exec(s, acts);
            && !e.pc.Starting? && (e.pc.Stopped? ==> e.quit)
            && (e.quit <==> s.quit || exists a <- acts :: Stops(a))
            && (e.asked <==> s.asked || exists a <- acts :: Stops(a))
    decreases |acts|
  {
    if acts != [] {
      var a := acts[0];
      assert acts == [a] + acts[1..];
      assert (Next(s, a).quit <==> s.quit || Stops(a)) && (Next(s, a).asked <==> s.asked || Stops(a));
      QuitRun(Next(s, a), acts[1..]);
    }
  }

  /** At poll after a `quit()`, there is a wakeup to read or somebody about to write one. */
  predicate QuitHeard(before: seq<Action>, acts: seq<Action>)
    requires Prelude(before) && CanRun(Begun(before), acts)
  {
    var s := Exec(Begun(before), acts);
    s.pc.Polling? && (exists a <- before + acts :: Stops(a)) ==> s.wakeups > 0 || s.quitters != {}
  }

  lemma HeardIsNoLost(before: seq<Action>, acts: seq<Action>)
    requires Prelude(before) && CanRun(Begun(before), acts)
    ensures QuitHeard(before, acts) <==> NoLostQuit(Exec(Begun(before), acts))
  {
    StartingRun(Initial, before);
    QuitRun(Begun(before), acts);
    assert (exists a <- before + acts :: Stops(a)) <==>
           (exists a <- before :: Stops(a)) || exists a <- acts :: Stops(a);
  }

  /** A `quit()` is never lost, whatever happens afterwards, exactly when none came before `loop()`
      cleared the flag. One that did is erased, and the loop polls on. */
  lemma NoLostQuitExactly(before: seq<Action>)
    requires Prelude(before)
    ensures (forall acts | CanRun(Begun(before), acts) :: QuitHeard(before, acts))
       <==> !exists a <- before :: Stops(a)
  {
    var s := Begun(before);
    StartingRun(Initial, before);
    if exists a <- before :: Stops(a) {
      var acts := QuitForgotten(s);
      HeardIsNoLost(before, acts);
    } else {
      forall acts | CanRun(s, acts) ensures QuitHeard(before, acts) {
        QuitInvRun(s, acts);
        HeardIsNoLost(before, acts);
      }
    }
  }

  /** After a prelude without `quit()`, the loop stops at its next test exactly if `quit()` has been
      called, and not otherwise. */
  lemma StopsExactly(before: seq<Action>, acts: seq<Action>)
    requires Prelude(before) && (forall a <- before :: !Stops(a)) && CanRun(Begun(before), acts)
    ensures var s := Exec(Begun(before), acts);
            && (s.pc.CheckQuit? ==> (Next(s, TestQuit).pc.Stopped? <==> exists a <- acts :: Stops(a)))
            && (s.pc.Stopped? ==> exists a <- acts :: Stops(a))
  {
    StartingRun(Initial, before);
    QuitRun(Begun(before), acts);
  }

  /** The shortest such run: another thread quits, its wakeup is read, and the loop polls again
      with nobody left to wake it. */
  lemma ErasedQuit()
    ensures var before, after := [Quit(1), Wake(1)], [TestQuit] + Trip(0) + [TestQuit];
            && Prelude(before) && CanRun(Begun(before), after)
            && var s := Exec(Begun(before), after);
               s.pc.Polling? && s.asked && !s.quit && s.wakeups == 0 && s.quitters == {} && s.pushers == {}
  {
    var s1 := Next(Initial, Quit(1));
    var s2 := Next(s1, Wake(1));
    RunOne(s1, Wake(1));
    CanRunHead(Initial, Quit(1), [Wake(1)]);
    assert [Quit(1)] + [Wake(1)] == [Quit(1), Wake(1)];
    var s := Begun([Quit(1), Wake(1)]);
    assert s == Next(s2, ClearQuit);
    RunOne(s, TestQuit);
    var p := Next(s, TestQuit);
    TripRuns(p);
    RunConcat(s, [TestQuit], Trip(0));
    RunOne(Exec(p, Trip(0)), TestQuit);
    RunConcat(s, [TestQuit] + Trip(0), [TestQuit]);
  }

  /** The functors that the calls of a run hand over, in the order of the lock. */
  function Functors(acts: seq<Action>): seq<Functor> {
    if acts == [] then [] else (if Queues(acts[0]) then [acts[0].f] else []) + Functors(acts[1..])
  }

  lemma {:induction false} QueuedRun(s: State, acts: seq<Action>)
    requires CanRun(s, acts)
    ensures Exec(s, acts).queued == s.queued + Functors(acts)
    decreases |acts|
  {
    if acts == [] {
      assert s.queued + [] == s.queued;
    } else {
      var s' := Next(s, acts[0]);
      QueuedRun(s', acts[1..]);
      var first := if Queues(acts[0]) then [acts[0].f] else [];
      assert s'.queued == s.queued + first;
      assert s.queued + first + Functors(acts[1..]) == s.queued + (first + Functors(acts[1..]));
    }
  }

  /** How many functors had been handed over when the last batch was taken. */
  function Taken(acts: seq<Action>): nat {
    if acts == [] then 0 else
      var before := acts[..|acts| - 1];
      if acts[|acts| - 1].Swap? then |Functors(before)| else Taken(before)
  }

  lemma {:induction false} RunLast(s: State, acts: seq<Action>)
    requires CanRun(s, acts) && acts != []
    ensures var n := |acts| - 1;
            && CanRun(s, acts[..n]) && Enabled(Exec(s, acts[..n]), acts[n])
            && Exec(s, acts) == Next(Exec(s, acts[..n]), acts[n])
    decreases |acts|
  {
    if |acts| > 1 {
      RunLast(Next(s, acts[0]), acts[1..]);
      assert acts[1..][..|acts| - 2] == acts[..|acts| - 1][1..];
    }
  }

  lemma {:induction false} TakenRun(acts: seq<Action>)
    requires CanRun(Initial, acts)
    ensures Exec(Initial, acts).mark == Taken(acts)
    decreases |acts|
  {
    if acts != [] {
      var before := acts[..|acts| - 1];
      RunLast(Initial, acts);
      TakenRun(before);
      QueuedRun(Initial, before);
    }
  }

  /** In every interleaving the functors executed, then the rest of the batch, then the pending
      list are the functors of all calls of `queueInLoop`, in lock order, whoever called; and a
      functor queued while a batch runs waits for the next batch. */
  lemma EveryFunctorOnceInOrder(acts: seq<Action>)
    requires CanRun(Initial, acts)
    ensures var s := Exec(Initial, acts); s.executed + Batch(s) + s.pending == Functors(acts)
    ensures var s := Exec(Initial, acts); |s.executed| + |Batch(s)| == Taken(acts)
  {
    StateInvRun(Initial, acts);
    QueuedRun(Initial, acts);
    TakenRun(acts);
    assert [] + Functors(acts) == Functors(acts);
  }

  /** From every reachable poll with a wakeup to read, one undisturbed trip executes every
      functor queued so far. With `NoLostWakeupExactly`: once the pushing threads have written
      the eventfd, the loop cannot sleep on work and clears it in one trip. */
  lemma OneTripExecutesAll(acts: seq<Action>)
    requires CanRun(Initial, acts)
    requires Exec(Initial, acts).pc.Polling? && Exec(Initial, acts).wakeups > 0
    ensures var s := Exec(Initial, acts);
            && CanRun(s, Trip(|s.pending|))
            && Exec(s, Trip(|s.pending|)).executed == Functors(acts)
            && Exec(s, Trip(|s.pending|)).pending == []
            && Exec(s, Trip(|s.pending|)).pc.CheckQuit?
  {
    var s := Exec(Initial, acts);
    StateInvRun(Initial, acts);
    TripRuns(s);
    AllAtPoll(acts);
  }

  lemma AllAtPoll(acts: seq<Action>)
    requires CanRun(Initial, acts) && Exec(Initial, acts).pc.Polling?
    ensures var s := Exec(Initial, acts); s.executed + s.pending == Functors(acts)
  {
    var s := Exec(Initial, acts);
    EveryFunctorOnceInOrder(acts);
    assert s.executed + Batch(s) == s.executed;
  }
}
