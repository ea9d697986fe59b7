/** `ThreadPool` over `BlockingQueue`, as an interleaving state machine: workers pop tasks from
  one locked queue, sleep on its condition variable, and leave when they find it cancelled and
  empty. Tasks may post further tasks.
 */
module ThreadPool {

  type Task = nat
  type Tid = nat

  /** `Working(k)`: the worker runs the k-th task taken from the queue. */
  datatype Worker = Wanting | Asleep | Notified | Working(k: nat) | Exited

  /** `posted` and `taken` are history in lock order; `finished` holds the positions in `taken`
      of the tasks that have returned. */
  datatype State = State(
    queue: seq<Task>,
    cancelled: bool,
    workers: map<Tid, Worker>,
    posted: seq<Task>,
    taken: seq<Task>,
    finished: set<nat>)

  datatype Option = None | Some(w: Tid)

  datatype Action =
    | Post(task: Task, wake: Option)                 // from outside; notify_one picks `wake`
    | TaskPost(w: Tid, task: Task, wake: Option)     // from the task worker `w` is running
    | Cancel                                         // the destructor begins
    | Pop(w: Tid)                                    // the mutex section of Pop
    | Finish(w: Tid)                                 // the task returns
    | Wakeup(w: Tid)                                 // a spurious wakeup

  function Started(ids: set<Tid>): State {
    State([], false, map w | w in ids :: Wanting, [], [], {})
  }

  function Sleepers(ws: map<Tid, Worker>): set<Tid> {
    set w | w in ws && ws[w].Asleep?
  }

  function Woken(ws: map<Tid, Worker>): set<Tid> {
    set w | w in ws && ws[w].Notified?
  }

  predicate AllExited(s: State) {
    forall w <- s.workers :: s.workers[w].Exited?
  }

  /** `notify_one` wakes a sleeper if there is one. */
  predicate Notifies(s: State, wake: Option) {
    if wake.None? then Sleepers(s.workers) == {} else wake.w in Sleepers(s.workers)
  }

  /** Posting from outside after the destructor has begun is a use of a dying object. */
  predicate Enabled(s: State, a: Action) {
    match a
    case Post(_, wake) => !s.cancelled && Notifies(s, wake)
    case TaskPost(w, _, wake) => w in s.workers && s.workers[w].Working? && Notifies(s, wake)
    case Cancel => !s.cancelled
    case Pop(w) => w in s.workers && (s.workers[w].Wanting? || s.workers[w].Notified?)
    case Finish(w) => w in s.workers && s.workers[w].Working?
    case Wakeup(w) => w in s.workers && s.workers[w].Asleep?
  }

  function Pushed(s: State, task: Task, wake: Option): State {
    s.(queue := s.queue + [task], posted := s.posted + [task],
       workers := if wake.None? then s.workers else s.workers[wake.w := Notified])
  }

  function Next(s: State, a: Action): State
    requires Enabled(s, a)
  {
    match a
    case Post(task, wake) => Pushed(s, task, wake)
    case TaskPost(_, task, wake) => Pushed(s, task, wake)
    case Cancel =>
      s.(cancelled := true,
         workers := map w | w in s.workers :: if s.workers[w].Asleep? then Notified else s.workers[w])
    case Pop(w) =>
      if s.queue != [] then
        s.(queue := s.queue[1..], taken := s.taken + [s.queue[0]], workers := s.workers[w := Working(|s.taken|)])
      else s.(workers := s.workers[w := if s.cancelled then Exited else Asleep])
    case Finish(w) => s.(workers := s.workers[w := Wanting], finished := s.finished + {s.workers[w].k})
    case Wakeup(w) => s.(workers := s.workers[w := Notified])
  }

  predicate CanRun(s: State, acts: seq<Action>)
    decreases |acts|
  {
    acts == [] || (Enabled(s, acts[0]) && CanRun(Next(s, acts[0]), acts[1..]))
  }

  function Exec(s: State, acts: seq<Action>): State
    requires CanRun(s, acts)
    decreases |acts|
  {
    if acts == [] then s else Exec(Next(s, acts[0]), acts[1..])
  }

  // ---- the inductive invariant --------------------------------------------------------

  predicate QueueOk(s: State) {
    s.taken + s.queue == s.posted
  }

  predicate ShutdownOk(s: State) {
    && (s.cancelled ==> Sleepers(s.workers) == {})
    && (forall w <- s.workers | s.workers[w].Exited? :: s.cancelled)
    && (s.workers != map[] && AllExited(s) ==> s.queue == [])
  }

  /** While anyone sleeps there is a woken worker for every queued task. */
  predicate NotifyOk(s: State) {
    Sleepers(s.workers) != {} ==> |s.queue| <= |Woken(s.workers)|
  }

  /** Every task taken has returned or is being run. */
  predicate NoneDropped(s: State) {
    forall i | 0 <= i < |s.taken| && i !in s.finished :: exists w <- s.workers :: s.workers[w] == Working(i)
  }

  /** A task being run has not returned before, and one worker runs it. */
  predicate NoneTwice(s: State) {
    && (forall w <- s.workers | s.workers[w].Working? :: s.workers[w].k < |s.taken| && s.workers[w].k !in s.finished)
    && (forall v, w | v in s.workers && w in s.workers && v != w && s.workers[v].Working? && s.workers[w].Working? ::
          s.workers[v].k != s.workers[w].k)
    && (forall i <- s.finished :: i < |s.taken|)
  }

  lemma QueueStep(s: State, a: Action)
    requires QueueOk(s) && Enabled(s, a)
    ensures QueueOk(Next(s, a))
  {
    var s' := Next(s, a);
    match a
    case Post(task, _) => assert s'.taken + s'.queue == s.taken + s.queue + [task];
    case TaskPost(_, task, _) => assert s'.taken + s'.queue == s.taken + s.queue + [task];
    case Pop(_) => assert s'.taken + s'.queue == s.taken + s.queue;
    case _ =>
  }

  lemma ShutdownStep(s: State, a: Action)
    requires ShutdownOk(s) && Enabled(s, a)
    ensures ShutdownOk(Next(s, a))
  {
    var s' := Next(s, a);
    match a
    case Post(_, _) =>
      if s.workers != map[] {
        var w :| w in s.workers;
        assert w in s'.workers && !s'.workers[w].Exited?;
      }
    case TaskPost(w, _, wake) =>
      assert wake.Some? ==> wake.w != w;
      assert w in s'.workers && !s'.workers[w].Exited?;
    case Cancel => assert s'.workers.Keys == s.workers.Keys;
    case Pop(w) => assert s.queue != [] ==> w in s'.workers && !s'.workers[w].Exited?;
    case Finish(w) => assert w in s'.workers && !s'.workers[w].Exited?;
    case Wakeup(w) => assert w in s'.workers && !s'.workers[w].Exited?;
  }

  /** A worker moves: the set of sleepers and the set of woken workers follow. */
  lemma Moves(ws: map<Tid, Worker>, w: Tid, x: Worker)
    requires w in ws
    ensures Sleepers(ws[w := x]) == Sleepers(ws) - {w} + (if x.Asleep? then {w} else {})
    ensures Woken(ws[w := x]) == Woken(ws) - {w} + (if x.Notified? then {w} else {})
  {
  }

  lemma NotifyStep(s: State, a: Action)
    requires NotifyOk(s) && Enabled(s, a)
    ensures NotifyOk(Next(s, a))
  {
    var s' := Next(s, a);
    match a
    case Post(task, wake) => PushNotifies(s, task, wake);
    case TaskPost(_, task, wake) => PushNotifies(s, task, wake);
    case Cancel => assert Sleepers(s'.workers) == {};
    case Pop(w) => Moves(s.workers, w, s'.workers[w]);
    case Finish(w) => Moves(s.workers, w, Wanting);
    case Wakeup(w) => Moves(s.workers, w, Notified);
  }

  lemma PushNotifies(s: State, task: Task, wake: Option)
    requires NotifyOk(s) && Notifies(s, wake)
    ensures NotifyOk(Pushed(s, task, wake))
  {
    if wake.Some? {
      Moves(s.workers, wake.w, Notified);
    }
  }

  lemma NoneDroppedStep(s: State, a: Action)
    requires NoneDropped(s) && Enabled(s, a)
    ensures NoneDropped(Next(s, a))
  {
    var s' := Next(s, a);
    forall i | 0 <= i < |s'.taken| && i !in s'.finished
      ensures exists w <- s'.workers :: s'.workers[w] == Working(i)
    {
      if i < |s.taken| {
        var w :| w in s.workers && s.workers[w] == Working(i);
        assert s'.workers[w] == Working(i);
      } else {
        assert a.Pop? && s'.workers[a.w] == Working(i);
      }
    }
  }

  lemma NoneTwiceStep(s: State, a: Action)
    requires NoneTwice(s) && Enabled(s, a)
    ensures NoneTwice(Next(s, a))
  {
    var s' := Next(s, a);
    if a.Cancel? {
      assert forall w <- s'.workers | s'.workers[w].Working? :: s'.workers[w] == s.workers[w];
    } else if a.Pop? || a.Finish? || a.Wakeup? {
      assert forall w <- s'.workers | w != a.w :: s'.workers[w] == s.workers[w];
    } else {
      assert forall w <- s'.workers | s'.workers[w].Working? :: s'.workers[w] == s.workers[w];
    }
  }

  predicate Inv(s: State) {
    QueueOk(s) && ShutdownOk(s) && NotifyOk(s) && NoneDropped(s) && NoneTwice(s)
  }

  lemma InvStep(s: State, a: Action)
    requires Inv(s) && Enabled(s, a)
    ensures Inv(Next(s, a)) && Next(s, a).workers.Keys == s.workers.Keys
  {
    QueueStep(s, a);
    ShutdownStep(s, a);
    NotifyStep(s, a);
    NoneDroppedStep(s, a);
    NoneTwiceStep(s, a);
  }

  lemma {:induction false} InvRun(s: State, acts: seq<Action>)
    requires Inv(s) && CanRun(s, acts)
    ensures Inv(Exec(s, acts)) && Exec(s, acts).workers.Keys == s.workers.Keys
    decreases |acts|
  {
    if acts != [] {
      InvStep(s, acts[0]);
      InvRun(Next(s, acts[0]), acts[1..]);
    }
  }

  lemma StartedInv(ids: set<Tid>)
    ensures Inv(Started(ids)) && (Started(ids).workers == map[] <==> ids == {})
  {
    if ids != {} {
      var w :| w in ids;
      assert w in Started(ids).workers && !Started(ids).workers[w].Exited?;
    }
    assert Sleepers(Started(ids).workers) == {};
  }

  // ---- what was posted ------------------------------------------------------------------

  predicate Posts(a: Action) {
    a.Post? || a.TaskPost?
  }

  /** The tasks of the posts of a run, from outside and from tasks, in lock order. */
  function Tasks(acts: seq<Action>): seq<Task> {
    if acts == [] then [] else (if Posts(acts[0]) then [acts[0].task] else []) + Tasks(acts[1..])
  }

  lemma {:induction false} HistoryRun(s: State, acts: seq<Action>)
    requires CanRun(s, acts)
    ensures Exec(s, acts).posted == s.posted + Tasks(acts)
    ensures Exec(s, acts).cancelled <==> s.cancelled || Cancel in acts
    decreases |acts|
  {
    if acts == [] {
      assert s.posted + [] == s.posted;
    } else {
      var s' := Next(s, acts[0]);
      HistoryRun(s', acts[1..]);
      var first := if Posts(acts[0]) then [acts[0].task] else [];
      assert s'.posted == s.posted + first;
      assert s.posted + first + Tasks(acts[1..]) == s.posted + (first + Tasks(acts[1..]));
      assert acts == [acts[0]] + acts[1..];
    }
  }

  lemma StartedRun(ids: set<Tid>, acts: seq<Action>)
    requires CanRun(Started(ids), acts)
    ensures var e := Exec(Started(ids), acts);
            && Inv(e) && e.workers.Keys == ids && e.posted == Tasks(acts) && (e.cancelled <==> Cancel in acts)
  {
    StartedInv(ids);
    InvRun(Started(ids), acts);
    HistoryRun(Started(ids), acts);
    assert [] + Tasks(acts) == Tasks(acts);
  }

  // ---- main results ---------------------------------------------------------------------

  /** Once the last worker has left, every task has been taken from the queue, in order, and has
      returned. */
  predicate Drained(s: State, tasks: seq<Task>) {
    AllExited(s) ==> s.taken == tasks && (forall i | 0 <= i < |tasks| :: i in s.finished)
  }

  /** Draining on shutdown: in every interleaving, once the last worker has left, every task
      posted before Cancel or by a running task has run to its end, each once and begun in
      posting order. This holds exactly for pools that have a worker. */
  lemma ShutdownDrains(ids: set<Tid>)
    ensures (forall acts | CanRun(Started(ids), acts) :: Drained(Exec(Started(ids), acts), Tasks(acts))) <==> ids != {}
  {
    var s := Started(ids);
    if ids != {} {
      forall acts | CanRun(s, acts) ensures Drained(Exec(s, acts), Tasks(acts)) {
        StartedRun(ids, acts);
        var e := Exec(s, acts);
        assert e.taken + [] == e.taken;
      }
    } else {
      var acts := [Post(0, None)];
      assert acts[1..] == [] && CanRun(Next(s, acts[0]), []);
      assert CanRun(Started(ids), acts) && Exec(Started(ids), acts) == Next(s, acts[0]);
      assert Tasks(acts) == [0] + Tasks([]);
      assert !Drained(Exec(Started(ids), acts), Tasks(acts));
      assert exists acts :: CanRun(Started(ids), acts) && !Drained(Exec(Started(ids), acts), Tasks(acts));
    }
  }

  /** No task is stranded: in every interleaving, while a task has not been taken some worker of a
      non-empty pool is awake and on its way back to the queue. */
  lemma QueuedTaskHasWorker(ids: set<Tid>, acts: seq<Action>)
    requires ids != {} && CanRun(Started(ids), acts) && Exec(Started(ids), acts).taken != Tasks(acts)
    ensures var s := Exec(Started(ids), acts);
            exists w <- s.workers :: !s.workers[w].Asleep? && !s.workers[w].Exited?
  {
    StartedRun(ids, acts);
    var s := Exec(Started(ids), acts);
    assert s.taken + [] == s.taken;
    if Sleepers(s.workers) != {} {
      assert |Woken(s.workers)| > 0;
      var w :| w in Woken(s.workers);
    } else if forall w <- s.workers :: s.workers[w].Asleep? || s.workers[w].Exited? {
      assert forall w <- s.workers :: w !in Sleepers(s.workers);
      assert AllExited(s);
    }
  }

  /** `join` cannot hang on a sleeper: after Cancel every worker that has not left has a step of its
      own to take. If it is at the queue, it takes the next task in posting order, and if none is
      left, it leaves. */
  lemma CancelUnblocksAll(ids: set<Tid>, acts: seq<Action>, w: Tid)
    requires CanRun(Started(ids), acts) && Cancel in acts
    requires w in Exec(Started(ids), acts).workers && !Exec(Started(ids), acts).workers[w].Exited?
    ensures var s := Exec(Started(ids), acts);
            if s.workers[w].Working? then Enabled(s, Finish(w))
            else && Enabled(s, Pop(w))
                 && var e := Next(s, Pop(w));
                    if s.taken == Tasks(acts) then e.workers[w].Exited?
                    else |s.taken| < |Tasks(acts)| && e.taken == s.taken + [Tasks(acts)[|s.taken|]]
                         && e.workers[w] == Working(|s.taken|)
  {
    StartedRun(ids, acts);
    var s := Exec(Started(ids), acts);
    assert w !in Sleepers(s.workers);
    assert s.taken + [] == s.taken;
  }
}
