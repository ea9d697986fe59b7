/** `BlockingQueuePro`: a queue with one lock for producers and one for consumers, as an
  interleaving state machine. A consumer holds the consumer lock for the whole of `Pop` and,
  when its own queue is empty, waits under the producer lock and swaps the two queues.
 */
module SwapQueue {

  type Item = nat
  type Tid = nat

  /** Where the consumer that holds the consumer lock is. */
  datatype Stage =
    | Unlocked                // nobody is in Pop
    | Entered(t: Tid)         // the lock is held, the consumer queue not yet tested
    | Swapping(t: Tid)        // in SwapQueue_, about to test the wait predicate
    | Asleep(t: Tid)          // in not_empty_.wait
    | Taking(t: Tid)          // about to take the front

  /** `pushed` and `popped` are history, each in lock order. */
  datatype State = State(
    producer: seq<Item>,
    consumer: seq<Item>,
    cancelled: bool,
    stage: Stage,
    pushed: seq<Item>,
    popped: seq<Item>)

  datatype Action =
    | Push(x: Item)
    | Cancel
    | Enter(t: Tid)           // lock consumer_mutex_
    | Test                    // consumer_queue_.empty()
    | Swap                    // the predicate, and the swap if it holds
    | Wakeup                  // a spurious wakeup of the sleeper
    | Take

  const Initial := State([], [], false, Unlocked, [], [])

  predicate Enabled(s: State, a: Action) {
    match a
    case Push(_) => true
    case Cancel => true
    case Enter(_) => s.stage.Unlocked?
    case Test => s.stage.Entered?
    case Swap => s.stage.Swapping?
    case Wakeup => s.stage.Asleep?
    case Take => s.stage.Taking? && s.consumer != []
  }

  function Notified(st: Stage): Stage {
    if st.Asleep? then Swapping(st.t) else st
  }

  function Next(s: State, a: Action): State
    requires Enabled(s, a)
  {
    match a
    case Push(x) => s.(producer := s.producer + [x], pushed := s.pushed + [x], stage := Notified(s.stage))
    case Cancel => s.(cancelled := true, stage := Notified(s.stage))
    case Enter(t) => s.(stage := Entered(t))
    case Test => s.(stage := if s.consumer == [] then Swapping(s.stage.t) else Taking(s.stage.t))
    case Swap =>
      if s.producer == [] && !s.cancelled then s.(stage := Asleep(s.stage.t))
      else s.(producer := s.consumer, consumer := s.producer,
              stage := if s.producer == [] then Unlocked else Taking(s.stage.t))
    case Wakeup => s.(stage := Swapping(s.stage.t))
    case Take => s.(consumer := s.consumer[1..], popped := s.popped + [s.consumer[0]], stage := Unlocked)
  }

  predicate CanRun(s: State, acts: seq<Action>)
    decreases |acts|
  {
    acts == [] || (Enabled(s, acts[0]) && CanRun(Next(s, acts[0]), acts[1..]))
  }

  function Exec(s: State, acts: seq<Action>): State
    requires CanRun(s, acts)
    decreases |acts|
  {
    if acts == [] then s else Exec(Next(s, acts[0]), acts[1..])
  }

  /** The two queues, consumer's first, are one FIFO. */
  predicate OneFifo(s: State) {
    s.popped + s.consumer + s.producer == s.pushed
  }

  predicate Inv(s: State) {
    && OneFifo(s)
    && (s.stage.Swapping? || s.stage.Asleep? ==> s.consumer == [])
    && (s.stage.Taking? ==> s.consumer != [])
    && (s.stage.Asleep? ==> s.producer == [] && !s.cancelled)
  }

  lemma InvStep(s: State, a: Action)
    requires Inv(s) && Enabled(s, a)
    ensures Inv(Next(s, a))
  {
    var s' := Next(s, a);
    match a
    case Push(x) => assert s'.popped + s'.consumer + s'.producer == s.popped + s.consumer + s.producer + [x];
    case Swap => assert s'.popped + s'.consumer + s'.producer == s.popped + s.consumer + s.producer;
    case Take => assert s'.popped + s'.consumer + s'.producer == s.popped + s.consumer + s.producer;
    case _ =>
  }

  lemma {:induction false} InvRun(s: State, acts: seq<Action>)
    requires Inv(s) && CanRun(s, acts)
    ensures Inv(Exec(s, acts))
    decreases |acts|
  {
    if acts != [] {
      InvStep(s, acts[0]);
      InvRun(Next(s, acts[0]), acts[1..]);
    }
  }

  /** The items of the pushes of a run, in lock order. */
  function Items(acts: seq<Action>): seq<Item> {
    if acts == [] then [] else (if acts[0].Push? then [acts[0].x] else []) + Items(acts[1..])
  }

  function Takes(acts: seq<Action>): nat {
    if acts == [] then 0 else (if acts[0].Take? then 1 else 0) + Takes(acts[1..])
  }

  lemma {:induction false} HistoryRun(s: State, acts: seq<Action>)
    requires CanRun(s, acts)
    ensures var e := Exec(s, acts);
            && e.pushed == s.pushed + Items(acts) && |e.popped| == |s.popped| + Takes(acts)
            && (e.cancelled <==> s.cancelled || Cancel in acts)
    decreases |acts|
  {
    if acts == [] {
      assert s.pushed + [] == s.pushed;
    } else {
      var s' := Next(s, acts[0]);
      HistoryRun(s', acts[1..]);
      var first := if acts[0].Push? then [acts[0].x] else [];
      assert s'.pushed == s.pushed + first;
      assert s.pushed + first + Items(acts[1..]) == s.pushed + (first + Items(acts[1..]));
      assert acts == [acts[0]] + acts[1..];
    }
  }

  /** Under every interleaving of producers, consumers and Cancel: the items that have left and those
      in the two queues are the items of all pushes, in order, and as many have left as consumers
      took one. A consumer that comes to the swap returns false exactly if the queue is cancelled and
      everything pushed has left, sleeps exactly if everything has left and it is not cancelled, and
      otherwise takes an item; and it goes on sleeping only while that is so. */
  lemma BehavesAsOneQueue(acts: seq<Action>)
    requires CanRun(Initial, acts)
    ensures var s := Exec(Initial, acts);
            && s.popped + s.consumer + s.producer == Items(acts) && |s.popped| == Takes(acts)
            && (s.stage.Swapping? ==>
                  var t := s.stage.t;
                  Next(s, Swap).stage == if s.popped != Items(acts) then Taking(t)
                                         else if Cancel in acts then Unlocked else Asleep(t))
            && (s.stage.Asleep? ==> s.popped == Items(acts) && Cancel !in acts)
            && (s.stage.Taking? ==> Enabled(s, Take) && |s.popped| < |Items(acts)|)
  {
    InvRun(Initial, acts);
    HistoryRun(Initial, acts);
    var s := Exec(Initial, acts);
    assert [] + Items(acts) == Items(acts);
    assert s.consumer == [] && s.producer == [] ==> s.popped + s.consumer + s.producer == s.popped;
    assert |s.popped + s.consumer + s.producer| == |s.popped| + |s.consumer| + |s.producer|;
  }
}
