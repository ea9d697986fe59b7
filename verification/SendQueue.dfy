/** The queue of frames a session has still to write. One write is outstanding at a time; its
  completion starts the next.
 */
module SendQueue {
  import opened Bytes
  import opened Framing

  const MAX_SENDQUE: nat := 1000

  /** `waiting` is the queue, `inFlight` the frames handed to the socket whose completion is still
      to come. `accepted` and `completed` are the histories. */
  datatype Queue = Queue(waiting: seq<seq<byte>>, failed: bool, inFlight: seq<seq<byte>>,
                         accepted: seq<seq<byte>>, completed: seq<seq<byte>>)

  datatype Event = Send(msg: seq<byte>) | WriteDone | WriteFailed

  const EMPTY := Queue([], false, [], [], [])

  /** Completions are those of outstanding writes. */
  predicate Enabled(q: Queue, e: Event) {
    !e.Send? ==> q.inFlight != []
  }

  function Sent(q: Queue, msg: seq<byte>): Queue {
    if |q.waiting| > MAX_SENDQUE then q else
      var f := Frame(msg);
      q.(waiting := q.waiting + [f], accepted := q.accepted + [f],
         inFlight := q.inFlight + if q.waiting == [] then [f] else [])
  }

  function Written(q: Queue): Queue
    requires q.inFlight != []
  {
    var rest := if q.waiting == [] then [] else q.waiting[1..];
    q.(waiting := rest, completed := q.completed + [q.inFlight[0]],
       inFlight := q.inFlight[1..] + if rest == [] then [] else [rest[0]])
  }

  function Broken(q: Queue): Queue
    requires q.inFlight != []
  {
    q.(failed := true, inFlight := q.inFlight[1..])
  }

  function Next(q: Queue, e: Event): Queue
    requires Enabled(q, e)
  {
    match e
    case Send(msg) => Sent(q, msg)
    case WriteDone => Written(q)
    case WriteFailed => Broken(q)
  }

  predicate CanRun(q: Queue, es: seq<Event>)
    decreases |es|
  {
    es == [] || (Enabled(q, es[0]) && CanRun(Next(q, es[0]), es[1..]))
  }

  function Exec(q: Queue, es: seq<Event>): Queue
    requires CanRun(q, es)
    decreases |es|
  {
    if es == [] then q else Exec(Next(q, es[0]), es[1..])
  }

  predicate Inv(q: Queue) {
    && |q.waiting| <= MAX_SENDQUE + 1
    && q.accepted == q.completed + q.waiting
    && q.inFlight == (if q.waiting != [] && !q.failed then [q.waiting[0]] else [])
    && (q.failed ==> q.waiting != [])
  }

  lemma InvSent(q: Queue, msg: seq<byte>)
    requires Inv(q)
    ensures Inv(Sent(q, msg))
  {
    if |q.waiting| <= MAX_SENDQUE {
      assert q.completed + q.waiting + [Frame(msg)] == q.completed + (q.waiting + [Frame(msg)]);
    }
  }

  lemma InvStep(q: Queue, e: Event)
    requires Inv(q) && Enabled(q, e)
    ensures Inv(Next(q, e))
  {
    if e.Send? {
      InvSent(q, e.msg);
    } else if e.WriteDone? {
      assert q.waiting == [q.waiting[0]] + q.waiting[1..];
      assert q.completed + q.waiting == q.completed + [q.waiting[0]] + q.waiting[1..];
    }
  }

  lemma {:induction false} InvRun(q: Queue, es: seq<Event>)
    requires Inv(q) && CanRun(q, es)
    ensures Inv(Exec(q, es))
    decreases |es|
  {
    if es != [] {
      InvStep(q, es[0]);
      InvRun(Next(q, es[0]), es[1..]);
    }
  }

  /** What the calls and completions alone say: the frames accepted, a send being dropped while more
      than a thousand of them have not been written, how many have been written, and whether a
      write has failed. */
  datatype Tally = Tally(frames: seq<seq<byte>>, written: nat, failed: bool)

  function Counted(c: Tally, e: Event): Tally {
    match e
    case Send(msg) => if |c.frames| - c.written > 1000 then c else c.(frames := c.frames + [Frame(msg)])
    case WriteDone => c.(written := c.written + 1)
    case WriteFailed => c.(failed := true)
  }

  function Tallied(c: Tally, es: seq<Event>): Tally
    decreases |es|
  {
    if es == [] then c else Tallied(Counted(c, es[0]), es[1..])
  }

  predicate Agrees(q: Queue, c: Tally) {
    q.accepted == c.frames && |q.completed| == c.written && q.failed == c.failed
  }

  lemma {:induction false} TallyRun(q: Queue, c: Tally, es: seq<Event>)
    requires Inv(q) && Agrees(q, c) && CanRun(q, es)
    ensures Inv(Exec(q, es)) && Agrees(Exec(q, es), Tallied(c, es))
    decreases |es|
  {
    if es != [] {
      InvStep(q, es[0]);
      TallyRun(Next(q, es[0]), Counted(c, es[0]), es[1..]);
    }
  }

  /** Over every history of calls and completions: the frames written and then those waiting are the
      frames that the calls say are accepted, cut where the completions say; at most 1001 wait; and
      until a write fails exactly one write is outstanding if frames wait and none otherwise, that of
      the front frame. */
  lemma EveryRunKeepsQueue(es: seq<Event>)
    requires CanRun(EMPTY, es)
    ensures var q, c := Exec(EMPTY, es), Tallied(Tally([], 0, false), es);
            && c.written <= |c.frames| && q.completed == c.frames[..c.written] && q.waiting == c.frames[c.written..]
            && |q.waiting| <= 1001
            && (if c.failed then q.inFlight == [] && q.waiting != []
                else q.inFlight == if q.waiting == [] then [] else [q.waiting[0]])
  {
    assert Inv(EMPTY);
    TallyRun(EMPTY, Tally([], 0, false), es);
  }

  /** After a failed write nothing is written any more, whatever is sent. */
  lemma {:induction false} NothingAfterFailure(q: Queue, es: seq<Event>)
    requires Inv(q) && q.failed && CanRun(q, es)
    ensures Exec(q, es).failed && Exec(q, es).completed == q.completed
    decreases |es|
  {
    if es != [] {
      InvStep(q, es[0]);
      NothingAfterFailure(Next(q, es[0]), es[1..]);
    }
  }

  /** Messages sent one after another. */
  function SentAll(q: Queue, ms: seq<seq<byte>>): Queue
    decreases |ms|
  {
    if ms == [] then q else SentAll(Sent(q, ms[0]), ms[1..])
  }

  lemma {:induction false} SentAllConcat(q: Queue, a: seq<seq<byte>>, b: seq<seq<byte>>)
    ensures SentAll(q, a + b) == SentAll(SentAll(q, a), b)
    decreases |a|
  {
    if a == [] {
      assert a + b == b;
    } else {
      assert (a + b)[1..] == a[1..] + b;
      SentAllConcat(Sent(q, a[0]), a[1..], b);
    }
  }

  /** As long as there is room, every message is accepted: the frames accepted make up the frames
      of the messages on the wire. */
  lemma {:induction false} SentAllAccepts(q: Queue, ms: seq<seq<byte>>)
    requires |q.waiting| + |ms| <= MAX_SENDQUE + 1
    ensures SentAll(q, ms).waiting == q.waiting + Framed(ms) && SentAll(q, ms).accepted == q.accepted + Framed(ms)
    decreases |ms|
  {
    if ms == [] {
      assert q.waiting + [] == q.waiting && q.accepted + [] == q.accepted;
    } else {
      SentFits(q, ms[0]);
      SentAllAccepts(Sent(q, ms[0]), ms[1..]);
      Assoc(q.waiting, [Frame(ms[0])], Framed(ms[1..]));
      Assoc(q.accepted, [Frame(ms[0])], Framed(ms[1..]));
    }
  }

  lemma SentFits(q: Queue, msg: seq<byte>)
    requires |q.waiting| <= MAX_SENDQUE
    ensures Sent(q, msg).waiting == q.waiting + [Frame(msg)] && Sent(q, msg).accepted == q.accepted + [Frame(msg)]
  {
  }

  function Framed(ms: seq<seq<byte>>): (fs: seq<seq<byte>>)
    ensures |fs| == |ms| && Flatten(fs) == Frames(ms)
  {
    if ms == [] then [] else [Frame(ms[0])] + Framed(ms[1..])
  }

  lemma {:induction false} FramedMore(ms: seq<seq<byte>>, m: seq<byte>)
    ensures Framed(ms + [m]) == Framed(ms) + [Frame(m)]
    decreases |ms|
  {
    if ms == [] {
      assert ms + [m] == [m] && [m][1..] == [];
    } else {
      assert (ms + [m])[1..] == ms[1..] + [m];
      FramedMore(ms[1..], m);
    }
  }
}
