/** Whole histories of a session: reads and writes that complete in any order, from the octets received
  to the frames written.
 */
module SessionHistory {
  import opened Bytes
  import opened Framing
  import opened SendQueue
  import opened Session

  /** The completion of a read or of a write. A read without an error brings at least one octet. */
  datatype Event = Read(chunk: seq<byte>) | ReadFailed | Written(error: bool)

  /** A session as a value: where it is, and whether a read is outstanding. */
  datatype Peer = Peer(now: Progress, reading: bool)

  const NEW := Peer(Progress(START, EMPTY, []), true)

  function Completion(error: bool): SendQueue.Event {
    if error then SendQueue.WriteFailed else SendQueue.WriteDone
  }

  predicate CanHandle(p: Peer, e: Event) {
    match e
    case Read(chunk) => p.reading && chunk != [] && !Run(p.now.recv, chunk).state.Negative?
    case ReadFailed => p.reading
    case Written(error) => SendQueue.Enabled(p.now.queue, Completion(error))
  }

  function Handle(p: Peer, e: Event): Peer
    requires CanHandle(p, e)
  {
    match e
    case Read(chunk) => Peer(After(p.now, chunk), !After(p.now, chunk).recv.Dead?)
    case ReadFailed => p.(reading := false)
    case Written(error) => p.(now := p.now.(queue := SendQueue.Next(p.now.queue, Completion(error))))
  }

  predicate CanServe(p: Peer, es: seq<Event>)
    decreases |es|
  {
    es == [] || (CanHandle(p, es[0]) && CanServe(Handle(p, es[0]), es[1..]))
  }

  function Served(p: Peer, es: seq<Event>): Peer
    requires CanServe(p, es)
    decreases |es|
  {
    if es == [] then p else Served(Handle(p, es[0]), es[1..])
  }

  /** The octets that the reads of a history brought. */
  function Octets(es: seq<Event>): seq<byte> {
    if es == [] then [] else (if es[0].Read? then es[0].chunk else []) + Octets(es[1..])
  }

  /** Which messages are complete depends only on the octets: not on how they were cut into reads,
      and not on when writes completed. */
  lemma {:induction false} ServedReceives(p: Peer, es: seq<Event>)
    requires CanServe(p, es)
    ensures var q, r := Served(p, es), Run(p.now.recv, Octets(es));
            q.now.recv == r.state && q.now.delivered == p.now.delivered + r.delivered
    decreases |es|
  {
    if es == [] {
      assert p.now.delivered + [] == p.now.delivered;
    } else {
      var p' := Handle(p, es[0]);
      ServedReceives(p', es[1..]);
      var chunk := if es[0].Read? then es[0].chunk else [];
      RunConcat(p.now.recv, chunk, Octets(es[1..]));
      Assoc(p.now.delivered, Run(p.now.recv, chunk).delivered, Run(p'.now.recv, Octets(es[1..])).delivered);
      if !es[0].Read? {
        assert chunk + Octets(es[1..]) == Octets(es[1..]);
      }
    }
  }

  /** Part of a list, in order. */
  predicate Sub(a: seq<seq<byte>>, b: seq<seq<byte>>)
    decreases |b|
  {
    a == [] || (b != [] && ((a[0] == b[0] && Sub(a[1..], b[1..])) || Sub(a, b[1..])))
  }

  lemma {:induction false} SubMore(a: seq<seq<byte>>, b: seq<seq<byte>>, x: seq<byte>)
    requires Sub(a, b)
    ensures Sub(a, b + [x]) && Sub(a + [x], b + [x])
    decreases |b|
  {
    if b == [] {
      assert a + [x] == [x] && b + [x] == [x] && [x][1..] == [];
    } else {
      assert (b + [x])[1..] == b[1..] + [x];
      if a != [] && a[0] == b[0] && Sub(a[1..], b[1..]) {
        assert (a + [x])[1..] == a[1..] + [x];
        SubMore(a[1..], b[1..], x);
      } else {
        SubMore(a, b[1..], x);
      }
    }
  }

  /** The frames accepted are, in order, among those of the complete messages; all of them while
      these are at most 1001. */
  predicate Echoes(q: Queue, delivered: seq<seq<byte>>) {
    && SendQueue.Inv(q) && Sub(q.accepted, Framed(delivered))
    && (|delivered| <= MAX_SENDQUE + 1 ==> q.accepted == Framed(delivered))
  }

  lemma EchoesOne(q: Queue, delivered: seq<seq<byte>>, m: seq<byte>)
    requires Echoes(q, delivered)
    ensures Echoes(Sent(q, m), delivered + [m])
  {
    InvSent(q, m);
    FramedMore(delivered, m);
    SubMore(q.accepted, Framed(delivered), Frame(m));
  }

  lemma {:induction false} EchoesSent(q: Queue, delivered: seq<seq<byte>>, ms: seq<seq<byte>>)
    requires Echoes(q, delivered)
    ensures Echoes(SentAll(q, ms), delivered + ms)
    decreases |ms|
  {
    if ms == [] {
      assert delivered + ms == delivered;
    } else {
      EchoesOne(q, delivered, ms[0]);
      EchoesSent(Sent(q, ms[0]), delivered + [ms[0]], ms[1..]);
      assert delivered + [ms[0]] + ms[1..] == delivered + ms;
    }
  }

  lemma EchoesStep(p: Peer, e: Event)
    requires Echoes(p.now.queue, p.now.delivered) && CanHandle(p, e)
    ensures Echoes(Handle(p, e).now.queue, Handle(p, e).now.delivered)
  {
    match e
    case Read(chunk) => EchoesSent(p.now.queue, p.now.delivered, Run(p.now.recv, chunk).delivered);
    case ReadFailed =>
    case Written(error) => InvStep(p.now.queue, Completion(error));
  }

  lemma {:induction false} EchoesRun(p: Peer, es: seq<Event>)
    requires Echoes(p.now.queue, p.now.delivered) && CanServe(p, es)
    ensures Echoes(Served(p, es).now.queue, Served(p, es).now.delivered)
    decreases |es|
  {
    if es != [] {
      EchoesStep(p, es[0]);
      EchoesRun(Handle(p, es[0]), es[1..]);
    }
  }

  /** The writes that a history completes. */
  function Writes(es: seq<Event>): nat {
    if es == [] then 0 else (if es[0] == Written(false) then 1 else 0) + Writes(es[1..])
  }

  lemma {:induction false} SentKeeps(q: Queue, ms: seq<seq<byte>>)
    ensures SentAll(q, ms).completed == q.completed && SentAll(q, ms).failed == q.failed
    decreases |ms|
  {
    if ms != [] {
      SentKeeps(Sent(q, ms[0]), ms[1..]);
    }
  }

  lemma StepCounts(p: Peer, e: Event)
    requires CanHandle(p, e) && (p.reading ==> !p.now.recv.Dead?)
    ensures var q := Handle(p, e);
            && |q.now.queue.completed| == |p.now.queue.completed| + (if e == Written(false) then 1 else 0)
            && (q.now.queue.failed <==> p.now.queue.failed || e == Written(true))
            && (q.reading <==> p.reading && e != ReadFailed && !q.now.recv.Dead?)
  {
    if e.Read? {
      SentKeeps(p.now.queue, Run(p.now.recv, e.chunk).delivered);
    }
  }

  lemma {:induction false} ServedCounts(p: Peer, es: seq<Event>)
    requires CanServe(p, es) && (p.reading ==> !p.now.recv.Dead?)
    ensures var q := Served(p, es);
            && |q.now.queue.completed| == |p.now.queue.completed| + Writes(es)
            && (q.now.queue.failed <==> p.now.queue.failed || Written(true) in es)
            && (q.reading <==> p.reading && ReadFailed !in es && !q.now.recv.Dead?)
    decreases |es|
  {
    if es != [] {
      assert es == [es[0]] + es[1..];
      StepCounts(p, es[0]);
      ServedCounts(Handle(p, es[0]), es[1..]);
      StaysDead(Handle(p, es[0]), es[1..]);
    }
  }

  lemma {:induction false} StaysDead(p: Peer, es: seq<Event>)
    requires CanServe(p, es)
    ensures p.now.recv.Dead? ==> Served(p, es).now.recv.Dead?
    decreases |es|
  {
    if es != [] && p.now.recv.Dead? {
      if es[0].Read? {
        RunStuck(p.now.recv, es[0].chunk);
      }
      StaysDead(Handle(p, es[0]), es[1..]);
    }
  }

  /** Over every history of reads and writes, in whatever order they complete: the messages that are
      complete are those of the octets received; the frames written and the frames waiting are, in
      order, among those of these messages, and all of them while there are at most 1001; as many
      are written as writes completed; and the next read is outstanding unless one failed or a
      length was above the maximum. */
  lemma EveryHistoryEchoes(es: seq<Event>)
    requires CanServe(NEW, es)
    ensures var p, r := Served(NEW, es), Run(START, Octets(es));
            var frames := Framed(r.delivered);
            && p.now.recv == r.state && p.now.delivered == r.delivered
            && Sub(p.now.queue.completed + p.now.queue.waiting, frames)
            && (|frames| <= 1001 ==> p.now.queue.completed + p.now.queue.waiting == frames)
            && |p.now.queue.completed| == Writes(es)
            && (p.reading <==> ReadFailed !in es && !r.state.Dead?)
  {
    ServedReceives(NEW, es);
    EchoesRun(NEW, es);
    ServedCounts(NEW, es);
    assert [] + Run(START, Octets(es)).delivered == Run(START, Octets(es)).delivered;
  }

  /** From end to end: if the octets received are the frames of messages of at most 2048 octets,
      these messages are delivered as they are, whatever the cuts and whenever writes complete; and
      if they are at most 1001, what is written, as many frames as writes completed, and what is
      waiting make up the very octets that were received. */
  lemma EndToEnd(ms: seq<seq<byte>>, es: seq<Event>)
    requires (forall m <- ms :: |m| <= 2048) && CanServe(NEW, es) && Octets(es) == Frames(ms)
    ensures var p := Served(NEW, es);
            && p.now.recv == START && p.now.delivered == ms
            && Sub(p.now.queue.completed + p.now.queue.waiting, Framed(ms))
            && |p.now.queue.completed| == Writes(es)
            && (|ms| <= 1001 ==> Flatten(p.now.queue.completed) + Flatten(p.now.queue.waiting) == Octets(es))
  {
    EveryHistoryEchoes(es);
    FramesDecode(ms);
    var p := Served(NEW, es);
    FlattenConcat(p.now.queue.completed, p.now.queue.waiting);
  }

  // ---------------------------------------------------------------- the session object

  ghost predicate Is(session: Session, p: Peer)
    reads session, session.head, session.head.data, session.body, session.body.data
    requires session.Shape()
  {
    session.Now() == p.now && session.reading == p.reading && (session.reading ==> !session.cleared)
  }

  /** One completion. */
  method On(session: Session, e: Event, ghost p: Peer)
    requires session.Valid() && SendQueue.Inv(session.Queue()) && Is(session, p) && CanHandle(p, e)
    modifies session, session.head, session.head.data, session.body, session.body.data
    ensures session.Valid() && SendQueue.Inv(session.Queue()) && Is(session, Handle(p, e))
    ensures session.body == old(session.body) || (fresh(session.body) && fresh(session.body.data))
  {
    match e
    case Read(chunk) => session.HandleRead(false, chunk);
    case ReadFailed => session.HandleRead(true, []);
    case Written(error) => session.HandleWrite(error);
  }

  /** A session object through a history ends where the history leads. */
  method Serve(es: seq<Event>) returns (session: Session)
    requires CanServe(NEW, es)
    ensures fresh(session) && session.Valid() && Is(session, Served(NEW, es))
  {
    session := new Session();
    ghost var p := NEW;
    assert es[0..] == es;
    for i := 0 to |es|
      invariant fresh(session) && fresh(session.head) && fresh(session.head.data)
      invariant fresh(session.body) && fresh(session.body.data)
      invariant session.Valid() && SendQueue.Inv(session.Queue()) && Is(session, p)
      invariant CanServe(p, es[i..]) && Served(p, es[i..]) == Served(NEW, es)
    {
      assert es[i..][1..] == es[i + 1..];
      On(session, es[i], p);
      p := Handle(p, es[i]);
    }
  }
}
