/** The output side of a connection: the send buffer, the channel's write interest and the
  half-close, driven by the loop thread. A write is given by its outcome.
 */
module TcpConnection {
  import opened Bytes
  import opened Poller
  import B = Buffer

  datatype ConnState = Connecting | Connected | Disconnecting | Disconnected

  /** What `write` did: took some bytes, would have blocked, failed because the peer is gone
      (EPIPE or ECONNRESET), or failed otherwise. */
  datatype WriteResult = Wrote(n: nat) | WouldBlock | PeerGone | OtherError

  /** `slot` is the connection's channel with its epoll entry. `queued` counts shutdownInLoop
      calls still in the loop's queue. History: `wire`, the bytes the kernel took; `halfClosed`, the
      calls of shutdownWrite; `removed`, whether the channel was taken off the poller. */
  datatype Conn = Conn(
    state: ConnState,
    output: seq<byte>,
    slot: Slot,
    queued: nat,
    wire: seq<byte>,
    halfClosed: nat,
    removed: bool)

  const Fresh := Conn(Connecting, [], Unused, 0, [], 0, false)

  datatype Op =
    | Established                             // connectEstablished
    | Send(data: seq<byte>, r: WriteResult)   // sendInLoop; r matters only if it writes
    | WriteReady(r: WriteResult)              // handleWrite
    | Shutdown(inLoop: bool)                  // shutdown(), on the loop thread or on another
    | QueuedShutdown                          // the queued shutdownInLoop runs
    | Close                                   // handleClose
    | Destroyed                               // connectDestroyed

  predicate Writing(c: Conn) {
    Out in c.slot.events
  }

  /** `write` never takes more than it was given. */
  predicate Enabled(c: Conn, op: Op) {
    match op
    case Established => c.state.Connecting?
    case Send(data, r) => r.Wrote? ==> r.n <= |data|
    case WriteReady(r) => r.Wrote? ==> r.n <= |c.output|
    case QueuedShutdown => c.queued > 0
    case _ => true
  }

  function Sent(c: Conn, data: seq<byte>, r: WriteResult): Conn
    requires r.Wrote? ==> r.n <= |data|
  {
    if c.state.Disconnected? then c
    else
      var direct := !Writing(c) && c.output == [];
      if direct && r.PeerGone? then c
      else
        var n := if direct && r.Wrote? then r.n else 0;
        var d := c.(wire := c.wire + data[..n], output := c.output + data[n..]);
        if data[n..] != [] && !Writing(c) then d.(slot := Called(c.slot, EnableWriting)) else d
  }

  function ShutdownInLoop(c: Conn): Conn {
    if Writing(c) then c else c.(halfClosed := c.halfClosed + 1)
  }

  function Flushed(c: Conn, r: WriteResult): Conn
    requires r.Wrote? ==> r.n <= |c.output|
  {
    if !Writing(c) || !r.Wrote? || r.n == 0 then c
    else
      var d := c.(wire := c.wire + c.output[..r.n], output := c.output[r.n..]);
      if d.output != [] then d
      else
        var e := d.(slot := Called(d.slot, DisableWriting));
        if e.state.Disconnecting? then ShutdownInLoop(e) else e
  }

  function Apply(c: Conn, op: Op): Conn
    requires Enabled(c, op)
  {
    match op
    case Established => c.(state := Connected, slot := Called(c.slot, EnableReading))
    case Send(data, r) => Sent(c, data, r)
    case WriteReady(r) => Flushed(c, r)
    case Shutdown(inLoop) =>
      if !c.state.Connected? then c
      else if inLoop then ShutdownInLoop(c.(state := Disconnecting))
      else c.(state := Disconnecting, queued := c.queued + 1)
    case QueuedShutdown => ShutdownInLoop(c.(queued := c.queued - 1))
    case Close => c.(state := Disconnected, slot := Called(c.slot, DisableAll))
    case Destroyed =>
      var d := if c.state.Connected? then c.(state := Disconnected, slot := Called(c.slot, DisableAll)) else c;
      d.(slot := Called(d.slot, Remove), removed := true)
  }

  predicate CanRun(c: Conn, ops: seq<Op>)
    decreases |ops|
  {
    ops == [] || (Enabled(c, ops[0]) && CanRun(Apply(c, ops[0]), ops[1..]))
  }

  function Exec(c: Conn, ops: seq<Op>): Conn
    requires CanRun(c, ops)
    decreases |ops|
  {
    if ops == [] then c else Exec(Apply(c, ops[0]), ops[1..])
  }

  // ---- the line, by the calls alone -----------------------------------------------------------------

  /** What the calls mean for the bytes of a connection, without buffer, channel and poller: where the
      connection is, the bytes taken, the bytes waiting, the shutdowns queued, and whether it is
      off the poller. */
  datatype Line = Line(state: ConnState, taken: seq<byte>, waiting: seq<byte>, queued: nat, removed: bool)

  const START := Line(Connecting, [], [], 0, false)

  /** A send that is not made: the connection is down, or the peer is gone and nothing waits. */
  predicate Refused(l: Line, r: WriteResult) {
    l.state.Disconnected? || (r.PeerGone? && l.waiting == [])
  }

  /** The first bytes that a write took, of those it was given. */
  function Took(r: WriteResult, given: seq<byte>): (n: nat)
    ensures n <= |given|
  {
    if r.Wrote? && r.n <= |given| then r.n else 0
  }

  function Onward(l: Line, op: Op): Line {
    match op
    case Established => l.(state := Connected)
    case Send(data, r) =>
      if Refused(l, r) then l
      else if l.waiting != [] then l.(waiting := l.waiting + data)
      else l.(taken := l.taken + data[..Took(r, data)], waiting := data[Took(r, data)..])
    case WriteReady(r) =>
      if l.state.Disconnected? then l
      else l.(taken := l.taken + l.waiting[..Took(r, l.waiting)], waiting := l.waiting[Took(r, l.waiting)..])
    case Shutdown(inLoop) =>
      if !l.state.Connected? then l else l.(state := Disconnecting, queued := l.queued + if inLoop then 0 else 1)
    case QueuedShutdown => l.(queued := if l.queued > 0 then l.queued - 1 else 0)
    case Close => l.(state := Disconnected)
    case Destroyed => l.(state := if l.state.Connected? then Disconnected else l.state, removed := true)
  }

  function LineAfter(l: Line, ops: seq<Op>): Line
    decreases |ops|
  {
    if ops == [] then l else LineAfter(Onward(l, ops[0]), ops[1..])
  }

  /** The bytes of all sends that are not refused, in order. */
  function Kept(l: Line, ops: seq<Op>): seq<byte>
    decreases |ops|
  {
    if ops == [] then [] else
      (if ops[0].Send? && !Refused(l, ops[0].r) then ops[0].data else []) + Kept(Onward(l, ops[0]), ops[1..])
  }

  lemma OnwardKeeps(l: Line, op: Op)
    ensures var e := Onward(l, op);
            e.taken + e.waiting == l.taken + l.waiting + if op.Send? && !Refused(l, op.r) then op.data else []
  {
    match op
    case Send(data, r) =>
      assert data[..Took(r, data)] + data[Took(r, data)..] == data;
    case WriteReady(r) =>
      var n := Took(r, l.waiting);
      assert l.waiting == l.waiting[..n] + l.waiting[n..];
    case _ =>
  }

  /** Taken and waiting bytes are those of the sends that were not refused. */
  lemma {:induction false} LineKeeps(l: Line, ops: seq<Op>)
    ensures var e := LineAfter(l, ops); e.taken + e.waiting == l.taken + l.waiting + Kept(l, ops)
    decreases |ops|
  {
    if ops != [] {
      var e := Onward(l, ops[0]);
      OnwardKeeps(l, ops[0]);
      LineKeeps(e, ops[1..]);
      Assoc(l.taken + l.waiting, if ops[0].Send? && !Refused(l, ops[0].r) then ops[0].data else [], Kept(e, ops[1..]));
    }
  }

  // ---- what every run keeps ---------------------------------------------------------------------

  /** Until the connection is down, the channel waits for the socket to become writable exactly
      while there is something to write, and once it is established it waits for input; after that
      it waits for nothing. */
  predicate InterestExact(c: Conn) {
    && (if c.state.Disconnected? then c.slot.events == {} else Writing(c) <==> c.output != [])
    && (c.state.Connected? || c.state.Disconnecting? ==> READ <= c.slot.events)
  }

  /** A shutdown that was asked for has been done, is queued, or waits for the buffer. */
  predicate ShutdownPending(c: Conn) {
    c.state.Disconnecting? ==> c.halfClosed > 0 || c.queued > 0 || Writing(c)
  }

  predicate Registered(c: Conn) {
    InStep(c.slot) && (!c.removed && c.slot.events != {} ==> c.slot.index.Added?)
  }

  predicate Inv(c: Conn) {
    InterestExact(c) && ShutdownPending(c) && Registered(c)
  }

  /** The line of a connection. */
  function LineOf(c: Conn): Line {
    Line(c.state, c.wire, c.output, c.queued, c.removed)
  }

  lemma SendInv(c: Conn, data: seq<byte>, r: WriteResult)
    requires Inv(c) && Enabled(c, Send(data, r))
    ensures Inv(Sent(c, data, r))
  {
    var n := if !Writing(c) && c.output == [] && r.Wrote? then r.n else 0;
    assert data[n..] == [] ==> c.output + data[n..] == c.output;
    assert |c.output + data[n..]| == |c.output| + |data[n..]|;
  }

  lemma FlushInv(c: Conn, r: WriteResult)
    requires Inv(c) && Enabled(c, WriteReady(r))
    ensures Inv(Flushed(c, r))
  {
  }

  lemma InvStep(c: Conn, op: Op)
    requires Inv(c) && Enabled(c, op)
    ensures Inv(Apply(c, op))
  {
    match op
    case Send(data, r) => SendInv(c, data, r);
    case WriteReady(r) => FlushInv(c, r);
    case _ =>
  }

  /** Buffer, channel and poller do to the bytes what the calls mean. */
  lemma LineStep(c: Conn, op: Op)
    requires Inv(c) && Enabled(c, op)
    ensures LineOf(Apply(c, op)) == Onward(LineOf(c), op)
  {
    match op
    case Send(data, r) =>
      assert c.output == [] ==> c.output + data == data;
      assert data[..0] == [] && data[0..] == data && c.wire + [] == c.wire;
      assert c.output == [] ==> forall n | 0 <= n <= |data| :: c.output + data[n..] == data[n..];
    case WriteReady(r) =>
      assert c.output[..0] == [] && c.output[0..] == c.output && c.wire + [] == c.wire;
    case _ =>
  }

  lemma {:induction false} InvRun(c: Conn, ops: seq<Op>)
    requires Inv(c) && CanRun(c, ops)
    ensures Inv(Exec(c, ops)) && LineOf(Exec(c, ops)) == LineAfter(LineOf(c), ops)
    decreases |ops|
  {
    if ops != [] {
      InvStep(c, ops[0]);
      LineStep(c, ops[0]);
      InvRun(Apply(c, ops[0]), ops[1..]);
    }
  }

  // ---- main results -------------------------------------------------------------------------------

  /** In every run: the bytes the kernel took followed by the buffered ones are the bytes of all
      sends, in order, but for those made when the connection was down and those that found the peer
      gone with nothing buffered; state, queued shutdowns and removal are what the calls say; and
      while the connection is up and on the poller, the kernel watches the descriptor for input, and
      for writability exactly when bytes are buffered, and once it is down for nothing. */
  lemma StreamConserved(ops: seq<Op>)
    requires CanRun(Fresh, ops)
    ensures var c := Exec(Fresh, ops);
            && c.wire + c.output == Kept(START, ops) && LineOf(c) == LineAfter(START, ops)
            && ((c.state.Connected? || c.state.Disconnecting?) && !c.removed ==>
                  && c.slot.kernel.Present? && READ <= c.slot.kernel.mask
                  && (c.output != [] <==> Out in c.slot.kernel.mask))
            && (c.state.Disconnected? ==> c.slot.kernel.Absent? || c.slot.kernel.mask == {})
  {
    InvRun(Fresh, ops);
    LineKeeps(START, ops);
    assert [] + [] + Kept(START, ops) == Kept(START, ops);
    var c := Exec(Fresh, ops);
    assert In in READ;
  }

  /** In every run, a step that closes the write side leaves buffered bytes behind exactly if it is
      a queued shutdown that finds the connection already down with bytes in the buffer. */
  lemma CutsOffExactly(ops: seq<Op>, op: Op)
    requires CanRun(Fresh, ops) && Enabled(Exec(Fresh, ops), op)
    ensures var c := Exec(Fresh, ops);
            var d := Apply(c, op);
            d.halfClosed > c.halfClosed && d.output != [] <==>
            op.QueuedShutdown? && c.state.Disconnected? && c.output != []
  {
    InvRun(Fresh, ops);
  }

  lemma RunFrom(c: Conn, op: Op, ops: seq<Op>)
    requires Enabled(c, op) && CanRun(Apply(c, op), ops)
    ensures CanRun(c, [op] + ops) && Exec(c, [op] + ops) == Exec(Apply(c, op), ops)
  {
    assert ([op] + ops)[1..] == ops;
  }

  /** And that does happen: a shutdown queued from another thread runs after the peer's close. */
  lemma CutOffReached()
    ensures var ops := [Established] + ([Send([1], WouldBlock)] + ([Shutdown(false)] + ([Close] + [])));
            && CanRun(Fresh, ops) && Enabled(Exec(Fresh, ops), QueuedShutdown)
            && Exec(Fresh, ops).state.Disconnected? && Exec(Fresh, ops).output == [1]
  {
    var c1 := Apply(Fresh, Established);
    var c2 := Apply(c1, Send([1], WouldBlock));
    var c3 := Apply(c2, Shutdown(false));
    var c4 := Apply(c3, Close);
    RunFrom(c3, Close, []);
    RunFrom(c2, Shutdown(false), [Close] + []);
    RunFrom(c1, Send([1], WouldBlock), [Shutdown(false)] + ([Close] + []));
    RunFrom(Fresh, Established, [Send([1], WouldBlock)] + ([Shutdown(false)] + ([Close] + [])));
    assert c2.output == [1] && c4.queued == 1 && Exec(c4, []) == c4;
  }

  lemma {:induction false} OpenRun(c: Conn, ops: seq<Op>)
    requires CanRun(c, ops) && !c.state.Disconnecting? && c.queued == 0 && (forall op <- ops :: !op.Shutdown?)
    ensures Exec(c, ops).halfClosed == c.halfClosed
    decreases |ops|
  {
    if ops != [] {
      assert !ops[0].Shutdown?;
      OpenRun(Apply(c, ops[0]), ops[1..]);
    }
  }

  /** In no run is the write side closed unless `shutdown()` was called. */
  lemma ClosedOnlyIfAsked(ops: seq<Op>)
    requires CanRun(Fresh, ops) && Exec(Fresh, ops).halfClosed > 0
    ensures exists op <- ops :: op.Shutdown?
  {
    if forall op <- ops :: !op.Shutdown? {
      OpenRun(Fresh, ops);
    }
  }

  /** A shutdown is never forgotten: in every run, if the calls leave the connection disconnecting
      with nothing queued and nothing buffered, its write side has been closed with all bytes out. */
  lemma ShutdownDone(ops: seq<Op>)
    requires CanRun(Fresh, ops)
    ensures var c, l := Exec(Fresh, ops), LineAfter(START, ops);
            l.state.Disconnecting? && l.queued == 0 && l.waiting == [] ==>
            c.halfClosed > 0 && c.wire == Kept(START, ops)
  {
    InvRun(Fresh, ops);
    StreamConserved(ops);
    var c := Exec(Fresh, ops);
    assert c.output == [] ==> c.wire + c.output == c.wire;
  }

  // ---- the object -----------------------------------------------------------------------------------

  class TcpConnection {
    var state: ConnState
    const outputBuffer: B.Buffer
    const channel: Channel
    const poller: EPollPoller
    var queued: nat
    ghost var wire: seq<byte>
    var halfClosed: nat
    ghost var removed: bool

    ghost predicate Valid()
      reads this, outputBuffer, poller
    {
      outputBuffer.Valid() && poller.Holds(channel)
    }

    ghost function View(): Conn
      requires Valid()
      reads this, outputBuffer, channel, poller
    {
      Conn(state, outputBuffer.Contents(), poller.View(channel), queued, wire, halfClosed, removed)
    }

    constructor (fd: Fd, poller: EPollPoller)
      requires fd !in poller.channels && fd !in poller.kernel && fd !in poller.faults
      ensures Valid() && View() == Fresh && this.poller == poller && fresh(outputBuffer) && fresh(channel)
    {
      state := Connecting;
      outputBuffer := new B.Buffer(1024);
      channel := new Channel(fd);
      this.poller := poller;
      queued, halfClosed := 0, 0;
      wire, removed := [], false;
    }

    method ConnectEstablished()
      requires Valid() && state.Connecting?
      modifies this`state, channel`index, channel`events, poller
      ensures Valid() && View() == Apply(old(View()), Established)
    {
      state := Connected;
      poller.Call(channel, EnableReading);
    }

    /** `sendInLoop`: write directly if nothing is waiting, buffer the rest and ask for EPOLLOUT. */
    method SendInLoop(data: seq<byte>, r: WriteResult)
      requires Valid() && (r.Wrote? ==> r.n <= |data|)
      modifies this`wire, outputBuffer, channel`index, channel`events, poller
      ensures Valid() && View() == Apply(old(View()), Send(data, r))
    {
      var nwrote := 0;
      var faultError := false;
      if state.Disconnected? {
        return;
      }
      assert wire + data[..0] == wire;
      if !channel.IsWriting() && outputBuffer.Contents() == [] {
        if r.Wrote? {
          nwrote := r.n;
          wire := wire + data[..nwrote];
        } else if r.PeerGone? {
          faultError := true;
        }
      }
      if !faultError {
        Keep(data[nwrote..]);
      }
    }

    /** What the socket did not take. */
    method Keep(rest: seq<byte>)
      requires Valid()
      modifies outputBuffer, channel`index, channel`events, poller
      ensures Valid()
      ensures var c := old(View());
              View() == c.(output := c.output + rest,
                           slot := if Writing(c) || rest == [] then c.slot else Called(c.slot, EnableWriting))
    {
      if |rest| > 0 {
        Enqueue(rest);
      } else {
        assert outputBuffer.Contents() + rest == outputBuffer.Contents();
      }
    }

    /** The rest goes to the buffer, and the channel asks for EPOLLOUT unless it does already. */
    method Enqueue(rest: seq<byte>)
      requires Valid()
      modifies outputBuffer, channel`index, channel`events, poller
      ensures Valid()
      ensures var c := old(View());
              View() == c.(output := c.output + rest,
                           slot := if Writing(c) then c.slot else Called(c.slot, EnableWriting))
    {
      outputBuffer.Append(rest);
      if !channel.IsWriting() {
        poller.Call(channel, EnableWriting);
      }
    }

    method HandleWrite(r: WriteResult)
      requires Valid() && (r.Wrote? ==> r.n <= |outputBuffer.Contents()|)
      modifies this`wire, this`halfClosed, outputBuffer, channel`index, channel`events, poller
      ensures Valid() && View() == Apply(old(View()), WriteReady(r))
    {
      if channel.IsWriting() {
        if r.Wrote? && r.n > 0 {
          wire := wire + outputBuffer.Contents()[..r.n];
          outputBuffer.Retrieve(r.n);
          if outputBuffer.Contents() == [] {
            poller.Call(channel, DisableWriting);
            if state.Disconnecting? {
              ShutdownNow();
            }
          }
        }
      }
    }

    /** `shutdownInLoop` */
    method ShutdownNow()
      requires Valid()
      modifies this`halfClosed
      ensures Valid() && View() == ShutdownInLoop(old(View()))
    {
      if !channel.IsWriting() {
        halfClosed := halfClosed + 1;
      }
    }

    /** `shutdown`: on the loop thread the closing runs at once, otherwise it is queued. */
    method ShutdownCalled(inLoop: bool)
      requires Valid()
      modifies this`state, this`halfClosed, this`queued
      ensures Valid() && View() == Apply(old(View()), Shutdown(inLoop))
    {
      if state.Connected? {
        state := Disconnecting;
        if inLoop {
          ShutdownNow();
        } else {
          queued := queued + 1;
        }
      }
    }

    method RunQueuedShutdown()
      requires Valid() && queued > 0
      modifies this`halfClosed, this`queued
      ensures Valid() && View() == Apply(old(View()), QueuedShutdown)
    {
      queued := queued - 1;
      ShutdownNow();
    }

    method HandleClose()
      requires Valid()
      modifies this`state, channel`index, channel`events, poller
      ensures Valid() && View() == Apply(old(View()), Close)
    {
      state := Disconnected;
      poller.Call(channel, DisableAll);
    }

    method ConnectDestroyed()
      requires Valid()
      modifies this`state, this`removed, channel`index, channel`events, poller
      ensures Valid() && View() == Apply(old(View()), Destroyed)
    {
      if state.Connected? {
        state := Disconnected;
        poller.Call(channel, DisableAll);
      }
      poller.Call(channel, Remove);
      removed := true;
    }
  }
}
