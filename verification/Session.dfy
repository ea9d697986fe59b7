/** The echo session of the asynchronous server: message nodes, the read handler that reassembles
  messages from whatever each read brings, and the send queue.
 */
module Session {
  import opened Bytes
  import opened Framing
  import SendQueue

  /** A buffer with one spare place for a NUL and a count of the octets filled in. */
  class MsgNode {
    const data: array<byte>
    const total: nat
    var cur: nat

    ghost predicate Valid()
      reads this
    {
      data.Length == total + 1 && cur <= total
    }

    /** An empty node for a message of length n. */
    constructor (n: nat)
      ensures Valid() && total == n && cur == 0 && fresh(data)
    {
      data := new byte[n + 1](_ => 0);
      total := n;
      cur := 0;
    }

    /** A node that holds the frame of a message. */
    constructor Framed(msg: seq<byte>)
      ensures Valid() && total == |msg| + HEAD_LENGTH && cur == 0 && fresh(data)
      ensures data[..total] == Frame(msg) && data[total] == 0
    {
      var n := |msg|;
      data := new byte[n + 3](_ => 0);
      total := n + HEAD_LENGTH;
      cur := 0;
      new;
      data[0], data[1] := n / 256 % 256, n % 256;
      forall i | 0 <= i < n {
        data[i + 2] := msg[i];
      }
    }

    /** Copies octets behind those that count as filled in. */
    method Copy(src: seq<byte>)
      requires Valid() && cur + |src| <= total
      modifies data
      ensures data[..cur + |src|] == old(data[..cur]) + src
    {
      forall i | 0 <= i < |src| {
        data[cur + i] := src[i];
      }
    }

    /** The same, and counts them. */
    method Fill(src: seq<byte>)
      requires Valid() && cur + |src| <= total
      modifies data, this`cur
      ensures Valid() && data[..cur] == old(data[..cur]) + src && cur == old(cur) + |src|
    {
      Copy(src);
      cur := cur + |src|;
    }

    method Clear()
      requires Valid()
      modifies data, this`cur
      ensures Valid() && cur == 0 && (forall i | 0 <= i < total :: data[i] == 0)
    {
      forall i | 0 <= i < total {
        data[i] := 0;
      }
      cur := 0;
    }
  }

  /** Where a session is: what the receiver waits for, the queue, and the messages that were
      complete, in order. */
  datatype Progress = Progress(recv: Recv, queue: SendQueue.Queue, delivered: seq<seq<byte>>)

  /** Where octets lead, one by one. */
  function After(p: Progress, x: seq<byte>): Progress {
    var r := Run(p.recv, x);
    Progress(r.state, SendQueue.SentAll(p.queue, r.delivered), p.delivered + r.delivered)
  }

  lemma AfterConcat(p: Progress, x: seq<byte>, y: seq<byte>)
    ensures After(p, x + y) == After(After(p, x), y)
  {
    var a, b := Run(p.recv, x).delivered, Run(Run(p.recv, x).state, y).delivered;
    RunConcat(p.recv, x, y);
    SendQueue.SentAllConcat(p.queue, a, b);
    Assoc(p.delivered, a, b);
  }

  /** Octets that complete no message. */
  lemma AfterNone(p: Progress, x: seq<byte>)
    requires Run(p.recv, x).delivered == []
    ensures After(p, x) == p.(recv := Run(p.recv, x).state)
  {
    assert p.delivered + [] == p.delivered;
  }

  /** Octets that complete one. */
  lemma AfterOne(p: Progress, x: seq<byte>, m: seq<byte>)
    requires Run(p.recv, x).delivered == [m]
    ensures After(p, x) == Progress(Run(p.recv, x).state, SendQueue.Sent(p.queue, m), p.delivered + [m])
  {
    assert [m][1..] == [];
    assert SendQueue.SentAll(p.queue, [m]) == SendQueue.SentAll(SendQueue.Sent(p.queue, m), []);
  }

  class Session {
    const head: MsgNode
    var body: MsgNode
    var headParsed: bool
    /** An asynchronous read is outstanding. */
    var reading: bool
    /** The server has dropped the session because of a length. */
    var cleared: bool
    var closed: bool
    var sendQueue: seq<seq<byte>>
    ghost var writeFailed: bool
    ghost var inFlight: seq<seq<byte>>
    ghost var accepted: seq<seq<byte>>
    ghost var completed: seq<seq<byte>>
    /** The messages that were complete, in order. */
    ghost var delivered: seq<seq<byte>>

    ghost predicate Shape()
      reads this, head, body
    {
      && head.Valid() && body.Valid() && head != body && head.data != body.data
      && head.total == HEAD_LENGTH
    }

    ghost predicate Valid()
      reads this, head, body
    {
      && Shape()
      && (!headParsed ==> head.cur < HEAD_LENGTH)
      && (headParsed ==> body.cur < body.total <= MAX_LENGTH)
    }

    /** What the receiver waits for. */
    ghost function State(): Recv
      reads this, head, head.data, body, body.data
      requires Shape()
    {
      if cleared then Dead
      else if headParsed then AwaitBody(body.total, body.data[..body.cur])
      else AwaitHead(head.data[..head.cur])
    }

    ghost function Queue(): SendQueue.Queue
      reads this
    {
      SendQueue.Queue(sendQueue, writeFailed, inFlight, accepted, completed)
    }

    ghost function Now(): Progress
      reads this, head, head.data, body, body.data
      requires Shape()
    {
      Progress(State(), Queue(), delivered)
    }

    constructor ()
      ensures Valid() && fresh(head) && fresh(head.data) && fresh(body) && fresh(body.data)
      ensures Now() == Progress(START, SendQueue.EMPTY, []) && reading && !cleared
    {
      head := new MsgNode(HEAD_LENGTH);
      body := new MsgNode(0);
      headParsed, reading, cleared, closed, writeFailed := false, true, false, false, false;
      sendQueue, inFlight, accepted, completed, delivered := [], [], [], [], [];
    }

    method Send(msg: seq<byte>)
      requires SendQueue.Inv(Queue())
      modifies this`sendQueue, this`inFlight, this`accepted
      ensures Queue() == SendQueue.Sent(old(Queue()), msg) && SendQueue.Inv(Queue())
    {
      SendQueue.InvSent(Queue(), msg);
      var size := |sendQueue|;
      if size > SendQueue.MAX_SENDQUE {
        return;
      }
      var node := new MsgNode.Framed(msg);
      var frame := node.data[..node.total];
      sendQueue := sendQueue + [frame];
      accepted := accepted + [frame];
      if size > 0 {
        assert inFlight + [] == inFlight;
        return;
      }
      inFlight := inFlight + [sendQueue[0]];
    }

    /** The completion of the oldest outstanding write. */
    method HandleWrite(error: bool)
      requires SendQueue.Inv(Queue()) && inFlight != []
      modifies this`sendQueue, this`inFlight, this`completed, this`closed, this`writeFailed
      ensures Queue() == SendQueue.Next(old(Queue()), if error then SendQueue.WriteFailed else SendQueue.WriteDone)
      ensures SendQueue.Inv(Queue())
    {
      SendQueue.InvStep(Queue(), if error then SendQueue.WriteFailed else SendQueue.WriteDone);
      if !error {
        completed := completed + [inFlight[0]];
        inFlight := inFlight[1..];
        sendQueue := sendQueue[1..];
        if sendQueue != [] {
          inFlight := inFlight + [sendQueue[0]];
        }
      } else {
        inFlight, writeFailed := inFlight[1..], true;
        closed := true;
      }
    }

    /** A whole message is in its node: it is echoed and the next header is awaited. */
    method Deliver()
      requires Shape() && SendQueue.Inv(Queue()) && !cleared && body.cur == body.total
      modifies this`headParsed, this`sendQueue, this`inFlight, this`accepted, this`delivered
      modifies head`cur, head.data, body.data
      ensures Valid() && State() == START && SendQueue.Inv(Queue())
      ensures delivered == old(delivered) + [old(body.data[..body.total])]
      ensures Queue() == SendQueue.Sent(old(Queue()), old(body.data[..body.total]))
    {
      body.data[body.total] := 0;
      var msg := body.data[..body.total];
      assert msg == old(body.data[..body.total]);
      delivered := delivered + [msg];
      Send(msg);
      headParsed := false;
      head.Clear();
      assert head.data[..0] == [];
    }

    /** The branch of the read loop for a header that is not yet whole. */
    method ReadHead(x: seq<byte>) returns (used: nat)
      requires Valid() && SendQueue.Inv(Queue()) && !cleared && !headParsed && !reading
      requires x != [] && !Run(State(), x).state.Negative?
      modifies this, head, head.data
      ensures Valid() && SendQueue.Inv(Queue()) && 0 < used <= |x|
      ensures body == old(body) || (fresh(body) && fresh(body.data))
      ensures Now() == After(old(Now()), x[..used])
      ensures reading <==> !cleared && used == |x|
    {
      if |x| + head.cur < HEAD_LENGTH {
        RunHeadShort(head.data[..head.cur], x);
        AfterNone(Now(), x);
        assert x[..|x|] == x;
        head.Fill(x);
        reading := true;
        return |x|;
      }
      used := ReadWholeHead(x);
    }

    /** The same branch when the header becomes whole. */
    method ReadWholeHead(x: seq<byte>) returns (used: nat)
      requires Valid() && SendQueue.Inv(Queue()) && !cleared && !headParsed && !reading
      requires |x| + head.cur >= HEAD_LENGTH && !Run(State(), x).state.Negative?
      modifies this, head, head.data
      ensures Valid() && SendQueue.Inv(Queue()) && 0 < used <= |x|
      ensures body == old(body) || (fresh(body) && fresh(body.data))
      ensures Now() == After(old(Now()), x[..used])
      ensures reading <==> !cleared && used == |x|
    {
      ghost var start := Now();
      var need := HEAD_LENGTH - head.cur;
      var len := CompleteHead(x[..need]);
      if len > MAX_LENGTH {
        Domain(start.recv, x, need, len);
        AfterNone(start, x[..need]);
        cleared := true;
        return need;
      }
      body := new MsgNode(len);
      ghost var behind := Now();
      var more := OpenBody(x[need..]);
      used := need + more;
      HeaderEnds(start, behind, x, need, len, more);
    }

    /** The rest of a header. */
    method CompleteHead(x: seq<byte>) returns (len: nat)
      requires Valid() && !cleared && !headParsed && head.cur + |x| == HEAD_LENGTH
      modifies head.data
      ensures Run(old(State()), x) == Opened(len)
    {
      RunHead(head.data[..head.cur], x);
      head.Copy(x);
      assert head.data[..2][0] == head.data[0] && head.data[..2][1] == head.data[1];
      len := Length(head.data[0], head.data[1]);
    }

    /** The start of the message whose header has just been read, or the whole of it. */
    method OpenBody(y: seq<byte>) returns (used: nat)
      requires Shape() && SendQueue.Inv(Queue()) && !cleared && !headParsed && !reading
      requires head.cur < HEAD_LENGTH && body.cur == 0 && body.total <= MAX_LENGTH
      modifies this`headParsed, this`reading, this`sendQueue, this`inFlight, this`accepted, this`delivered
      modifies head`cur, head.data, body`cur, body.data
      ensures Valid() && SendQueue.Inv(Queue()) && used <= |y|
      ensures reading <==> used == |y|
      ensures used <= body.total && Now() == Opening(old(Now()), body.total, y[..used])
    {
      if |y| < body.total {
        body.Fill(y);
        headParsed, reading := true, true;
        assert y[..|y|] == y == body.data[..0] + y;
        return |y|;
      }
      used := body.total;
      body.Fill(y[..used]);
      assert body.data[..used] == y[..used];
      Deliver();
      if used == |y| {
        reading := true;
      }
    }

    /** The branch for a message that is under way. */
    method ReadBody(x: seq<byte>) returns (used: nat)
      requires Valid() && SendQueue.Inv(Queue()) && !cleared && headParsed && !reading && x != []
      modifies this, head, head.data, body, body.data
      ensures Valid() && SendQueue.Inv(Queue()) && 0 < used <= |x| && body == old(body) && !cleared
      ensures Now() == After(old(Now()), x[..used])
      ensures reading <==> used == |x|
    {
      var remain := body.total - body.cur;
      ghost var sofar := body.data[..body.cur];
      if |x| < remain {
        RunBody(body.total, sofar, x);
        AfterNone(Now(), x);
        assert x[..|x|] == x;
        body.Fill(x);
        reading := true;
        return |x|;
      }
      RunBodyEnd(body.total, sofar, x[..remain]);
      AfterOne(Now(), x[..remain], sofar + x[..remain]);
      body.Fill(x[..remain]);
      Deliver();
      used := remain;
      if used == |x| {
        reading := true;
      }
    }

    /** The completion of a read. Without an error the handler does to the receiver, the queue
        and the log what the octets do one by one, and asks for the next read if there were any
        octets and none of them completed a length above the maximum. */
    method HandleRead(error: bool, chunk: seq<byte>)
      requires Valid() && SendQueue.Inv(Queue()) && reading && !cleared
      requires !Run(State(), chunk).state.Negative?
      modifies this, head, head.data, body, body.data
      ensures Valid() && SendQueue.Inv(Queue())
      ensures body == old(body) || (fresh(body) && fresh(body.data))
      ensures !error ==> Now() == After(old(Now()), chunk)
      ensures !error ==> (reading <==> chunk != [] && !cleared)
      ensures error ==> closed && !reading && !cleared && Now() == old(Now())
    {
      reading := false;
      if error {
        closed := true;
        return;
      }
      ghost var start := Now();
      var at := 0;
      AfterNone(start, chunk[..0]);
      while at < |chunk| && !cleared
        invariant at <= |chunk| && Valid() && SendQueue.Inv(Queue())
        invariant body == old(body) || (fresh(body) && fresh(body.data))
        invariant Now() == After(start, chunk[..at])
        invariant reading <==> 0 < at == |chunk| && !cleared
      {
        at := ReadSome(chunk, at, start);
      }
      AfterAll(start, chunk, at);
    }

    /** One turn of the loop. */
    method ReadSome(chunk: seq<byte>, at: nat, ghost start: Progress) returns (end: nat)
      requires Valid() && SendQueue.Inv(Queue()) && !cleared && !reading && at < |chunk|
      requires Now() == After(start, chunk[..at]) && !Run(start.recv, chunk).state.Negative?
      modifies this, head, head.data, body, body.data
      ensures Valid() && SendQueue.Inv(Queue()) && at < end <= |chunk|
      ensures body == old(body) || (fresh(body) && fresh(body.data))
      ensures Now() == After(start, chunk[..end])
      ensures reading <==> !cleared && end == |chunk|
    {
      Onward(start.recv, chunk, at);
      var used;
      if !headParsed {
        used := ReadHead(chunk[at..]);
      } else {
        used := ReadBody(chunk[at..]);
      }
      end := at + used;
      Slices(chunk, at, used);
      AfterConcat(start, chunk[..at], chunk[at..][..used]);
    }
  }

  /** The octets behind a length above the maximum change nothing. */
  lemma AfterAll(p: Progress, chunk: seq<byte>, at: nat)
    requires at <= |chunk| && (at == |chunk| || After(p, chunk[..at]).recv.Dead?)
    ensures After(p, chunk) == After(p, chunk[..at])
  {
    assert chunk[..at] + chunk[at..] == chunk;
    if at < |chunk| {
      var q := After(p, chunk[..at]);
      RunStuck(q.recv, chunk[at..]);
      AfterNone(q, chunk[at..]);
      AfterConcat(p, chunk[..at], chunk[at..]);
    } else {
      assert chunk[..at] == chunk;
    }
  }

  /** Behind the header of a message of length `len`, of which y has come. */
  function Opening(p: Progress, len: nat, y: seq<byte>): Progress {
    if |y| < len then p.(recv := AwaitBody(len, y))
    else Progress(START, SendQueue.Sent(p.queue, y), p.delivered + [y])
  }

  /** A header and as much of its message as has come. */
  lemma HeaderThen(p: Progress, h: seq<byte>, len: nat, y: seq<byte>)
    requires Run(p.recv, h) == Opened(len) && |y| <= len <= MAX_LENGTH
    ensures After(p, h + y) == Opening(p, len, y)
  {
    HeaderRun(p.recv, h, len, y);
    if |y| < len {
      AfterNone(p, h + y);
    } else {
      AfterOne(p, h + y, y);
    }
  }

  lemma HeaderEnds(p: Progress, q: Progress, x: seq<byte>, need: nat, len: nat, more: nat)
    requires need + more <= |x| && more <= len <= MAX_LENGTH && Run(p.recv, x[..need]) == Opened(len)
    requires q.queue == p.queue && q.delivered == p.delivered
    ensures Opening(q, len, x[need..][..more]) == After(p, x[..need + more])
  {
    HeaderThen(p, x[..need], len, x[need..][..more]);
    Slices(x, need, more);
  }

  lemma HeaderRun(s: Recv, h: seq<byte>, len: nat, y: seq<byte>)
    requires Run(s, h) == Opened(len) && |y| <= len <= MAX_LENGTH
    ensures Run(s, h + y) == if |y| < len then Outcome(AwaitBody(len, y), []) else Outcome(START, [y])
  {
    RunConcat(s, h, y);
    assert [] + y == y && [] + [y] == [y];
    if |y| < len {
      RunBody(len, [], y);
    } else if len > 0 {
      RunBodyEnd(len, [], y);
    } else {
      assert [y] + [] == [y];
    }
  }

  lemma Onward(s: Recv, chunk: seq<byte>, at: nat)
    requires at <= |chunk|
    ensures Run(s, chunk).state == Run(Run(s, chunk[..at]).state, chunk[at..]).state
  {
    RunConcat(s, chunk[..at], chunk[at..]);
    assert chunk == chunk[..at] + chunk[at..];
  }

  lemma Slices(x: seq<byte>, n: nat, k: nat)
    requires n + k <= |x|
    ensures x[..n + k] == x[..n] + x[n..][..k]
  {
  }

  lemma Domain(s: Recv, x: seq<byte>, n: nat, len: nat)
    requires n <= |x| && Run(s, x[..n]) == Opened(len) && !Run(s, x).state.Negative?
    ensures len < 0x8000
  {
    RunConcat(s, x[..n], x[n..]);
    assert x == x[..n] + x[n..];
    if len >= 0x8000 {
      RunStuck(Negative, x[n..]);
    }
  }
}
