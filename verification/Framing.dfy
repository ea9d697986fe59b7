/** Length-prefixed messages on a byte stream: a two-octet length, most significant octet first,
  then that many octets. The receiver is given octet by octet, so it does not depend on how the
  stream is cut into reads.
 */
module Framing {
  import opened Bytes

  const HEAD_LENGTH: nat := 2
  const MAX_LENGTH: nat := 2048

  /** What a receiver waits for. A length above the maximum ends the session. A length whose top
      bit is set is a negative number to the receiver, which is outside its domain. */
  datatype Recv = AwaitHead(head: seq<byte>) | AwaitBody(len: nat, body: seq<byte>) | Dead | Negative

  datatype Outcome = Outcome(state: Recv, delivered: seq<seq<byte>>)

  const START := AwaitHead([])

  predicate Proper(s: Recv) {
    && (s.AwaitHead? ==> |s.head| < HEAD_LENGTH)
    && (s.AwaitBody? ==> |s.body| < s.len <= MAX_LENGTH)
  }

  function Length(b0: byte, b1: byte): nat {
    b0 as int * 256 + b1
  }

  /** The state behind a header with length `len`. An empty message is complete at once. */
  function Opened(len: nat): Outcome {
    if len >= 0x8000 then Outcome(Negative, [])
    else if len > MAX_LENGTH then Outcome(Dead, [])
    else if len == 0 then Outcome(START, [[]])
    else Outcome(AwaitBody(len, []), [])
  }

  function Next(s: Recv, x: byte): Outcome {
    match s
    case AwaitHead(head) =>
      if |head| != 1 then Outcome(AwaitHead([x]), []) else Opened(Length(head[0], x))
    case AwaitBody(len, body) =>
      if |body| + 1 < len then Outcome(AwaitBody(len, body + [x]), []) else Outcome(START, [body + [x]])
    case _ => Outcome(s, [])
  }

  function Run(s: Recv, x: seq<byte>): Outcome
    decreases |x|
  {
    if x == [] then Outcome(s, []) else
      var first := Next(s, x[0]);
      var rest := Run(first.state, x[1..]);
      Outcome(rest.state, first.delivered + rest.delivered)
  }

  function Frame(m: seq<byte>): seq<byte> {
    [|m| / 256 % 256, |m| % 256] + m
  }

  function Frames(ms: seq<seq<byte>>): seq<byte> {
    if ms == [] then [] else Frame(ms[0]) + Frames(ms[1..])
  }

  predicate Fit(ms: seq<seq<byte>>) {
    forall i | 0 <= i < |ms| :: |ms[i]| <= MAX_LENGTH
  }

  // ---------------------------------------------------------------- reading in pieces

  lemma {:induction false} RunConcat(s: Recv, x: seq<byte>, y: seq<byte>)
    ensures var first := Run(s, x);
            var rest := Run(first.state, y);
            Run(s, x + y) == Outcome(rest.state, first.delivered + rest.delivered)
    decreases |x|
  {
    if x == [] {
      assert x + y == y;
    } else {
      assert (x + y)[1..] == x[1..] + y;
      RunConcat(Next(s, x[0]).state, x[1..], y);
    }
  }

  lemma {:induction false} RunStuck(s: Recv, x: seq<byte>)
    requires s.Dead? || s.Negative?
    ensures Run(s, x) == Outcome(s, [])
    decreases |x|
  {
    if x != [] {
      RunStuck(s, x[1..]);
    }
  }

  /** Part of a message. */
  lemma {:induction false} RunBody(len: nat, body: seq<byte>, x: seq<byte>)
    requires |body| + |x| < len
    ensures Run(AwaitBody(len, body), x) == Outcome(AwaitBody(len, body + x), [])
    decreases |x|
  {
    if x == [] {
      assert body + x == body;
    } else {
      NextBody(len, body, x[0]);
      RunBody(len, body + [x[0]], x[1..]);
      MoveOne(body, x);
    }
  }

  lemma NextBody(len: nat, body: seq<byte>, x: byte)
    requires |body| + 1 < len
    ensures Next(AwaitBody(len, body), x) == Outcome(AwaitBody(len, body + [x]), [])
  {
  }

  lemma MoveOne(a: seq<byte>, x: seq<byte>)
    requires x != []
    ensures a + [x[0]] + x[1..] == a + x
  {
  }

  /** The rest of a message. */
  lemma RunBodyEnd(len: nat, body: seq<byte>, x: seq<byte>)
    requires |body| < len == |body| + |x|
    ensures Run(AwaitBody(len, body), x) == Outcome(START, [body + x])
  {
    var n := |x| - 1;
    RunBody(len, body, x[..n]);
    RunConcat(AwaitBody(len, body), x[..n], [x[n]]);
    assert x == x[..n] + [x[n]];
    assert body + x[..n] + [x[n]] == body + x;
    RunOne(AwaitBody(len, body + x[..n]), x[n]);
  }

  lemma RunOne(s: Recv, x: byte)
    ensures Run(s, [x]) == Next(s, x)
  {
    assert [x][1..] == [];
    assert Next(s, x).delivered + [] == Next(s, x).delivered;
  }

  /** The rest of a header. */
  lemma RunHead(head: seq<byte>, x: seq<byte>)
    requires |head| < HEAD_LENGTH == |head| + |x|
    ensures Run(AwaitHead(head), x) == Opened(Length((head + x)[0], (head + x)[1]))
  {
    if |head| == 1 {
      assert x == [x[0]];
      RunOne(AwaitHead(head), x[0]);
    } else {
      assert head + x == x == [x[0]] + [x[1]];
      RunConcat(AwaitHead(head), [x[0]], [x[1]]);
      RunOne(AwaitHead(head), x[0]);
      RunOne(AwaitHead([x[0]]), x[1]);
    }
  }

  /** Part of a header. */
  lemma RunHeadShort(head: seq<byte>, x: seq<byte>)
    requires |head| + |x| < HEAD_LENGTH
    ensures Run(AwaitHead(head), x) == Outcome(AwaitHead(head + x), [])
  {
    if x == [] {
      assert head + x == head;
    } else {
      assert x == [x[0]] && head + x == x;
      RunOne(AwaitHead(head), x[0]);
    }
  }

  /** A whole message of length n, its header included. */
  lemma RunMessage(b0: byte, b1: byte, m: seq<byte>)
    requires Length(b0, b1) == |m| <= MAX_LENGTH
    ensures Run(START, [b0, b1] + m) == Outcome(START, [m])
  {
    RunHead([], [b0, b1]);
    assert [] + [b0, b1] == [b0, b1];
    RunConcat(START, [b0, b1], m);
    if m != [] {
      RunBodyEnd(|m|, [], m);
      assert [] + m == m;
      assert [] + [m] == [m];
    } else {
      assert [m] + [] == [m];
    }
  }

  // ---------------------------------------------------------------- frames

  /** A frame is the length of the message, most significant octet first, and the message. */
  lemma FrameLayout(m: seq<byte>)
    requires |m| < 0x10000
    ensures |Frame(m)| == 2 + |m| && 256 * (Frame(m)[0] as int) + Frame(m)[1] as int == |m| && Frame(m)[2..] == m
  {
  }

  /** A frame decodes to its message. */
  lemma FrameDecodes(m: seq<byte>)
    requires |m| <= MAX_LENGTH
    ensures Run(START, Frame(m)) == Outcome(START, [m])
  {
    RunMessage(|m| / 256 % 256, |m| % 256, m);
  }

  /** Every list of messages of at most the maximal length, the empty ones included, is delivered
      as it is. */
  lemma {:induction false} FramesDecode(ms: seq<seq<byte>>)
    requires Fit(ms)
    ensures Run(START, Frames(ms)) == Outcome(START, ms)
    decreases |ms|
  {
    if ms != [] {
      FrameDecodes(ms[0]);
      FramesDecode(ms[1..]);
      RunConcat(START, Frame(ms[0]), Frames(ms[1..]));
      assert [ms[0]] + ms[1..] == ms;
    }
  }

  /** A length above the maximum, after any messages and before anything else, ends the session
      with those messages delivered. */
  lemma TooLongEnds(ms: seq<seq<byte>>, b0: byte, b1: byte, y: seq<byte>)
    requires (forall m <- ms :: |m| <= 2048) && 2048 < 256 * (b0 as int) + b1 as int < 0x8000
    ensures Run(START, Frames(ms) + ([b0, b1] + y)) == Outcome(Dead, ms)
  {
    FramesDecode(ms);
    RunConcat(START, Frames(ms), [b0, b1] + y);
    RunConcat(START, [b0, b1], y);
    RunHead([], [b0, b1]);
    assert [] + [b0, b1] == [b0, b1];
    RunStuck(Dead, y);
    assert ms + [] == ms;
  }

  // ---------------------------------------------------------------- nothing is lost

  /** The octets taken since the last whole message. */
  function Partial(s: Recv): seq<byte> {
    match s
    case AwaitHead(head) => head
    case AwaitBody(len, body) => [len / 256 % 256, len % 256] + body
    case _ => []
  }

  lemma {:induction false} FramesConcat(a: seq<seq<byte>>, b: seq<seq<byte>>)
    ensures Frames(a + b) == Frames(a) + Frames(b)
  {
    if a == [] {
      assert a + b == b;
    } else {
      assert (a + b)[1..] == a[1..] + b;
      FramesConcat(a[1..], b);
    }
  }

  /** One octet: what is delivered and what is kept is what was kept and the octet. */
  lemma NextConserves(s: Recv, x: byte)
    requires Proper(s) && Alive(Next(s, x).state)
    ensures Partial(s) + [x] == Frames(Next(s, x).delivered) + Partial(Next(s, x).state)
    ensures Proper(Next(s, x).state) && Fit(Next(s, x).delivered)
  {
    if s.AwaitHead? && |s.head| == 1 {
      OpenedConserves(s.head[0], x);
      assert s.head == [s.head[0]];
    } else if s.AwaitBody? && |s.body| + 1 == s.len {
      FramesOne(s.body + [x]);
    } else {
      assert Frames([]) == [];
    }
  }

  lemma FramesOne(m: seq<byte>)
    ensures Frames([m]) == Frame(m)
  {
    assert Frames([m]) == Frame(m) + Frames([]);
  }

  lemma OpenedConserves(b0: byte, b1: byte)
    requires Alive(Opened(Length(b0, b1)).state)
    ensures [b0, b1] == Frames(Opened(Length(b0, b1)).delivered) + Partial(Opened(Length(b0, b1)).state)
  {
    var len := Length(b0, b1);
    assert len / 256 == b0 && len % 256 == b1;
    FramesOne([]);
    assert Frames([]) == [];
  }

  predicate Alive(s: Recv) {
    !s.Dead? && !s.Negative?
  }

  lemma AliveBefore(s: Recv, x: seq<byte>)
    requires Alive(Run(s, x).state)
    ensures Alive(s)
  {
    if !Alive(s) {
      RunStuck(s, x);
    }
  }

  lemma Glue(p: seq<byte>, x: seq<byte>, y: seq<byte>, f: seq<byte>, q: seq<byte>, g: seq<byte>, r: seq<byte>)
    requires p + x == f + q && q + y == g + r
    ensures p + (x + y) == f + g + r
  {
    assert p + (x + y) == p + x + y == f + (q + y);
    assert f + (g + r) == f + g + r;
  }

  lemma FitConcat(a: seq<seq<byte>>, b: seq<seq<byte>>)
    requires Fit(a) && Fit(b)
    ensures Fit(a + b)
  {
  }

  /** While the session lives, the stream so far is the frames of the messages delivered and the
      octets of the one under way. */
  lemma {:induction false} StreamConserved(s: Recv, x: seq<byte>)
    requires Proper(s) && Alive(Run(s, x).state)
    ensures Partial(s) + x == Frames(Run(s, x).delivered) + Partial(Run(s, x).state)
    ensures Fit(Run(s, x).delivered)
    decreases |x|
  {
    if x == [] {
      assert Frames([]) == [];
    } else {
      var n := Next(s, x[0]);
      var r := Run(n.state, x[1..]);
      AliveBefore(n.state, x[1..]);
      NextConserves(s, x[0]);
      StreamConserved(n.state, x[1..]);
      FramesConcat(n.delivered, r.delivered);
      FitConcat(n.delivered, r.delivered);
      Glue(Partial(s), [x[0]], x[1..], Frames(n.delivered), Partial(n.state), Frames(r.delivered), Partial(r.state));
      assert x == [x[0]] + x[1..];
    }
  }
}
