/** The receive loop of the chat client. */
module ChatClient {
  import opened Bytes
  import opened TextFields
  import opened ChatMessage

  /** The message that a line holds; an empty line or one without a message is passed over. */
  function Meaning(l: string, now: int64): seq<Message> {
    var m := Deserialized(l, now);
    if l != "" && m.Some? then [m.value] else []
  }

  function Handled(ls: seq<string>, now: int64): seq<Message> {
    if ls == [] then [] else Meaning(ls[0], now) + Handled(ls[1..], now)
  }

  lemma {:induction false} HandledConcat(a: seq<string>, b: seq<string>, now: int64)
    ensures Handled(a + b, now) == Handled(a, now) + Handled(b, now)
  {
    if a == [] {
      assert a + b == b;
    } else {
      assert (a + b)[1..] == a[1..] + b;
      HandledConcat(a[1..], b, now);
      Assoc(Meaning(a[0], now), Handled(a[1..], now), Handled(b, now));
    }
  }

  lemma HandledOne(l: string, now: int64)
    ensures Handled([l], now) == Meaning(l, now)
  {
    assert [l][1..] == [];
    assert Meaning(l, now) + [] == Meaning(l, now);
  }

  /** The lines of `data` are `done` and those of `left`, and `got` is what `done` adds to `had`. */
  ghost predicate Progress(data: string, done: seq<string>, left: string, had: seq<Message>, got: seq<Message>,
                           now: int64) {
    && Split(data) == Lines(done + Split(left).whole, Split(left).rest)
    && got == had + Handled(done, now)
  }

  lemma ProgressStart(data: string, had: seq<Message>, now: int64)
    ensures Progress(data, [], data, had, had, now)
  {
    assert [] + Split(data).whole == Split(data).whole;
  }

  lemma ProgressMore(data: string, done: seq<string>, left: string, had: seq<Message>, got: seq<Message>, now: int64)
    requires Progress(data, done, left, had, got, now) && '\n' in left
    ensures Progress(data, done + [Before(left, '\n')], After(left, '\n'), had,
                     got + Meaning(Before(left, '\n'), now), now)
  {
    var l := Before(left, '\n');
    HandledConcat(done, [l], now);
    HandledOne(l, now);
    Assoc(done, [l], Split(After(left, '\n')).whole);
    Assoc(had, Handled(done, now), Meaning(l, now));
  }

  lemma ProgressEnd(data: string, done: seq<string>, left: string, had: seq<Message>, got: seq<Message>, now: int64)
    requires Progress(data, done, left, had, got, now) && '\n' !in left
    ensures left == Split(data).rest && got == had + Handled(Split(data).whole, now)
  {
    assert done + [] == done;
  }

  class ChatClient {
    var receivedData: string
    /** The messages passed on, in order. */
    var handled: seq<Message>

    constructor ()
      ensures receivedData == "" && handled == []
    {
      receivedData := "";
      handled := [];
    }

    /** One successful receive. */
    method Receive(chunk: string, now: int64)
      modifies this
      ensures receivedData == Split(old(receivedData) + chunk).rest
      ensures handled == old(handled) + Handled(Split(old(receivedData) + chunk).whole, now)
    {
      receivedData := receivedData + chunk;
      ghost var data, had, done := receivedData, handled, [];
      ProgressStart(data, had, now);
      while '\n' in receivedData
        invariant Progress(data, done, receivedData, had, handled, now)
        decreases |receivedData|
      {
        ProgressMore(data, done, receivedData, had, handled, now);
        var messageData := Before(receivedData, '\n');
        receivedData := After(receivedData, '\n');
        HandleLine(messageData, now);
        done := done + [messageData];
      }
      ProgressEnd(data, done, receivedData, had, handled, now);
    }

    method HandleLine(messageData: string, now: int64)
      modifies this`handled
      ensures handled == old(handled) + Meaning(messageData, now)
    {
      if messageData != "" {
        var m := Deserialize(messageData, now);
        if m.Some? {
          handled := handled + [m.value];
        }
      }
    }
  }

  /** What receives one after another pass on, each with its time of day, and what they keep. */
  function Received(rest: string, chunks: seq<string>, nows: seq<int64>): (seq<Message>, string)
    requires |chunks| == |nows|
    decreases |chunks|
  {
    if chunks == [] then ([], rest) else
      var lines := Split(rest + chunks[0]);
      var (later, left) := Received(lines.rest, chunks[1..], nows[1..]);
      (Handled(lines.whole, nows[0]) + later, left)
  }

  lemma ReceivedNext(had: seq<Message>, rest: string, chunks: seq<string>, nows: seq<int64>, i: nat)
    requires i < |chunks| == |nows|
    ensures var lines := Split(rest + chunks[i]);
            var before := Received(rest, chunks[i..], nows[i..]);
            var later := Received(lines.rest, chunks[i + 1..], nows[i + 1..]);
            had + before.0 == had + Handled(lines.whole, nows[i]) + later.0 && before.1 == later.1
  {
    var lines := Split(rest + chunks[i]);
    assert chunks[i..][1..] == chunks[i + 1..] && nows[i..][1..] == nows[i + 1..];
    Assoc(had, Handled(lines.whole, nows[i]), Received(lines.rest, chunks[i + 1..], nows[i + 1..]).0);
  }

  /** A client through its receives, from the first to the last. */
  method ReceiveAll(chunks: seq<string>, nows: seq<int64>) returns (handled: seq<Message>, rest: string)
    requires |chunks| == |nows|
    ensures handled == Received("", chunks, nows).0 && rest == Received("", chunks, nows).1
  {
    var client := new ChatClient();
    ghost var all := Received(client.receivedData, chunks, nows);
    assert chunks[0..] == chunks && nows[0..] == nows;
    assert client.handled + all.0 == all.0;
    for i := 0 to |chunks|
      invariant client.handled + Received(client.receivedData, chunks[i..], nows[i..]).0 == all.0
      invariant Received(client.receivedData, chunks[i..], nows[i..]).1 == all.1
    {
      ReceivedNext(client.handled, client.receivedData, chunks, nows, i);
      client.Receive(chunks[i], nows[i]);
    }
    assert client.handled + [] == client.handled;
    return client.handled, client.receivedData;
  }

  /** A line that means the same at any time of day. */
  ghost predicate Timeless(l: string) {
    forall now: int64 :: Meaning(l, now) == Meaning(l, 0)
  }

  ghost predicate AllTimeless(ls: seq<string>) {
    forall i | 0 <= i < |ls| :: Timeless(ls[i])
  }

  lemma {:induction false} HandledTimeless(ls: seq<string>, now: int64)
    requires AllTimeless(ls)
    ensures Handled(ls, now) == Handled(ls, 0)
  {
    if ls != [] {
      assert Timeless(ls[0]);
      HandledTimeless(ls[1..], now);
    }
  }

  /** What is kept does not depend on the cuts, nor do the messages of lines that mean the same at
      any time. */
  lemma {:induction false} ReceivedWhole(rest: string, chunks: seq<string>, nows: seq<int64>)
    requires |chunks| == |nows| && '\n' !in rest
    ensures Received(rest, chunks, nows).1 == Split(rest + Flatten(chunks)).rest
    ensures AllTimeless(Split(rest + Flatten(chunks)).whole) ==>
              Received(rest, chunks, nows).0 == Handled(Split(rest + Flatten(chunks)).whole, 0)
    decreases |chunks|
  {
    if chunks == [] {
      assert rest + Flatten(chunks) == rest;
    } else {
      var later := Flatten(chunks[1..]);
      var lines := Split(rest + chunks[0]);
      Assoc(rest, chunks[0], later);
      SplitConcat(rest + chunks[0], later);
      SplitJoins(rest + chunks[0]);
      ReceivedWhole(lines.rest, chunks[1..], nows[1..]);
      var more := Split(lines.rest + later).whole;
      HandledConcat(lines.whole, more, 0);
      if AllTimeless(lines.whole + more) {
        TimelessParts(lines.whole, more);
        HandledTimeless(lines.whole, nows[0]);
      }
    }
  }

  lemma TimelessParts(a: seq<string>, b: seq<string>)
    requires AllTimeless(a + b)
    ensures AllTimeless(a) && AllTimeless(b)
  {
    forall i | 0 <= i < |a| ensures Timeless(a[i]) {
      assert (a + b)[i] == a[i];
    }
    forall i | 0 <= i < |b| ensures Timeless(b[i]) {
      assert (a + b)[|a| + i] == b[i];
    }
  }

  // ---------------------------------------------------------------- what a stream of messages means

  function Serialized(ms: seq<Message>): (ls: seq<string>)
    ensures |ls| == |ms|
  {
    if ms == [] then [] else [Serialize(ms[0])] + Serialized(ms[1..])
  }

  /** Every message with a line break after it. */
  function Wire(ms: seq<Message>): string {
    Joined(Serialized(ms))
  }

  predicate Sendable(m: Message) {
    && '|' !in m.sender && '|' !in m.receiver
    && '\n' !in m.sender && '\n' !in m.receiver && '\n' !in m.content
  }

  lemma SerializeLine(m: Message)
    requires Sendable(m)
    ensures '\n' !in Serialize(m) && Serialize(m) != ""
  {
    PrintPlain(m.kind, '\n');
    PrintPlain(m.timestamp, '\n');
  }

  lemma MeaningSerialized(m: Message, now: int64)
    requires Sendable(m)
    ensures Meaning(Serialize(m), now) == [m]
  {
    SerializeLine(m);
    RoundTrip(m, now);
  }

  lemma {:induction false} HandledSerialized(ms: seq<Message>, now: int64)
    requires forall m | m in ms :: Sendable(m)
    ensures Handled(Serialized(ms), now) == ms && NoBreaks(Serialized(ms))
  {
    if ms != [] {
      assert Sendable(ms[0]);
      SerializeLine(ms[0]);
      MeaningSerialized(ms[0], now);
      HandledSerialized(ms[1..], now);
      HandledConcat([Serialize(ms[0])], Serialized(ms[1..]), now);
      HandledOne(Serialize(ms[0]), now);
      assert [ms[0]] + ms[1..] == ms;
    }
  }

  lemma {:induction false} SerializedTimeless(ms: seq<Message>)
    requires forall m | m in ms :: Sendable(m)
    ensures AllTimeless(Serialized(ms))
  {
    if ms != [] {
      assert Sendable(ms[0]);
      forall now: int64 ensures Meaning(Serialize(ms[0]), now) == Meaning(Serialize(ms[0]), 0) {
        MeaningSerialized(ms[0], now);
        MeaningSerialized(ms[0], 0);
      }
      SerializedTimeless(ms[1..]);
    }
  }

  lemma WireDecodes(ms: seq<Message>)
    requires forall m | m in ms :: Sendable(m)
    ensures Split(Wire(ms)) == Lines(Serialized(ms), "") && Handled(Split(Wire(ms)).whole, 0) == ms
    ensures AllTimeless(Split(Wire(ms)).whole)
  {
    HandledSerialized(ms, 0);
    SerializedTimeless(ms);
    assert Wire(ms) + "" == Wire(ms);
    SplitUnique(Serialized(ms), "");
  }

  /** Fields are parts of their line. */
  lemma PartsClean(s: string, d: char)
    requires '\n' !in s
    ensures '\n' !in Before(s, d) && '\n' !in After(s, d)
  {
  }

  lemma LineClean(l: string, now: int64)
    requires '\n' !in l && Deserialized(l, now).Some?
    ensures Sendable(Deserialized(l, now).value)
  {
    var r1 := After(l, '|');
    var r2 := After(r1, '|');
    PartsClean(l, '|');
    PartsClean(r1, '|');
    PartsClean(r2, '|');
    FieldsClean(l, now);
  }

  lemma {:induction false} HandledClean(ls: seq<string>, now: int64)
    requires NoBreaks(ls)
    ensures forall m | m in Handled(ls, now) :: Sendable(m)
  {
    if ls != [] {
      HandledClean(ls[1..], now);
      if Deserialized(ls[0], now).Some? {
        LineClean(ls[0], now);
      }
    }
  }

  lemma {:induction false} ReceivedClean(rest: string, chunks: seq<string>, nows: seq<int64>)
    requires |chunks| == |nows|
    ensures forall m | m in Received(rest, chunks, nows).0 :: Sendable(m)
    decreases |chunks|
  {
    if chunks != [] {
      var lines := Split(rest + chunks[0]);
      SplitJoins(rest + chunks[0]);
      HandledClean(lines.whole, nows[0]);
      ReceivedClean(lines.rest, chunks[1..], nows[1..]);
    }
  }

  /** However the stream of a list of messages is cut into receives, and whenever these come, the
      client passes on exactly that list if and only if no name holds a bar and no field holds a
      line break. */
  lemma WireExactly(ms: seq<Message>, chunks: seq<string>, nows: seq<int64>)
    requires |chunks| == |nows| && Flatten(chunks) == Wire(ms)
    ensures Received("", chunks, nows).0 == ms <==> forall m | m in ms :: Sendable(m)
    ensures (forall m | m in ms :: Sendable(m)) ==> Received("", chunks, nows).1 == ""
  {
    ReceivedClean("", chunks, nows);
    if forall m | m in ms :: Sendable(m) {
      WireDecodes(ms);
      assert "" + Flatten(chunks) == Wire(ms);
      ReceivedWhole("", chunks, nows);
    }
  }
}
