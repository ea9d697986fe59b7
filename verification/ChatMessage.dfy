/** Chat messages: five fields with a bar between them, one message a line. */
module ChatMessage {
  import opened Bytes
  import opened TextFields

  datatype Message = Message(kind: int32, sender: string, receiver: string, content: string, timestamp: int64)

  const CHAT_PUBLIC: int32 := 3

  function Serialize(m: Message): string {
    Print(m.kind) + "|" + m.sender + "|" + m.receiver + "|" + m.content + "|" + Print(m.timestamp)
  }

  /** The last place of a character. */
  function LastIndex(s: string, c: char): (i: nat)
    requires c in s
    ensures i < |s| && s[i] == c && c !in s[i + 1..]
  {
    if s[|s| - 1] == c then |s| - 1 else
      assert s == s[..|s| - 1] + [s[|s| - 1]];
      var i := LastIndex(s[..|s| - 1], c);
      assert s[i + 1..] == s[..|s| - 1][i + 1..] + [s[|s| - 1]];
      i
  }

  /** Content and time stamp: the last bar divides them. A time stamp that is missing or is not a
      number is replaced by the time of day. */
  function SplitContent(r: string, now: int64): (string, int64) {
    if '|' !in r then (r, now) else
      var i := LastIndex(r, '|');
      var t := ReadInt64(r[i + 1..]);
      (r[..i], if t.None? then now else t.value)
  }

  /** The fields behind the first. */
  function Fields(kind: int32, s: string, now: int64): Message {
    var r := After(s, '|');
    var (content, timestamp) := SplitContent(Before(After(r, '|'), '\n'), now);
    Message(kind, Before(s, '|'), Before(r, '|'), content, timestamp)
  }

  /** What a line means; nothing if its first field is not a number. */
  function Deserialized(data: string, now: int64): Option<Message> {
    var kind := if data == "" then Some(CHAT_PUBLIC) else ReadInt32(Before(data, '|'));
    if kind.None? then None else Some(Fields(kind.value, After(data, '|'), now))
  }

  method Deserialize(data: string, now: int64) returns (r: Option<Message>)
    ensures r == Deserialized(data, now)
  {
    var kind: int32 := CHAT_PUBLIC;
    var iss := new Stream(data);
    var ok, token := iss.GetLine('|');
    if ok {
      var number := ReadInt32(token);
      if number.None? {
        return None;
      }
      kind := number.value;
    }
    var msg := ReadFields(kind, iss, now);
    r := Some(msg);
  }

  method ReadFields(kind: int32, iss: Stream, now: int64) returns (msg: Message)
    modifies iss
    ensures msg == Fields(kind, old(iss.rest), now)
  {
    msg := Message(kind, "", "", "", now);
    var ok, token := iss.GetLine('|');
    if ok {
      msg := msg.(sender := token);
    }
    ok, token := iss.GetLine('|');
    if ok {
      msg := msg.(receiver := token);
    }
    var remaining;
    ok, remaining := iss.GetLine('\n');
    var content, timestamp := ContentOf(remaining, now);
    msg := msg.(content := content, timestamp := timestamp);
  }

  method ContentOf(remaining: string, now: int64) returns (content: string, timestamp: int64)
    ensures (content, timestamp) == SplitContent(remaining, now)
  {
    if '|' in remaining {
      var i := LastIndex(remaining, '|');
      content := remaining[..i];
      var t := ReadInt64(remaining[i + 1..]);
      timestamp := if t.None? then now else t.value;
    } else {
      content, timestamp := remaining, now;
    }
  }

  // ---------------------------------------------------------------- round trip

  lemma {:induction false} LastIndexIs(s: string, c: char, n: nat)
    requires n < |s| && s[n] == c && c !in s[n + 1..]
    ensures LastIndex(s, c) == n
  {
    if n < |s| - 1 {
      var t := s[..|s| - 1];
      assert s[n + 1..] == t[n + 1..] + [s[|s| - 1]];
      LastIndexIs(t, c, n);
    }
  }

  lemma SplitBack(content: string, timestamp: int64, now: int64)
    ensures SplitContent(content + "|" + Print(timestamp), now) == (content, timestamp)
  {
    PrintPlain(timestamp, '|');
    PrintRead(timestamp);
    SplitMeans(content, Print(timestamp), now);
  }

  /** A message survives the trip exactly when neither name holds a bar and the content holds no
      line break; the content may hold bars. */
  lemma RoundTripExactly(m: Message, now: int64)
    ensures Deserialized(Serialize(m), now) == Some(m) <==>
            '|' !in m.sender && '|' !in m.receiver && '\n' !in m.content
  {
    if '|' !in m.sender && '|' !in m.receiver && '\n' !in m.content {
      RoundTrip(m, now);
    } else {
      FieldsClean(Serialize(m), now);
    }
  }

  /** No message that is read holds those characters. */
  lemma FieldsClean(data: string, now: int64)
    ensures var r := Deserialized(data, now);
            r.Some? ==> '|' !in r.value.sender && '|' !in r.value.receiver && '\n' !in r.value.content
  {
  }

  lemma Nested(a: string, b: string, c: string, d: string)
    ensures a + "|" + b + "|" + c + "|" + d == a + "|" + (b + "|" + (c + "|" + d))
  {
    assert a + "|" + b + "|" + c + "|" + d == a + "|" + b + "|" + (c + "|" + d);
    assert a + "|" + b + "|" + (c + "|" + d) == a + "|" + (b + "|" + (c + "|" + d));
  }

  lemma ThreeFields(a: string, b: string, c: string, d: string)
    requires '|' !in a && '|' !in b && '|' !in c
    ensures var s := a + "|" + b + "|" + c + "|" + d;
            && Before(s, '|') == a && Before(After(s, '|'), '|') == b
            && Before(After(After(s, '|'), '|'), '|') == c && After(After(After(s, '|'), '|'), '|') == d
  {
    Nested(a, b, c, d);
    BeforeAfter(a, '|', b + "|" + (c + "|" + d));
    BeforeAfter(b, '|', c + "|" + d);
    BeforeAfter(c, '|', d);
  }

  lemma SerializedAs(m: Message)
    ensures Serialize(m) ==
            Print(m.kind) + "|" + m.sender + "|" + m.receiver + "|" + (m.content + "|" + Print(m.timestamp))
  {
    var a := Print(m.kind) + "|" + m.sender + "|" + m.receiver + "|";
    assert a + m.content + "|" + Print(m.timestamp) == a + (m.content + "|" + Print(m.timestamp));
  }

  lemma RoundTrip(m: Message, now: int64)
    requires '|' !in m.sender && '|' !in m.receiver && '\n' !in m.content
    ensures Deserialized(Serialize(m), now) == Some(m)
  {
    var end := m.content + "|" + Print(m.timestamp);
    SerializedAs(m);
    PrintPlain(m.kind, '|');
    PrintRead(m.kind);
    ThreeFields(Print(m.kind), m.sender, m.receiver, end);
    PrintPlain(m.timestamp, '\n');
    assert Before(end, '\n') == end;
    SplitBack(m.content, m.timestamp, now);
  }

  lemma SplitMeans(content: string, stamp: string, now: int64)
    requires '|' !in stamp
    ensures SplitContent(content + "|" + stamp, now) ==
            (content, if ReadInt64(stamp).None? then now else ReadInt64(stamp).value)
  {
    var end := content + "|" + stamp;
    assert end[|content| + 1..] == stamp && end[|content|] == '|' && end[..|content|] == content;
    LastIndexIs(end, '|', |content|);
  }

  /** What a line of five fields means: a number, the sender, the receiver, the content, which may
      hold bars, and the time, for which the time of day stands if it is no number. */
  lemma LineMeans(kind: string, sender: string, receiver: string, content: string, stamp: string, now: int64)
    requires '|' !in kind && '|' !in sender && '|' !in receiver && '|' !in stamp
    requires '\n' !in content && '\n' !in stamp
    ensures var r := Deserialized(kind + "|" + sender + "|" + receiver + "|" + (content + "|" + stamp), now);
            && (r.None? <==> ReadInt32(kind).None?)
            && (r.Some? ==> r.value == Message(ReadInt32(kind).value, sender, receiver, content,
                                               if ReadInt64(stamp).None? then now else ReadInt64(stamp).value))
  {
    var end := content + "|" + stamp;
    ThreeFields(kind, sender, receiver, end);
    assert Before(end, '\n') == end;
    SplitMeans(content, stamp, now);
  }

  /** Lines with fewer fields: those that are missing are empty, and the time is the time of day. */
  lemma ShortLineMeans(kind: string, sender: string, receiver: string, content: string, now: int64)
    requires '|' !in kind && '|' !in sender && '|' !in receiver && '|' !in content && '\n' !in content
    requires ReadInt32(kind).Some?
    ensures var k := ReadInt32(kind).value;
            && Deserialized("", now) == Some(Message(3, "", "", "", now))
            && Deserialized(kind, now) == Some(Message(k, "", "", "", now))
            && Deserialized(kind + "|" + sender, now) == Some(Message(k, sender, "", "", now))
            && Deserialized(kind + "|" + (sender + "|" + receiver), now) == Some(Message(k, sender, receiver, "", now))
            && Deserialized(kind + "|" + sender + "|" + receiver + "|" + content, now)
               == Some(Message(k, sender, receiver, content, now))
  {
    assert ReadInt32("").None? && kind != "";
    BeforeAfter(kind, '|', sender);
    BeforeAfter(kind, '|', sender + "|" + receiver);
    BeforeAfter(sender, '|', receiver);
    ThreeFields(kind, sender, receiver, content);
  }

  /** A message as it goes over the wire. */
  lemma SerializeExample()
    ensures Serialize(Message(3, "ann", "bob", "hi", 1700)) == "3|ann|bob|hi|1700"
  {
    PrintExamples();
  }

  // ---------------------------------------------------------------- lines

  /** The whole lines of a stream and what follows the last line break. */
  datatype Lines = Lines(whole: seq<string>, rest: string)

  function Split(s: string): Lines
    decreases |s|
  {
    if '\n' !in s then Lines([], s) else
      var more := Split(After(s, '\n'));
      Lines([Before(s, '\n')] + more.whole, more.rest)
  }

  function Joined(ls: seq<string>): string {
    if ls == [] then "" else ls[0] + "\n" + Joined(ls[1..])
  }

  predicate NoBreaks(ls: seq<string>) {
    forall i | 0 <= i < |ls| :: '\n' !in ls[i]
  }

  lemma LineParts(s: string)
    requires '\n' in s
    ensures s == Before(s, '\n') + "\n" + After(s, '\n')
  {
  }

  /** Nothing is lost, and lines are divided at every line break. */
  lemma {:induction false} SplitJoins(s: string)
    ensures Joined(Split(s).whole) + Split(s).rest == s
    ensures NoBreaks(Split(s).whole) && '\n' !in Split(s).rest
    decreases |s|
  {
    if '\n' in s {
      var l, t := Before(s, '\n'), After(s, '\n');
      LineParts(s);
      SplitJoins(t);
      JoinedCons(l, Split(t).whole);
      Assoc(l + "\n", Joined(Split(t).whole), Split(t).rest);
    }
  }

  lemma JoinedCons(l: string, ls: seq<string>)
    requires '\n' !in l
    ensures Joined([l] + ls) == l + "\n" + Joined(ls)
    ensures NoBreaks(ls) ==> NoBreaks([l] + ls)
  {
    assert ([l] + ls)[1..] == ls;
  }

  /** Only one division has that property. */
  lemma {:induction false} SplitUnique(ls: seq<string>, rest: string)
    requires NoBreaks(ls) && '\n' !in rest
    ensures Split(Joined(ls) + rest) == Lines(ls, rest)
  {
    if ls == [] {
      assert Joined(ls) + rest == rest;
    } else {
      var tail := Joined(ls[1..]) + rest;
      assert Joined(ls) + rest == ls[0] + "\n" + tail;
      BeforeAfter(ls[0], '\n', tail);
      SplitUnique(ls[1..], rest);
      assert [ls[0]] + ls[1..] == ls;
      assert (ls[0] + "\n" + tail)[|ls[0]|] == '\n';
    }
  }

  lemma {:induction false} JoinedConcat(a: seq<string>, b: seq<string>)
    ensures Joined(a + b) == Joined(a) + Joined(b)
  {
    if a == [] {
      assert a + b == b;
    } else {
      assert (a + b)[1..] == a[1..] + b;
      JoinedConcat(a[1..], b);
    }
  }

  /** Lines do not depend on where the stream is cut. */
  lemma SplitConcat(s: string, t: string)
    ensures var first := Split(s);
            var more := Split(first.rest + t);
            Split(s + t) == Lines(first.whole + more.whole, more.rest)
  {
    var first := Split(s);
    var more := Split(first.rest + t);
    SplitJoins(s);
    SplitJoins(first.rest + t);
    JoinedConcat(first.whole, more.whole);
    Regroup(s, t, Joined(first.whole), first.rest, Joined(more.whole), more.rest);
    SplitUnique(first.whole + more.whole, more.rest);
  }

  lemma Regroup(s: string, t: string, a: string, b: string, c: string, d: string)
    requires a + b == s && c + d == b + t
    ensures a + c + d == s + t
  {
    assert a + c + d == a + (c + d);
    assert a + (b + t) == a + b + t;
  }
}
