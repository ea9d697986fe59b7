/** File descriptions and the transfer sessions that hold one: records whose fields are joined with
  bars, the inner record's fields among the outer one's.
 */
module FileRecord {
  import opened Bytes
  import opened TextFields

  datatype FileInfo = FileInfo(fileId: string, filename: string, uploader: string, fileSize: uint64,
                               uploadTime: int64, filePath: string, fileHash: string, isGroupFile: bool)

  datatype Transfer = Transfer(sessionId: string, senderId: string, receiverId: string, fileInfo: FileInfo,
                               requestTime: int64, isAccepted: bool, isCompleted: bool, transferredBytes: uint64)

  function Flag(b: bool): string {
    if b then "1" else "0"
  }

  function SerializeInfo(f: FileInfo): string {
    f.fileId + "|" + f.filename + "|" + f.uploader + "|" + Print(f.fileSize) + "|" + Print(f.uploadTime) + "|" +
    f.filePath + "|" + f.fileHash + "|" + Flag(f.isGroupFile)
  }

  function SerializeTransfer(t: Transfer): string {
    t.sessionId + "|" + t.senderId + "|" + t.receiverId + "|" + SerializeInfo(t.fileInfo) + "|" +
    Print(t.requestTime) + "|" + Flag(t.isAccepted) + "|" + Flag(t.isCompleted) + "|" + Print(t.transferredBytes)
  }

  // ---------------------------------------------------------------- reading fields

  /** The fields that successive reads give, up to the end. */
  function Tokens(s: string): seq<string>
    decreases |s|
  {
    if s == "" then [] else [Before(s, '|')] + Tokens(After(s, '|'))
  }

  /** A field that is missing is empty. */
  function Field(ts: seq<string>, n: nat): string {
    if n < |ts| then ts[n] else ""
  }

  /** A number field that is missing keeps its default; one that is no number is an error. */
  function UintField(ts: seq<string>, n: nat): Option<uint64> {
    if n < |ts| then ReadUint64(ts[n]) else Some(0)
  }

  function TimeField(ts: seq<string>, n: nat, now: int64): Option<int64> {
    if n < |ts| then ReadInt64(ts[n]) else Some(now)
  }

  predicate FlagField(ts: seq<string>, n: nat) {
    Field(ts, n) == "1"
  }

  function InfoOf(ts: seq<string>, now: int64): Option<FileInfo> {
    var size, time := UintField(ts, 3), TimeField(ts, 4, now);
    if size.None? || time.None? then None else
      Some(FileInfo(Field(ts, 0), Field(ts, 1), Field(ts, 2), size.value, time.value, Field(ts, 5), Field(ts, 6),
                    FlagField(ts, 7)))
  }

  function ReadInfo(s: string, now: int64): Option<FileInfo> {
    InfoOf(Tokens(s), now)
  }

  /** At most eight fields from the third on. */
  function Inner(ts: seq<string>): seq<string> {
    if |ts| <= 3 then [] else if |ts| <= 11 then ts[3..] else ts[3..11]
  }

  function TransferOf(ts: seq<string>, now: int64): Option<Transfer> {
    var info := ReadInfo(JoinSome(Inner(ts)), now);
    var time, bytes := TimeField(ts, 11, now), UintField(ts, 14);
    if info.None? || time.None? || bytes.None? then None else
      Some(Transfer(Field(ts, 0), Field(ts, 1), Field(ts, 2), info.value, time.value, FlagField(ts, 12),
                    FlagField(ts, 13), bytes.value))
  }

  function ReadTransfer(s: string, now: int64): Option<Transfer> {
    TransferOf(Tokens(s), now)
  }

  // ---------------------------------------------------------------- joined fields

  function Join(fs: seq<string>): string
    requires fs != []
  {
    if |fs| == 1 then fs[0] else fs[0] + "|" + Join(fs[1..])
  }

  function JoinSome(fs: seq<string>): string {
    if fs == [] then "" else Join(fs)
  }

  predicate NoBars(fs: seq<string>) {
    forall i | 0 <= i < |fs| :: '|' !in fs[i]
  }

  lemma {:induction false} JoinConcat(a: seq<string>, b: seq<string>)
    requires a != [] && b != []
    ensures Join(a + b) == Join(a) + "|" + Join(b)
  {
    assert (a + b)[1..] == a[1..] + b;
    if |a| > 1 {
      JoinConcat(a[1..], b);
      assert a[0] + "|" + (Join(a[1..]) + "|" + Join(b)) == a[0] + "|" + Join(a[1..]) + "|" + Join(b);
    } else {
      assert a[1..] + b == b;
    }
  }

  lemma JoinStep(fs: seq<string>)
    requires |fs| > 1 && NoBars(fs)
    ensures Before(Join(fs), '|') == fs[0] && After(Join(fs), '|') == Join(fs[1..]) && Join(fs) != ""
  {
    assert '|' !in fs[0];
    BeforeAfter(fs[0], '|', Join(fs[1..]));
  }

  lemma TokensOne(f: string)
    requires '|' !in f && f != ""
    ensures Tokens(f) == [f]
  {
    assert Tokens("") == [];
  }

  /** Reading gives the fields back, if the last of them is not empty. */
  lemma {:induction false} TokensJoin(fs: seq<string>)
    requires fs != [] && NoBars(fs) && fs[|fs| - 1] != ""
    ensures Tokens(Join(fs)) == fs
  {
    assert '|' !in fs[0];
    if |fs| > 1 {
      JoinStep(fs);
      TokensJoin(fs[1..]);
      assert [fs[0]] + fs[1..] == fs;
    } else {
      TokensOne(fs[0]);
      assert fs == [fs[0]];
    }
  }

  lemma {:induction false} TokensPlain(s: string)
    ensures NoBars(Tokens(s))
    decreases |s|
  {
    if s != "" {
      TokensPlain(After(s, '|'));
    }
  }

  lemma JoinSnoc(fs: seq<string>, x: string)
    requires fs != []
    ensures Join(fs + [x]) == Join(fs) + "|" + x
  {
    JoinConcat(fs, [x]);
  }

  // ---------------------------------------------------------------- file descriptions

  function InfoFields(f: FileInfo): (fs: seq<string>)
    ensures |fs| == 8
  {
    [f.fileId, f.filename, f.uploader, Print(f.fileSize), Print(f.uploadTime), f.filePath, f.fileHash,
     Flag(f.isGroupFile)]
  }

  lemma JoinPrefix(fs: seq<string>, n: nat)
    requires 0 < n < |fs|
    ensures Join(fs[..n + 1]) == Join(fs[..n]) + "|" + fs[n]
  {
    assert fs[..n + 1] == fs[..n] + [fs[n]];
    JoinSnoc(fs[..n], fs[n]);
  }

  lemma JoinFour(a: string, b: string, c: string, d: string)
    ensures Join([a, b, c, d]) == a + "|" + b + "|" + c + "|" + d
  {
    var fs := [a, b, c, d];
    JoinPrefix(fs, 1);
    JoinPrefix(fs, 2);
    JoinPrefix(fs, 3);
    assert fs[..1] == [a] && fs[..4] == fs;
  }

  lemma JoinOnto(fs: seq<string>, a: string, b: string, c: string, d: string)
    requires fs != []
    ensures Join(fs + [a, b, c, d]) == Join(fs) + "|" + a + "|" + b + "|" + c + "|" + d
  {
    JoinSnoc(fs, a);
    JoinSnoc(fs + [a], b);
    JoinSnoc(fs + [a] + [b], c);
    JoinSnoc(fs + [a] + [b] + [c], d);
    assert fs + [a] + [b] + [c] + [d] == fs + [a, b, c, d];
  }

  lemma InfoJoined(f: FileInfo)
    ensures SerializeInfo(f) == Join(InfoFields(f))
  {
    var first := [f.fileId, f.filename, f.uploader, Print(f.fileSize)];
    JoinFour(f.fileId, f.filename, f.uploader, Print(f.fileSize));
    JoinOnto(first, Print(f.uploadTime), f.filePath, f.fileHash, Flag(f.isGroupFile));
    assert first + [Print(f.uploadTime), f.filePath, f.fileHash, Flag(f.isGroupFile)] == InfoFields(f);
  }

  /** None of the strings of a description holds a bar. */
  predicate PlainInfo(f: FileInfo) {
    '|' !in f.fileId && '|' !in f.filename && '|' !in f.uploader && '|' !in f.filePath && '|' !in f.fileHash
  }

  lemma InfoFieldsPlain(f: FileInfo)
    requires PlainInfo(f)
    ensures NoBars(InfoFields(f))
  {
    PrintPlain(f.fileSize, '|');
    PrintPlain(f.uploadTime, '|');
  }

  lemma NumbersRead(size: uint64, time: int64)
    ensures ReadUint64(Print(size)) == Some(size) && ReadInt64(Print(time)) == Some(time)
  {
    PrintRead(size);
    PrintRead(time);
  }

  lemma InfoBack(f: FileInfo, now: int64)
    requires PlainInfo(f)
    ensures ReadInfo(Join(InfoFields(f)), now) == Some(f)
  {
    InfoFieldsPlain(f);
    TokensJoin(InfoFields(f));
    NumbersRead(f.fileSize, f.uploadTime);
  }

  /** A description survives exactly when none of its strings holds a bar. */
  lemma InfoRoundTripExactly(f: FileInfo, now: int64)
    ensures ReadInfo(SerializeInfo(f), now) == Some(f) <==> PlainInfo(f)
  {
    InfoJoined(f);
    TokensPlain(SerializeInfo(f));
    if PlainInfo(f) {
      InfoBack(f, now);
    }
  }

  // ---------------------------------------------------------------- sessions

  function TransferFields(t: Transfer): (fs: seq<string>)
    ensures |fs| == 15
  {
    [t.sessionId, t.senderId, t.receiverId] + InfoFields(t.fileInfo) +
    [Print(t.requestTime), Flag(t.isAccepted), Flag(t.isCompleted), Print(t.transferredBytes)]
  }

  lemma JoinThree(a: string, b: string, c: string, inner: seq<string>)
    requires inner != []
    ensures Join([a, b, c] + inner) == a + "|" + b + "|" + c + "|" + Join(inner)
  {
    JoinConcat([a, b, c], inner);
    JoinSnoc([a], b);
    JoinSnoc([a, b], c);
    assert [a] + [b] == [a, b] && [a, b] + [c] == [a, b, c];
  }

  lemma TransferJoined(t: Transfer)
    ensures SerializeTransfer(t) == Join(TransferFields(t))
  {
    var inner := InfoFields(t.fileInfo);
    JoinThree(t.sessionId, t.senderId, t.receiverId, inner);
    InfoJoined(t.fileInfo);
    JoinOnto([t.sessionId, t.senderId, t.receiverId] + inner, Print(t.requestTime), Flag(t.isAccepted),
             Flag(t.isCompleted), Print(t.transferredBytes));
  }

  predicate PlainTransfer(t: Transfer) {
    '|' !in t.sessionId && '|' !in t.senderId && '|' !in t.receiverId && PlainInfo(t.fileInfo)
  }

  lemma TransferFieldsPlain(t: Transfer)
    requires PlainTransfer(t)
    ensures NoBars(TransferFields(t))
  {
    InfoFieldsPlain(t.fileInfo);
    PrintPlain(t.requestTime, '|');
    PrintPlain(t.transferredBytes, '|');
  }

  lemma TransferBack(t: Transfer, now: int64)
    requires PlainTransfer(t)
    ensures ReadTransfer(Join(TransferFields(t)), now) == Some(t)
  {
    var fs := TransferFields(t);
    TransferFieldsPlain(t);
    DigitsRead(t.transferredBytes);
    TokensJoin(fs);
    assert Inner(fs) == InfoFields(t.fileInfo);
    InfoBack(t.fileInfo, now);
    NumbersRead(t.transferredBytes, t.requestTime);
  }

  /** A session with its inner record survives exactly when none of the eight strings holds a
      bar. */
  lemma TransferRoundTripExactly(t: Transfer, now: int64)
    ensures ReadTransfer(SerializeTransfer(t), now) == Some(t) <==> PlainTransfer(t)
  {
    var s := SerializeTransfer(t);
    TransferJoined(t);
    TokensPlain(s);
    TokensPlain(JoinSome(Inner(Tokens(s))));
    if PlainTransfer(t) {
      TransferBack(t, now);
    }
  }

  // ---------------------------------------------------------------- the readers

  /** The fields from the n-th on are still to be read. */
  ghost predicate At(rest: string, ts: seq<string>, n: nat) {
    Tokens(rest) == if n <= |ts| then ts[n..] else []
  }

  lemma Beginning(data: string)
    ensures At(data, Tokens(data), 0)
  {
  }

  /** Reads a field; at the end it fails and changes nothing. */
  method NextField(iss: Stream, ghost ts: seq<string>, ghost n: nat) returns (ok: bool, token: string)
    requires At(iss.rest, ts, n)
    modifies iss
    ensures At(iss.rest, ts, n + 1) && (ok <==> n < |ts|) && token == Field(ts, n)
  {
    ok, token := iss.GetLine('|');
    assert n < |ts| ==> ts[n..][0] == ts[n] && ts[n..][1..] == ts[n + 1..];
  }

  method NextThree(iss: Stream, ghost ts: seq<string>, ghost n: nat) returns (a: string, b: string, c: string)
    requires At(iss.rest, ts, n)
    modifies iss
    ensures At(iss.rest, ts, n + 3) && a == Field(ts, n) && b == Field(ts, n + 1) && c == Field(ts, n + 2)
  {
    var ok;
    ok, a := NextField(iss, ts, n);
    ok, b := NextField(iss, ts, n + 1);
    ok, c := NextField(iss, ts, n + 2);
  }

  method NextFlag(iss: Stream, ghost ts: seq<string>, ghost n: nat) returns (b: bool)
    requires At(iss.rest, ts, n)
    modifies iss
    ensures At(iss.rest, ts, n + 1) && b == FlagField(ts, n)
  {
    var ok, token := NextField(iss, ts, n);
    b := token == "1";
  }

  method NextUint(iss: Stream, ghost ts: seq<string>, ghost n: nat) returns (r: Option<uint64>)
    requires At(iss.rest, ts, n)
    modifies iss
    ensures At(iss.rest, ts, n + 1) && r == UintField(ts, n)
  {
    var ok, token := NextField(iss, ts, n);
    r := if ok then ReadUint64(token) else Some(0);
  }

  method NextTime(iss: Stream, ghost ts: seq<string>, ghost n: nat, now: int64) returns (r: Option<int64>)
    requires At(iss.rest, ts, n)
    modifies iss
    ensures At(iss.rest, ts, n + 1) && r == TimeField(ts, n, now)
  {
    var ok, token := NextField(iss, ts, n);
    r := if ok then ReadInt64(token) else Some(now);
  }

  method DeserializeInfo(data: string, now: int64) returns (r: Option<FileInfo>)
    ensures r == ReadInfo(data, now)
  {
    var iss := new Stream(data);
    ghost var ts := Tokens(data);
    Beginning(data);
    var fileId, filename, uploader := NextThree(iss, ts, 0);
    var size := NextUint(iss, ts, 3);
    if size.None? {
      return None;
    }
    r := InfoRest(iss, ts, fileId, filename, uploader, size.value, now);
  }

  method InfoRest(iss: Stream, ghost ts: seq<string>, fileId: string, filename: string, uploader: string,
                  size: uint64, now: int64)
    returns (r: Option<FileInfo>)
    requires At(iss.rest, ts, 4) && fileId == Field(ts, 0) && filename == Field(ts, 1) && uploader == Field(ts, 2)
    requires UintField(ts, 3) == Some(size)
    modifies iss
    ensures r == InfoOf(ts, now)
  {
    var time := NextTime(iss, ts, 4, now);
    if time.None? {
      return None;
    }
    var filePath, fileHash, flag := NextThree(iss, ts, 5);
    r := Some(FileInfo(fileId, filename, uploader, size, time.value, filePath, fileHash, flag == "1"));
  }

  /** The loop that puts the text of the inner record together again. */
  method RejoinInner(iss: Stream, ghost ts: seq<string>) returns (text: string)
    requires At(iss.rest, ts, 3)
    modifies iss
    ensures At(iss.rest, ts, 11)
    ensures text == JoinSome(Inner(ts))
  {
    text := "";
    for i := 0 to 8
      invariant At(iss.rest, ts, 3 + i)
      invariant text == JoinSome(FirstInner(ts, i))
    {
      InnerMore(ts, i);
      var ok, token := NextField(iss, ts, 3 + i);
      if ok {
        if i > 0 {
          text := text + "|";
        }
        text := text + token;
      }
    }
  }

  /** At most the first i of the inner fields. */
  function FirstInner(ts: seq<string>, i: nat): seq<string> {
    if |ts| <= 3 then [] else if |ts| <= 3 + i then ts[3..] else ts[3..3 + i]
  }

  lemma InnerMore(ts: seq<string>, i: nat)
    ensures 3 + i < |ts| ==>
              JoinSome(FirstInner(ts, i + 1)) == (if i > 0 then JoinSome(FirstInner(ts, i)) + "|" else "") + ts[3 + i]
    ensures 3 + i >= |ts| ==> FirstInner(ts, i + 1) == FirstInner(ts, i)
  {
    if 3 + i < |ts| {
      assert FirstInner(ts, i + 1) == FirstInner(ts, i) + [ts[3 + i]];
      if i > 0 {
        JoinSnoc(FirstInner(ts, i), ts[3 + i]);
      } else {
        assert FirstInner(ts, 1) == [ts[3]];
        assert "" + ts[3] == ts[3];
      }
    }
  }

  method DeserializeTransfer(data: string, now: int64) returns (r: Option<Transfer>)
    ensures r == ReadTransfer(data, now)
  {
    var iss := new Stream(data);
    ghost var ts := Tokens(data);
    Beginning(data);
    var sessionId, senderId, receiverId := NextThree(iss, ts, 0);
    var text := RejoinInner(iss, ts);
    var fileInfo := DeserializeInfo(text, now);
    if fileInfo.None? {
      return None;
    }
    var time := NextTime(iss, ts, 11, now);
    if time.None? {
      return None;
    }
    var accepted := NextFlag(iss, ts, 12);
    var completed := NextFlag(iss, ts, 13);
    var bytes := NextUint(iss, ts, 14);
    if bytes.None? {
      return None;
    }
    r := Some(Transfer(sessionId, senderId, receiverId, fileInfo.value, time.value, accepted, completed,
                       bytes.value));
  }

  /** The records as they go over the wire, and what an empty one reads as. */
  lemma SerializeExamples(now: int64)
    ensures SerializeInfo(FileInfo("f1", "a.txt", "ann", 3, 1700, "/tmp", "h9", true))
         == "f1|a.txt|ann|3|1700|/tmp|h9|1"
    ensures ReadInfo("", now) == Some(FileInfo("", "", "", 0, now, "", "", false))
  {
    PrintExamples();
  }

  lemma SerializeTransferExample(f: FileInfo)
    requires SerializeInfo(f) == "f1|a.txt|ann|3|1700|/tmp|h9|1"
    ensures SerializeTransfer(Transfer("s1", "ann", "bob", f, 3, true, false, 1700))
         == "s1|ann|bob|" + "f1|a.txt|ann|3|1700|/tmp|h9|1" + "|3|1|0|1700"
  {
    PrintExamples();
  }
}
