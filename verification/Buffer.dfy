/** The reactor's byte buffer: a vector with a read index and a write index, compacted in place
  when the free space in front of the data makes room for an append.
 */
module Buffer {
  import opened Bytes

  const CHEAP_PREPEND: nat := 8
  const EXTRA: nat := 65536

  /** What a scatter read gave: an error, or the bytes it delivered. */
  datatype ReadResult = Failed | Got(data: seq<byte>)

  class Buffer {
    var buffer: seq<byte>
    var readerIndex: nat
    var writerIndex: nat

    predicate Valid()
      reads this
    {
      CHEAP_PREPEND <= readerIndex <= writerIndex <= |buffer|
    }

    /** The readable bytes. */
    function Contents(): seq<byte>
      requires Valid()
      reads this
    {
      buffer[readerIndex..writerIndex]
    }

    function Writable(): nat
      requires Valid()
      reads this
    {
      |buffer| - writerIndex
    }

    constructor (initialSize: nat)
      ensures Valid() && Contents() == []
    {
      buffer := seq(CHEAP_PREPEND + initialSize, _ => 0);
      readerIndex := CHEAP_PREPEND;
      writerIndex := CHEAP_PREPEND;
    }

    /** Drops `len` bytes from the front; asking for more than there are drops all. */
    method Retrieve(len: nat)
      requires Valid()
      modifies this`readerIndex, this`writerIndex
      ensures Valid()
      ensures Contents() == if len < |old(Contents())| then old(Contents())[len..] else []
    {
      if len < writerIndex - readerIndex {
        readerIndex := readerIndex + len;
      } else {
        readerIndex := CHEAP_PREPEND;
        writerIndex := CHEAP_PREPEND;
      }
    }

    /** The first `len` bytes from the read index on. Asking for more than is readable also gives
        what lies behind in the vector, and leaves nothing. */
    method RetrieveAsString(len: nat) returns (result: seq<byte>)
      requires Valid() && readerIndex + len <= |buffer|
      modifies this`readerIndex, this`writerIndex
      ensures Valid() && |result| == len
      ensures len <= |old(Contents())| ==> result + Contents() == old(Contents())
      ensures len > |old(Contents())| ==> old(Contents()) <= result && Contents() == []
    {
      result := buffer[readerIndex..readerIndex + len];
      Retrieve(len);
    }

    method Append(data: seq<byte>)
      requires Valid()
      modifies this
      ensures Valid() && Contents() == old(Contents()) + data
    {
      if Writable() < |data| {
        MakeSpace(|data|);
      }
      Fill(data);
      writerIndex := writerIndex + |data|;
    }

    /** `std::copy` of `data` to the write index. */
    method Fill(data: seq<byte>)
      requires Valid() && |data| <= Writable()
      modifies this`buffer
      ensures Valid() && Writable() == old(Writable()) && Contents() == old(Contents())
      ensures buffer[writerIndex..writerIndex + |data|] == data
    {
      buffer := buffer[..writerIndex] + data + buffer[writerIndex + |data|..];
    }

    /** Makes room for `len` bytes: by growing if even the space in front does not suffice, and
        otherwise by moving the data to the front. The contents stay. */
    method MakeSpace(len: nat)
      requires Valid() && Writable() < len
      modifies this
      ensures Valid() && Writable() >= len && Contents() == old(Contents())
    {
      if Writable() + readerIndex < len + CHEAP_PREPEND {
        buffer := buffer + seq(writerIndex + len - |buffer|, _ => 0);
      } else {
        var readable := writerIndex - readerIndex;
        MoveToFront();
        readerIndex := CHEAP_PREPEND;
        writerIndex := readerIndex + readable;
      }
    }

    /** The overlapping forward copy: byte by byte, from the read index to the front. */
    method MoveToFront()
      requires Valid()
      modifies this`buffer
      ensures |buffer| == old(|buffer|)
      ensures buffer[CHEAP_PREPEND..CHEAP_PREPEND + (writerIndex - readerIndex)] == old(Contents())
    {
      ghost var data := Contents();
      var n := writerIndex - readerIndex;
      for i := 0 to n
        invariant |buffer| == old(|buffer|)
        invariant forall j | 0 <= j < i :: buffer[CHEAP_PREPEND + j] == data[j]
        invariant forall j | readerIndex + i <= j < writerIndex :: buffer[j] == data[j - readerIndex]
      {
        buffer := buffer[CHEAP_PREPEND + i := buffer[readerIndex + i]];
      }
    }

    /** How many bytes the scatter read offers room for. */
    function ReadRoom(): nat
      requires Valid()
      reads this
    {
      if Writable() < EXTRA then Writable() + EXTRA else Writable()
    }

    /** `readFd`: the bytes go to the write index first, the rest to a spill buffer on the stack
        that is then appended. */
    method ReadFd(r: ReadResult) returns (n: int)
      requires Valid() && (r.Got? ==> |r.data| <= ReadRoom())
      modifies this
      ensures Valid()
      ensures n == (if r.Got? then |r.data| else -1)
      ensures Contents() == old(Contents()) + (if r.Got? then r.data else [])
    {
      if r.Failed? {
        return -1;
      }
      n := |r.data|;
      var writable := Writable();
      if n <= writable {
        Fill(r.data);
        writerIndex := writerIndex + n;
      } else {
        Fill(r.data[..writable]);
        writerIndex := |buffer|;
        assert Contents() == old(Contents()) + r.data[..writable];
        Assoc(old(Contents()), r.data[..writable], r.data[writable..]);
        assert r.data[..writable] + r.data[writable..] == r.data;
        Append(r.data[writable..]);
      }
    }

    /** One operation: what went in and what came out. */
    method Perform(op: Op) returns (x: seq<byte>, s: seq<byte>)
      requires Valid()
      modifies this
      ensures Valid() && Entered(op, x) && old(Contents()) + x == s + Contents()
      ensures |s| == if !op.Retrieve? then 0 else if op.len < |old(Contents())| then op.len else |old(Contents())|
    {
      x, s := [], [];
      match op {
        case Append(data) =>
          Append(data);
          x := data;
        case Read(data) =>
          var room := ReadRoom();
          x := if |data| <= room then data else data[..room];
          var _ := ReadFd(Got(x));
        case Retrieve(len) =>
          var n := if len < |Contents()| then len else |Contents()|;
          s := RetrieveAsString(n);
      }
    }
  }

  // ---- whole histories ------------------------------------------------------------------------

  datatype Op = Append(data: seq<byte>) | Read(data: seq<byte>) | Retrieve(len: nat)

  /** What goes in with an operation: all that is appended, nothing with a retrieve, and of the
      data on the socket as much as the read has room for, which is never less than 64 KiB. */
  predicate Entered(op: Op, x: seq<byte>) {
    match op
    case Append(data) => x == data
    case Read(data) => x <= data && (|data| <= 65536 ==> x == data)
    case Retrieve(_) => x == []
  }

  /** What operation `i` gives back: as much as is asked for of what went in before and has not
      come out yet. */
  predicate Given(ops: seq<Op>, entered: seq<seq<byte>>, out: seq<seq<byte>>, i: nat)
    requires i < |ops| && i < |entered| && i < |out|
  {
    var held := |Flatten(entered[..i])| - |Flatten(out[..i])|;
    |out[i]| == if !ops[i].Retrieve? then 0 else if ops[i].len < held then ops[i].len else held
  }

  /** Through every history of appends, scatter reads and retrieves, what was retrieved followed
      by what is left is what went in, and every retrieve gives as much as it can: the buffer is a
      byte queue. */
  method Replay(initialSize: nat, ops: seq<Op>)
    returns (entered: seq<seq<byte>>, out: seq<seq<byte>>, left: seq<byte>)
    ensures |entered| == |out| == |ops| && (forall i | 0 <= i < |ops| :: Entered(ops[i], entered[i]))
    ensures forall i | 0 <= i < |ops| :: Given(ops, entered, out, i)
    ensures Flatten(out) + left == Flatten(entered)
  {
    var b := new Buffer(initialSize);
    entered, out := [], [];
    for i := 0 to |ops|
      invariant b.Valid() && fresh(b)
      invariant |entered| == |out| == i && (forall j | 0 <= j < i :: Entered(ops[j], entered[j]))
      invariant forall j | 0 <= j < i :: Given(ops, entered, out, j)
      invariant Flatten(out) + b.Contents() == Flatten(entered)
    {
      ghost var held := b.Contents();
      var x, s := b.Perform(ops[i]);
      Assoc(Flatten(out), held, x);
      Assoc(Flatten(out), s, b.Contents());
      Onward(ops, entered, out, x, s, held);
      entered, out := entered + [x], out + [s];
    }
    left := b.Contents();
  }

  lemma Onward(ops: seq<Op>, entered: seq<seq<byte>>, out: seq<seq<byte>>, x: seq<byte>, s: seq<byte>, held: seq<byte>)
    requires |entered| == |out| < |ops| && (forall i | 0 <= i < |out| :: Given(ops, entered, out, i))
    requires Flatten(out) + held == Flatten(entered)
    requires var op := ops[|out|];
             |s| == if !op.Retrieve? then 0 else if op.len < |held| then op.len else |held|
    ensures forall i | 0 <= i <= |out| :: Given(ops, entered + [x], out + [s], i)
    ensures Flatten(entered + [x]) == Flatten(entered) + x && Flatten(out + [s]) == Flatten(out) + s
  {
    EnterOne(entered, x);
    EnterOne(out, s);
    assert |Flatten(entered)| == |Flatten(out)| + |held|;
    forall i | 0 <= i <= |out| ensures Given(ops, entered + [x], out + [s], i) {
      assert (entered + [x])[..i] == entered[..i] && (out + [s])[..i] == out[..i];
      if i < |out| {
        assert Given(ops, entered, out, i);
      } else {
        assert entered[..i] == entered && out[..i] == out;
      }
    }
  }

  lemma EnterOne(entered: seq<seq<byte>>, x: seq<byte>)
    ensures Flatten(entered + [x]) == Flatten(entered) + x
  {
    FlattenConcat(entered, [x]);
    FlattenOne(x);
  }
}
