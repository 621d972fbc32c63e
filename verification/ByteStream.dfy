/** The bounded in-order byte stream under the sender and under the reassembler. */
module ByteStreams {
  import opened Words

  /** A stream as a value: everything ever accepted, and how much of it has been popped. */
  datatype StreamValue = StreamValue(
    capacity: nat,
    history: seq<byte>,
    bytesRead: nat,
    inputEnded: bool,
    eof: bool,
    error: bool)

  type Stream = s: StreamValue | s.bytesRead <= |s.history| <= s.bytesRead + s.capacity
    witness StreamValue(0, [], 0, false, false, false)

  function Fresh(capacity: nat): Stream {
    StreamValue(capacity, [], 0, false, false, false)
  }

  function Buffer(s: Stream): seq<byte> {
    s.history[s.bytesRead..]
  }

  function Room(s: Stream): nat {
    s.capacity - |Buffer(s)|
  }

  function Write(s: Stream, data: seq<byte>): Stream {
    s.(history := s.history + data[..Min(|data|, Room(s))])
  }

  function Peek(s: Stream, len: nat): seq<byte> {
    Buffer(s)[..Min(len, |Buffer(s)|)]
  }

  function Pop(s: Stream, len: nat): Stream {
    var bytesRead := s.bytesRead + |Peek(s, len)|;
    s.(bytesRead := bytesRead, eof := if s.inputEnded then |s.history| == bytesRead else s.eof)
  }

  function EndInput(s: Stream): Stream {
    s.(inputEnded := true, eof := |s.history| == s.bytesRead)
  }

  /** The meaning of end-of-file: the writer is done and the reader has everything. */
  predicate Settled(s: Stream) {
    s.eof <==> s.inputEnded && s.bytesRead == |s.history|
  }

  lemma PopKeepsSettled(s: Stream, len: nat)
    requires Settled(s)
    ensures Settled(Pop(s, len))
  {
  }

  /** A write breaks `eof` exactly when it is accepted after the reader saw the end. */
  lemma WriteKeepsSettledIff(s: Stream, data: seq<byte>)
    requires Settled(s)
    ensures Settled(Write(s, data)) <==> !s.eof || data == [] || Room(s) == 0
  {
  }

  /** A write takes the longest prefix there is room for and touches nothing else. */
  lemma WriteAccepts(s: Stream, data: seq<byte>)
    ensures var t := Write(s, data); var k := |t.history| - |s.history|;
            && 0 <= k <= |data| && Buffer(t) == Buffer(s) + data[..k] && (k == |data| || Room(t) == 0)
            && t == s.(history := t.history) && s.history <= t.history
  {
  }

  /** What is read comes off the front of the buffer: as much as is asked for and there. */
  lemma PeekThenPop(s: Stream, len: nat)
    ensures Peek(s, len) + Buffer(Pop(s, len)) == Buffer(s)
    ensures |Peek(s, len)| == len || (|Peek(s, len)| < len && Buffer(Pop(s, len)) == [])
    ensures Pop(s, len).history == s.history
  {
  }

  /** What reader and writer do to a stream. */
  datatype Operation = Writing(data: seq<byte>) | Reading(len: nat) | Ending

  function Operate(s: Stream, op: Operation): Stream {
    match op
    case Writing(data) => Write(s, data)
    case Reading(len) => Pop(s, len)
    case Ending => EndInput(s)
  }

  function Run(s: Stream, ops: seq<Operation>): Stream
    decreases |ops|
  {
    if ops == [] then s else Run(Operate(s, ops[0]), ops[1..])
  }

  /** All bytes the reader gets in a run, in the order it gets them. */
  function ReadBack(s: Stream, ops: seq<Operation>): seq<byte>
    decreases |ops|
  {
    if ops == [] then []
    else (if ops[0].Reading? then Peek(s, ops[0].len) else []) + ReadBack(Operate(s, ops[0]), ops[1..])
  }

  /** The reader gets exactly the accepted bytes, in order, each once, whatever the interleaving. */
  lemma {:induction false} ReadsAreHistory(s: Stream, ops: seq<Operation>)
    ensures var t := Run(s, ops);
            && s.history <= t.history && s.bytesRead <= t.bytesRead && t.capacity == s.capacity
            && ReadBack(s, ops) == t.history[s.bytesRead..t.bytesRead]
    decreases |ops|
  {
    if ops != [] {
      var next := Operate(s, ops[0]);
      ReadsAreHistory(next, ops[1..]);
      OperateMeans(s, ops[0]);
      JoinSlices(next.history, Run(next, ops[1..]).history, s.bytesRead, next.bytesRead, Run(next, ops[1..]).bytesRead);
    }
  }

  lemma OperateMeans(s: Stream, op: Operation)
    ensures var next := Operate(s, op);
            && s.history <= next.history && s.bytesRead <= next.bytesRead && next.capacity == s.capacity
            && (if op.Reading? then Peek(s, op.len) else []) == next.history[s.bytesRead..next.bytesRead]
  {
  }

  lemma JoinSlices(h: seq<byte>, longer: seq<byte>, a: nat, b: nat, c: nat)
    requires h <= longer && a <= b <= |h| && b <= c <= |longer|
    ensures h[a..b] + longer[b..c] == longer[a..c]
  {
  }

  class ByteStream {
    var buffer: seq<byte>
    var totalCapacity: nat
    var isInputEnded: bool
    var totalWritten: nat
    var totalRead: nat
    var isEof: bool
    var isError: bool
    ghost var accepted: seq<byte>

    ghost predicate Valid()
      reads this
    {
      && |buffer| <= totalCapacity
      && totalWritten == |accepted|
      && totalRead + |buffer| == totalWritten
      && buffer == accepted[totalRead..]
    }

    ghost function Value(): Stream
      requires Valid()
      reads this
    {
      StreamValue(totalCapacity, accepted, totalRead, isInputEnded, isEof, isError)
    }

    constructor (capacity: nat)
      ensures Valid() && Value() == Fresh(capacity)
    {
      buffer, totalCapacity := [], capacity;
      isInputEnded, totalWritten, totalRead, isEof, isError := false, 0, 0, false, false;
      accepted := [];
    }

    function RemainingCapacity(): (r: nat)
      requires Valid()
      reads this
      ensures r == Room(Value())
    {
      totalCapacity - |buffer|
    }

    method Append(data: seq<byte>) returns (written: nat)
      requires Valid()
      modifies this
      ensures Valid() && Value() == Write(old(Value()), data)
      ensures written == Min(|data|, old(Room(Value())))
    {
      var room := RemainingCapacity();
      if room == 0 {
        written := 0;
        assert data[..Min(|data|, room)] == [];
      } else if |data| > room {
        buffer := buffer + data[..room];
        accepted := accepted + data[..room];
        written := room;
      } else {
        buffer := buffer + data;
        accepted := accepted + data;
        written := |data|;
        assert data[..Min(|data|, room)] == data;
      }
      totalWritten := totalWritten + written;
      assert accepted == old(accepted) + data[..Min(|data|, room)];
    }

    method PeekOutput(len: nat) returns (copied: seq<byte>)
      requires Valid()
      ensures copied == Peek(Value(), len)
    {
      if |buffer| > len {
        copied := buffer[..len];
      } else {
        copied := buffer;
      }
    }

    method PopOutput(len: nat)
      requires Valid()
      modifies this
      ensures Valid() && Value() == Pop(old(Value()), len)
    {
      if |buffer| > len {
        totalRead := totalRead + len;
        buffer := buffer[len..];
      } else {
        totalRead := totalRead + |buffer|;
        buffer := [];
      }
      if isInputEnded {
        isEof := totalWritten == totalRead;
      }
    }

    method Read(len: nat) returns (bytes: seq<byte>)
      requires Valid()
      modifies this
      ensures Valid() && Value() == Pop(old(Value()), len)
      ensures bytes == Peek(old(Value()), len)
    {
      bytes := PeekOutput(len);
      PopOutput(len);
    }

    method EndWriting()
      requires Valid()
      modifies this
      ensures Valid() && Value() == EndInput(old(Value()))
    {
      isInputEnded := true;
      isEof := totalWritten == totalRead;
    }

    method SetError()
      requires Valid()
      modifies this
      ensures Valid() && Value() == old(Value()).(error := true)
    {
      isError := true;
    }
  }
}
