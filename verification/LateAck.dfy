/**
 * A run in which one acknowledgment overtakes another: the late one has its window stored although its
 * number is stale, the sender fills beyond what the receiver offers, and the receiver's stream goes wrong.
 */
module LateAck {
  import opened Words
  import opened WrappingIntegers
  import opened ByteStreams
  import opened Reassembly
  import opened Segments
  import opened Sending
  import opened Receiving
  import opened Transfer
  import opened TransferSafety

  /** The steps of the transfer system, and the delivery of any acknowledgment on its way. */
  datatype Move = Usual(step: Step) | Overtaking(index: nat)

  function Go(y: System, m: Move): (next: System)
    requires Output(y.receiver).capacity > 0
    ensures Output(next.receiver).capacity > 0
  {
    match m
    case Usual(step) =>
      NextCapacity(y, step);
      Next(y, step)
    case Overtaking(k) =>
      if k < |y.acks|
      then Flush(y, AckReceived(y.sender, y.acks[k].ackno, y.acks[k].window)).(acks := y.acks[..k] + y.acks[k + 1..])
      else y
  }

  function Run(y: System, moves: seq<Move>): System
    requires Output(y.receiver).capacity > 0
    decreases |moves|
  {
    if moves == [] then y else Run(Go(y, moves[0]), moves[1..])
  }

  const SYN := Segment(0, true, false, [], false, 0, 0, false, 0)
  const D0 := Segment(1, false, false, [0, 1], false, 0, 0, false, 1)
  const D2 := Segment(3, false, false, [2], false, 0, 0, false, 3)
  const D3 := Segment(4, false, false, [3], false, 0, 0, false, 4)
  const D4 := Segment(5, false, false, [4], false, 0, 0, false, 5)

  const RUNNING := Timer(1000, 1000, 0, true)
  const STOPPED := Timer(1000, 1000, 0, false)

  function Start(): System {
    Init(5, 1000, 0, 2)
  }

  function Sends(history: seq<byte>, next: nat, timer: Timer, ack: nat, window: u16, outstanding: seq<Segment>, inFlight: int): Sender {
    Sender(0, StreamValue(5, history, |history|, false, false, false), next, timer, ack, window, outstanding, [], inFlight, 0, false)
  }

  function Holds(history: seq<byte>, bytesRead: nat, first: nat, held: map<nat, byte>): Receiver
    requires |history| - 2 <= bytesRead <= |history|
  {
    Receiver(Some(0), Reassembler(StreamValue(2, history, bytesRead, false, false, false), first, held, false))
  }

  // ---------- the states the run goes through ----------

  function SynSent(): System {
    System(Sends([], 1, RUNNING, 0, 1, [SYN], 1), NewReceiver(2), {SYN}, [])
  }

  /** The SYN has been acknowledged twice, and one acknowledgment is still on its way. */
  function Connected(): System {
    System(Sends([], 1, STOPPED, 1, 2, [], 0), Holds([], 0, 0, map[]), {SYN}, [Ack(1, 1, 2)])
  }

  /** Two bytes have been sent and received, and the receiver has no room. */
  function Full(): System {
    System(Sends([0, 1], 3, RUNNING, 1, 2, [D0], 2), Holds([0, 1], 0, 2, map[]), {SYN, D0}, [Ack(1, 1, 2), Ack(3, 3, 0)])
  }

  /** The sender believes in a window of two. */
  function Misled(): System {
    System(Sends([0, 1], 3, STOPPED, 3, 2, [], 0), Holds([0, 1], 0, 2, map[]), {SYN, D0}, [])
  }

  function Overrun(): System {
    System(Sends([0, 1, 2, 3], 5, RUNNING, 3, 2, [D2, D3], 2), Holds([0, 1], 0, 2, map[]), {SYN, D0, D2, D3}, [])
  }

  /** The fourth byte was stored beyond the limit; with the third it was assembled and did not fit the output. */
  function Cut(): System {
    Overrun().(receiver := Holds([0, 1, 2], 1, 4, map[]))
  }

  function Resumed(): System {
    System(Sends([0, 1, 2, 3], 5, RUNNING, 4, 2, [D3], 1), Holds([0, 1, 2], 3, 4, map[]), {SYN, D0, D2, D3}, [])
  }

  function Broken(): System {
    System(Sends([0, 1, 2, 3, 4], 6, RUNNING, 4, 2, [D3, D4], 2), Holds([0, 1, 2, 4], 3, 5, map[]), {SYN, D0, D2, D3, D4}, [])
  }

  // ---------- from state to state ----------

  lemma SynComesIn()
    ensures Next(Next(Next(SynSent(), Deliver(SYN)), SendAck), SendAck)
         == SynSent().(receiver := Holds([], 0, 0, map[]), acks := [Ack(1, 1, 2), Ack(1, 1, 2)])
  {
    assert Push(Empty(2), [], 0, false) == Empty(2);
    assert [Ack(1, 1, 2)] + [Ack(1, 1, 2)] == [Ack(1, 1, 2), Ack(1, 1, 2)];
  }

  lemma SynIsAcked()
    ensures Go(SynSent().(receiver := Holds([], 0, 0, map[]), acks := [Ack(1, 1, 2), Ack(1, 1, 2)]), Overtaking(0)) == Connected()
  {
    var s := SynSent().sender;
    assert Unwrap(1, 0, 0) == 1 && Unwrap(0, 0, 1) == 0;
    assert [SYN][1..] == [];
    var t := TakeAck(s, 1, 2);
    assert t == Connected().sender.(timer := RUNNING);
    assert Available(t) == 2 && NextPiece(t).Length() == 0;
    assert FillWindow(t) == t;
    SetOfOne(SYN);
    assert AckReceived(s, 1, 2) == Connected().sender;
  }

  /** Sending one piece that empties the stream. */
  lemma FillsOnce(s: Sender, seg: Segment)
    requires s.nextSeqno > 0 && s.nextSeqno != s.inFlight && s.out == [] && !s.stream.inputEnded && !s.stream.eof
    requires Available(s) > 0 && NextPiece(s) == seg && seg.payload == Buffer(s.stream) != [] && !seg.syn && !seg.fin
    ensures FillWindow(s) == SendPiece(s) == Emit(s.(stream := Pop(s.stream, Min(Available(s), MAX_PAYLOAD_SIZE))), seg)
  {
    var t := SendPiece(s);
    assert Buffer(t.stream) == [];
    if Available(t) > 0 {
      assert NextPiece(t).Length() == 0;
      assert SendPiece(t) == t;
    }
    assert FillLoop(t) == t;
  }

  /** Writing some bytes and sending them at once. */
  lemma WritesAndFills(y: System, data: seq<byte>, seg: Segment, history: seq<byte>, t: Sender)
    requires Output(y.receiver).capacity > 0 && history == y.sender.stream.history
    requires y.sender == Sends(history, y.sender.nextSeqno, y.sender.timer, y.sender.previousAck, y.sender.window,
                               y.sender.outstanding, y.sender.inFlight)
    requires 0 < |data| <= 2 && y.sender.nextSeqno > 0 && y.sender.nextSeqno != y.sender.inFlight
    requires y.sender.nextSeqno - y.sender.previousAck + |data| <= y.sender.window && y.sender.previousAck <= y.sender.nextSeqno
    requires seg == Segment(Wrap(y.sender.nextSeqno, 0), false, false, data, false, 0, 0, false, y.sender.nextSeqno)
    requires t == Sends(history + data, y.sender.nextSeqno + |data|, y.sender.timer.Start(), y.sender.previousAck,
                        y.sender.window, y.sender.outstanding + [seg], y.sender.inFlight + |data|)
    ensures Next(Next(y, AppWrite(data)), Fill) == y.(sender := t, network := y.network + {seg})
  {
    var s := Next(y, AppWrite(data)).sender;
    assert s.stream == StreamValue(5, history + data, |history|, false, false, false);
    assert Buffer(s.stream) == data;
    assert Available(s) == s.window - (s.nextSeqno - s.previousAck);
    assert Peek(s.stream, Min(Available(s), MAX_PAYLOAD_SIZE)) == data;
    assert NextPiece(s) == seg;
    FillsOnce(s, seg);
    SetOfOne(seg);
    assert FillWindow(s) == t.(out := [seg]);
  }

  lemma FirstBytesGoOut()
    ensures Next(Next(Connected(), AppWrite([0, 1])), Fill)
         == Full().(receiver := Holds([], 0, 0, map[]), acks := [Ack(1, 1, 2)])
  {
    assert [] + [0 as byte, 1] == [0, 1];
    assert [] + [D0] == [D0];
    WritesAndFills(Connected(), [0, 1], D0, [], Full().sender);
  }

  lemma FirstRun(held: map<nat, byte>)
    requires held == map[0 := 0, 1 := 1]
    ensures Contiguous(held, 0) == [0, 1] && From(held, 2) == map[]
  {
    assert held - {0} == map[1 := 1] && held - {0} - {1} == map[];
    assert Contiguous(held - {0}, 1) == [1];
  }

  lemma PushFirst(q: Reassembler)
    requires q == Empty(2)
    ensures Push(q, [0, 1], 0, false) == Full().receiver.reassembler
  {
    assert StoreRange(q, [0, 1], 0, 0, 1) == map[0 := 0];
    assert Store(q, [0, 1], 0) == map[0 := 0, 1 := 1];
    FirstRun(Store(q, [0, 1], 0));
    assert [] + [0 as byte, 1] == [0, 1];
  }

  lemma FirstBytesComeIn()
    ensures Next(Next(Full().(receiver := Holds([], 0, 0, map[]), acks := [Ack(1, 1, 2)]), Deliver(D0)), SendAck) == Full()
  {
    var r := Holds([], 0, 0, map[]);
    assert Unwrap(1, 0, 1) == 1;
    PushFirst(r.reassembler);
    assert SegmentReceived(r, D0) == Full().receiver;
    assert [Ack(1, 1, 2)] + [Ack(3, 3, 0)] == [Ack(1, 1, 2), Ack(3, 3, 0)];
  }

  lemma NewerAckFirst()
    ensures Go(Full(), Overtaking(1)) == Misled().(sender := Misled().sender.(window := 0), acks := [Ack(1, 1, 2)])
  {
    var s := Full().sender;
    assert Unwrap(3, 0, 1) == 3 && Unwrap(1, 0, 3) == 1;
    assert [D0][1..] == [];
    var t := TakeAck(s, 3, 0);
    assert t == Misled().sender.(window := 0, timer := RUNNING);
    assert Available(t) == 1 && NextPiece(t).Length() == 0;
    assert FillWindow(t) == t;
    SetOfOne(SYN);
    assert [Ack(1, 1, 2), Ack(3, 3, 0)][..1] + [Ack(1, 1, 2), Ack(3, 3, 0)][2..] == [Ack(1, 1, 2)];
  }

  lemma OlderAckLate()
    ensures Go(Misled().(sender := Misled().sender.(window := 0), acks := [Ack(1, 1, 2)]), Overtaking(0)) == Misled()
  {
    assert Unwrap(1, 0, 3) == 1;
    SetOfOne(SYN);
  }

  lemma TwoMoreGoOut()
    ensures Next(Next(Next(Next(Misled(), AppWrite([2])), Fill), AppWrite([3])), Fill) == Overrun()
  {
    OneMoreGoesOut();
    AnotherGoesOut(OneMore());
  }

  function OneMore(): System {
    Misled().(sender := Sends([0, 1, 2], 4, RUNNING, 3, 2, [D2], 1), network := {SYN, D0} + {D2})
  }

  lemma OneMoreGoesOut()
    ensures Next(Next(Misled(), AppWrite([2])), Fill) == OneMore()
  {
    assert [0 as byte, 1] + [2] == [0, 1, 2] && [] + [D2] == [D2];
    WritesAndFills(Misled(), [2], D2, [0, 1], OneMore().sender);
  }

  lemma AnotherGoesOut(y: System)
    requires y == OneMore()
    ensures Next(Next(y, AppWrite([3])), Fill) == Overrun()
  {
    assert [0 as byte, 1, 2] + [3] == [0, 1, 2, 3] && [D2] + [D3] == [D2, D3];
    WritesAndFills(y, [3], D3, [0, 1, 2], Overrun().sender);
    assert {SYN, D0} + {D2} + {D3} == {SYN, D0, D2, D3};
  }

  // What the reassembler does, whatever it has assembled before.

  lemma StoreOne(q: Reassembler, x: byte, index: nat)
    requires 0 < q.output.capacity < TWO64 && q.first <= index < q.first + q.output.capacity && index != Limit(q)
    ensures AfterStore(q, [x], index, false) == q.(held := q.held[index := x])
  {
    assert Stored(q, 1, index) == 1;
    SmallMod(index - q.first, q.output.capacity);
    assert StoreRange(q, [x], index, 0, 0) == q.held;
  }

  /** A byte beyond the limit is held although there is no room for it. */
  lemma HeldBeyond(q: Reassembler, x: byte)
    requires Room(q.output) == 0 && 2 <= q.output.capacity < TWO64 && q.held == map[] && !q.eofSeen
    ensures Push(q, [x], q.first + 1, false) == q.(held := map[q.first + 1 := x])
  {
    StoreOne(q, x, q.first + 1);
    var held := map[q.first + 1 := x];
    assert Contiguous(held, q.first) == [];
    assert From(held, q.first) == held;
    assert q.output.history + [] == q.output.history;
  }

  /** With room for one, the missing byte goes out; the one held is lost, and counted as assembled. */
  lemma CutShort(q: Reassembler, x: byte, y: byte)
    requires Room(q.output) == 1 && 2 <= q.output.capacity < TWO64 && q.held == map[q.first + 1 := y] && !q.eofSeen
    ensures Push(q, [x], q.first, false)
         == q.(output := q.output.(history := q.output.history + [x]), first := q.first + 2, held := map[])
  {
    StoreOne(q, x, q.first);
    var held := q.held[q.first := x];
    assert held - {q.first} == map[q.first + 1 := y] && held - {q.first} - {q.first + 1} == map[];
    assert Contiguous(held - {q.first}, q.first + 1) == [y] + Contiguous(map[], q.first + 2);
    assert Contiguous(held, q.first) == [x, y];
    assert [x, y][..1] == [x];
    assert From(held, q.first + 2) == map[];
  }

  lemma NextTaken(q: Reassembler, x: byte)
    requires Room(q.output) > 0 && 2 <= q.output.capacity < TWO64 && q.held == map[] && !q.eofSeen
    ensures Push(q, [x], q.first, false)
         == q.(output := q.output.(history := q.output.history + [x]), first := q.first + 1)
  {
    StoreOne(q, x, q.first);
    var held := map[q.first := x];
    assert held - {q.first} == map[];
    assert Contiguous(held, q.first) == [x] + Contiguous(map[], q.first + 1);
    assert From(held, q.first + 1) == map[];
    assert [x][..1] == [x];
  }

  /** Delivering a segment whose number unwraps to its place. */
  lemma Arrives(y: System, seg: Segment, q: Reassembler, p: Reassembler)
    requires y.receiver == Receiver(Some(0), q) && q.output.capacity > 0
    requires seg in y.network && InReach(y, seg) && Unwrap(seg.seqno, 0, NextByte(y.receiver)) == seg.at > 0
    requires Push(q, seg.payload, seg.at - 1, seg.fin) == p
    ensures Next(y, Deliver(seg)) == y.(receiver := Receiver(Some(0), p))
  {
  }

  lemma LastIsHeld(q: Reassembler)
    requires q.first == 2 && Room(q.output) == 0 && 2 <= q.output.capacity < TWO64 && q.held == map[] && !q.eofSeen
    ensures Push(q, [3], 3, false) == q.(held := map[3 := 3])
  {
    HeldBeyond(q, 3);
  }

  lemma LastArrives(y: System, q: Reassembler)
    requires y == Overrun() && q == y.receiver.reassembler
    ensures Next(y, Deliver(D3)) == y.(receiver := Receiver(Some(0), q.(held := map[3 := 3])))
  {
    LastIsHeld(q);
    assert Unwrap(4, 0, 3) == 4;
    Arrives(y, D3, q, q.(held := map[3 := 3]));
  }

  lemma OneIsRead()
    ensures Next(Overrun().(receiver := Holds([0, 1], 0, 2, map[3 := 3])), AppRead(1))
         == Overrun().(receiver := Holds([0, 1], 1, 2, map[3 := 3]))
  {
  }

  lemma BothAreAssembled(y: System, q: Reassembler, p: Reassembler)
    requires y == Overrun().(receiver := Holds([0, 1], 1, 2, map[3 := 3])) && q == y.receiver.reassembler
    requires p == Cut().receiver.reassembler
    ensures Next(y, Deliver(D2)) == y.(receiver := Receiver(Some(0), p))
  {
    CutShort(q, 2, 3);
    assert Unwrap(3, 0, 3) == 3;
    assert [0 as byte, 1] + [2] == [0, 1, 2];
    Arrives(y, D2, q, p);
  }

  lemma SecondAckTaken()
    ensures AckReceived(Cut().sender, 4, 2) == Resumed().sender
  {
    var s := Cut().sender;
    assert Unwrap(4, 0, 3) == 4 && Unwrap(3, 0, 4) == 3 && Unwrap(4, 0, 4) == 4;
    assert [D2, D3][1..] == [D3];
    var t := TakeAck(s, 4, 2);
    assert t == Resumed().sender;
    assert Available(t) == 1 && NextPiece(t).Length() == 0;
    assert FillWindow(t) == t;
  }

  lemma TwoAreRead()
    ensures Next(Next(Cut(), AppRead(2)), SendAck)
         == Cut().(receiver := Holds([0, 1, 2], 3, 4, map[]), acks := [Ack(4, 4, 2)])
  {
  }

  lemma ThirdIsAcked()
    ensures Go(Cut().(receiver := Holds([0, 1, 2], 3, 4, map[]), acks := [Ack(4, 4, 2)]), Overtaking(0)) == Resumed()
  {
    SecondAckTaken();
    SetOfOne(SYN);
  }

  lemma FifthGoesOut()
    ensures Next(Next(Resumed(), AppWrite([4])), Fill) == Broken().(receiver := Resumed().receiver)
  {
    assert [0 as byte, 1, 2, 3] + [4] == [0, 1, 2, 3, 4];
    assert [D3] + [D4] == [D3, D4];
    assert {SYN, D0, D2, D3} + {D4} == {SYN, D0, D2, D3, D4};
    WritesAndFills(Resumed(), [4], D4, [0, 1, 2, 3], Broken().sender);
  }

  lemma FifthFollowsThird(y: System, q: Reassembler, p: Reassembler)
    requires y == Broken().(receiver := Resumed().receiver) && q == y.receiver.reassembler
    requires p == Broken().receiver.reassembler
    ensures Next(y, Deliver(D4)) == y.(receiver := Receiver(Some(0), p))
  {
    NextTaken(q, 4);
    assert Unwrap(5, 0, 4) == 5;
    assert [0 as byte, 1, 2] + [4] == [0, 1, 2, 4];
    Arrives(y, D4, q, p);
  }

  // ---------- the whole run ----------

  function Opening(): seq<Move> {
    [Usual(Fill), Usual(Deliver(SYN)), Usual(SendAck), Usual(SendAck), Overtaking(0)]
  }

  function Misleading(): seq<Move> {
    [Usual(AppWrite([0, 1])), Usual(Fill), Usual(Deliver(D0)), Usual(SendAck), Overtaking(1), Overtaking(0)]
  }

  function Overrunning(): seq<Move> {
    [Usual(AppWrite([2])), Usual(Fill), Usual(AppWrite([3])), Usual(Fill),
     Usual(Deliver(D3)), Usual(AppRead(1)), Usual(Deliver(D2))]
  }

  function Resuming(): seq<Move> {
    [Usual(AppRead(2)), Usual(SendAck), Overtaking(0), Usual(AppWrite([4])), Usual(Fill), Usual(Deliver(D4))]
  }

  lemma RunCons(y: System, moves: seq<Move>, rest: seq<Move>)
    requires Output(y.receiver).capacity > 0 && moves != []
    ensures Run(y, moves + rest) == Run(Go(y, moves[0]), moves[1..] + rest)
  {
    assert (moves + rest)[1..] == moves[1..] + rest;
  }

  lemma {:induction false} RunConcat(y: System, moves: seq<Move>, rest: seq<Move>)
    requires Output(y.receiver).capacity > 0
    ensures Output(Run(y, moves).receiver).capacity > 0
    ensures Run(y, moves + rest) == Run(Run(y, moves), rest)
    decreases |moves|
  {
    if moves == [] {
      assert moves + rest == rest;
    } else {
      RunCons(y, moves, rest);
      RunConcat(Go(y, moves[0]), moves[1..], rest);
    }
  }

  lemma Opens()
    ensures Run(Start(), Opening()) == Connected()
  {
    SynGoesOut(5, 1000, 0, 2, SYN);
    SynComesIn();
    SynIsAcked();
  }

  lemma Misleads()
    ensures Run(Connected(), Misleading()) == Misled()
  {
    FirstBytesGoOut();
    FirstBytesComeIn();
    NewerAckFirst();
    OlderAckLate();
  }

  lemma Overruns()
    ensures Run(Misled(), Overrunning()) == Cut()
  {
    TwoMoreGoOut();
    var held := Holds([0, 1], 1, 2, map[3 := 3]);
    LastArrives(Overrun(), Overrun().receiver.reassembler);
    OneIsRead();
    BothAreAssembled(Overrun().(receiver := held), held.reassembler, Cut().receiver.reassembler);
  }

  lemma Resumes()
    ensures Run(Cut(), Resuming()) == Broken()
  {
    TwoAreRead();
    ThirdIsAcked();
    FifthGoesOut();
    var sent := Broken().(receiver := Resumed().receiver);
    FifthFollowsThird(sent, sent.receiver.reassembler, Broken().receiver.reassembler);
  }

  lemma BrokenIsNoPrefix()
    ensures !(Output(Broken().receiver).history <= Broken().sender.stream.history)
  {
    assert Output(Broken().receiver).history[3] != Broken().sender.stream.history[3];
  }

  /** With acknowledgments out of order the receiver's bytes need not be a prefix of those written. */
  lemma BreaksPrefix()
    ensures var y := Run(Start(), Opening() + Misleading() + Overrunning() + Resuming());
            !(Output(y.receiver).history <= y.sender.stream.history)
  {
    Opens();
    Misleads();
    Overruns();
    Resumes();
    RunConcat(Start(), Opening() + Misleading() + Overrunning(), Resuming());
    RunConcat(Start(), Opening() + Misleading(), Overrunning());
    RunConcat(Start(), Opening(), Misleading());
    BrokenIsNoPrefix();
  }
}
