/** A run in which an empty FIN overtakes the only byte: the receiver ends early and the byte is never sent again. */
module EarlyEnd {
  import opened Words
  import opened WrappingIntegers
  import opened ByteStreams
  import opened Reassembly
  import opened Segments
  import opened Sending
  import opened Receiving
  import opened Transfer
  import opened TransferSafety

  const X: byte := 7
  const SYN := Segment(0, true, false, [], false, 0, 0, false, 0)
  const DATA := Segment(1, false, false, [X], false, 0, 0, false, 1)
  const FIN := Segment(2, false, true, [], false, 0, 0, false, 2)

  const RUNNING := Timer(1000, 1000, 0, true)

  function Steps(): seq<Step> {
    [Fill, Deliver(SYN), SendAck, DeliverAck, AppWrite([X]), Fill, AppEnd, Fill, Deliver(FIN), SendAck, DeliverAck]
  }

  function Start(): System {
    Init(1, 1000, 0, 2)
  }

  lemma ExecCons(y: System, step: Step, rest: seq<Step>)
    requires Output(y.receiver).capacity > 0
    ensures Output(Next(y, step).receiver).capacity > 0
    ensures Exec(y, [step] + rest) == Exec(Next(y, step), rest)
  {
    NextCapacity(y, step);
    assert ([step] + rest)[1..] == rest;
  }

  // The states the run goes through.

  function SynSent(): System {
    System(Sender(0, Fresh(1), 1, RUNNING, 0, 1, [SYN], [], 1, 0, false), NewReceiver(2), {SYN}, [])
  }

  function Connected(): System {
    System(Sender(0, Fresh(1), 1, Timer(1000, 1000, 0, false), 1, 2, [], [], 0, 0, false),
           Receiver(Some(0), Empty(2)), {SYN}, [])
  }

  function DataSent(): System {
    System(Sender(0, StreamValue(1, [X], 1, false, false, false), 2, RUNNING, 1, 2, [DATA], [], 1, 0, false),
           Receiver(Some(0), Empty(2)), {SYN, DATA}, [])
  }

  function FinSent(): System {
    System(Sender(0, StreamValue(1, [X], 1, true, true, false), 3, RUNNING, 1, 2, [DATA, FIN], [], 2, 0, true),
           Receiver(Some(0), Empty(2)), {SYN, DATA, FIN}, [])
  }

  function Ended(): Receiver {
    Receiver(Some(0), Reassembler(StreamValue(2, [], 0, true, true, false), 0, map[], true))
  }

  lemma SynComesIn()
    ensures Next(Next(SynSent(), Deliver(SYN)), SendAck)
         == SynSent().(receiver := Receiver(Some(0), Empty(2)), acks := [Ack(1, 1, 2)])
  {
  }

  lemma SynIsAcked()
    ensures Next(SynSent().(receiver := Receiver(Some(0), Empty(2)), acks := [Ack(1, 1, 2)]), DeliverAck) == Connected()
  {
  }

  lemma DataGoesOut()
    ensures Next(Next(Connected(), AppWrite([X])), Fill) == DataSent()
  {
    var s := Connected().sender.(stream := StreamValue(1, [X], 0, false, false, false));
    assert Next(Connected(), AppWrite([X])) == Connected().(sender := s);
    DataFills(s);
    SetOfOne(DATA);
  }

  lemma DataFills(s: Sender)
    requires s == Connected().sender.(stream := StreamValue(1, [X], 0, false, false, false))
    ensures FillWindow(s) == DataSent().sender.(out := [DATA])
  {
    assert Available(s) == 2;
    assert NextPiece(s) == DATA;
    var t := SendPiece(s);
    assert t == DataSent().sender.(out := [DATA]);
    assert Available(t) == 1 && NextPiece(t).Length() == 0;
    assert FillLoop(t) == t;
  }

  lemma FinGoesOut()
    ensures Next(Next(DataSent(), AppEnd), Fill) == FinSent()
  {
    SetOfOne(FIN);
    var s := Next(DataSent(), AppEnd).sender;
    assert s.stream == StreamValue(1, [X], 1, true, true, false);
    assert Available(s) == 1;
    assert FillLoop(s) == FinSent().sender.(out := [FIN]);
  }

  lemma FinOvertakes()
    ensures Next(FinSent(), Deliver(FIN)) == FinSent().(receiver := Ended())
  {
  }

  lemma ByteIsForgotten()
    ensures var y := Next(Next(FinSent().(receiver := Ended()), SendAck), DeliverAck);
            y.sender.outstanding == [FIN] && y.receiver == Ended() && y.sender.stream.history == [X]
  {
    SetOfOne(FIN);
    var s := FinSent().sender;
    assert Unwrap(2, 0, 1) == 2 && Unwrap(1, 0, 2) == 1 && Unwrap(2, 0, 2) == 2;
    assert [DATA, FIN][1..] == [FIN];
    var t := TakeAck(s, 2, 2);
    assert t.outstanding == [FIN] && t.inFlight == 1;
    assert Available(t) == 1;
    assert FillWindow(t) == t;
  }

  /** The receiver's input has ended with nothing assembled, though a byte was written and the sender no longer holds it. */
  lemma EndsEarly()
    ensures var y := Exec(Start(), Steps());
            && Output(y.receiver).inputEnded && Output(y.receiver).history == []
            && y.sender.stream.history == [X] && y.sender.outstanding == [FIN]
  {
    var last := [Deliver(FIN), SendAck, DeliverAck];
    var rest := [AppWrite([X]), Fill] + ([AppEnd, Fill] + last);
    assert Steps() == [Fill, Deliver(SYN), SendAck, DeliverAck] + rest;
    FirstHalf(rest);
    SecondHalf(last);
    assert last == [Deliver(FIN)] + ([SendAck, DeliverAck] + []);
    LastSteps();
  }

  lemma FirstHalf(rest: seq<Step>)
    ensures Exec(Start(), [Fill, Deliver(SYN), SendAck, DeliverAck] + rest) == Exec(Connected(), rest)
  {
    SynGoesOut(1, 1000, 0, 2, SYN);
    SynComesIn();
    SynIsAcked();
    var y2 := Next(SynSent(), Deliver(SYN));
    assert [Fill, Deliver(SYN), SendAck, DeliverAck] + rest == [Fill] + ([Deliver(SYN)] + ([SendAck] + ([DeliverAck] + rest)));
    ExecCons(Start(), Fill, [Deliver(SYN)] + ([SendAck] + ([DeliverAck] + rest)));
    ExecCons(SynSent(), Deliver(SYN), [SendAck] + ([DeliverAck] + rest));
    ExecCons(y2, SendAck, [DeliverAck] + rest);
    ExecCons(Next(y2, SendAck), DeliverAck, rest);
  }

  lemma SecondHalf(rest: seq<Step>)
    requires rest == [Deliver(FIN), SendAck, DeliverAck]
    ensures Exec(Connected(), [AppWrite([X]), Fill] + ([AppEnd, Fill] + rest)) == Exec(FinSent(), rest)
  {
    DataGoesOut();
    ExecTwo(Connected(), AppWrite([X]), Fill, [AppEnd, Fill] + rest);
    FinGoesOut();
    ExecTwo(DataSent(), AppEnd, Fill, rest);
  }

  lemma LastSteps()
    ensures var y := Exec(FinSent(), [Deliver(FIN)] + ([SendAck, DeliverAck] + []));
            y.sender.outstanding == [FIN] && y.receiver == Ended() && y.sender.stream.history == [X]
  {
    FinOvertakes();
    ExecCons(FinSent(), Deliver(FIN), [SendAck, DeliverAck] + []);
    ByteIsForgotten();
    ExecTwo(FinSent().(receiver := Ended()), SendAck, DeliverAck, []);
  }

  lemma ExecTwo(y: System, a: Step, b: Step, rest: seq<Step>)
    requires Output(y.receiver).capacity > 0
    ensures Output(Next(y, a).receiver).capacity > 0
    ensures Output(Next(Next(y, a), b).receiver).capacity > 0
    ensures Exec(y, [a, b] + rest) == Exec(Next(Next(y, a), b), rest)
  {
    assert [a, b] + rest == [a] + ([b] + rest);
    ExecCons(y, a, [b] + rest);
    ExecCons(Next(y, a), b, rest);
  }
}
