/** A segment without the ACK flag closes a connection whose FIN is not acknowledged. */
module FlaglessAck {
  import opened Words
  import opened WrappingIntegers
  import opened ByteStreams
  import opened Reassembly
  import opened Segments
  import opened Sending
  import opened Receiving
  import opened Connecting
  import opened ConnectionRuns

  lemma {:induction false} FlushIgnores(c: Connection, active: bool, finAcked: bool)
    ensures FlushSender(c.(active := active, finAcked := finAcked))
         == FlushSender(c).(active := active, finAcked := finAcked)
    decreases |c.sender.out|
  {
    if c.sender.out != [] {
      FlushIgnores(FlushOne(c), active, finAcked);
      assert FlushOne(c.(active := active, finAcked := finAcked)) == FlushOne(c).(active := active, finAcked := finAcked);
    }
  }

  lemma ReplyIgnores(c: Connection, seg: Segment, active: bool, finAcked: bool)
    ensures Reply(c.(active := active, finAcked := finAcked), seg)
         == Reply(c, seg).(active := active, finAcked := finAcked)
  {
  }

  /** The segment's number field alone closes a connection that does not linger; the sender knows its FIN is outstanding. */
  lemma ClosesUnacknowledged(c: Connection, seg: Segment)
    requires Sound(c) && c.active && c.finSent && !c.linger && c.sender.previousAck < c.sender.nextSeqno
    requires !seg.rst && !seg.ack && seg.ackno == Wrap(c.sender.nextSeqno, c.sender.isn)
    ensures var d := Connecting.SegmentReceived(c, seg);
            && !d.active && d.sender.finSent && d.sender.previousAck < d.sender.nextSeqno
            && Failed(d) == Failed(c) && NoNewRst(c.out, d.out)
  {
    var heard := Listen(c.(sinceLast := 0), seg);
    ListenSound(c.(sinceLast := 0), seg);
    FillAfterFin(c.sender);
    assert heard.sender == c.sender;
    ReplySound(heard, seg);
    FlushSound(Reply(heard, seg));
    FlushIgnores(Reply(heard, seg), false, true);
    assert NoteClosing(heard, seg) == heard.(active := false, finAcked := true);
    ReplyIgnores(heard, seg, false, true);
  }

  /**
   * After any legal run that waits for its FIN to be acknowledged without lingering: one such segment
   * leaves the connection inactive with no RST sent or received and the FIN not acknowledged. So a
   * clean shutdown needs the flag.
   */
  lemma UncleanShutdown(sendCapacity: nat, receiveCapacity: nat, timeout: nat, isn: u32, events: seq<Event>, seg: Segment)
    requires receiveCapacity > 0 && Legal(NewConnection(sendCapacity, receiveCapacity, timeout, isn), events)
    requires var c := Exec(NewConnection(sendCapacity, receiveCapacity, timeout, isn), events);
             && c.active && c.finSent && !c.linger && !Failed(c) && c.sender.previousAck < c.sender.nextSeqno
             && !seg.rst && !seg.ack && seg.ackno == Wrap(c.sender.nextSeqno, c.sender.isn)
    ensures !RstReceived(events + [Receives(seg)])
    ensures var c := Connecting.SegmentReceived(Exec(NewConnection(sendCapacity, receiveCapacity, timeout, isn), events), seg);
            !c.active && !RstSent(c.out) && c.sender.finSent && c.sender.previousAck < c.sender.nextSeqno
  {
    RunIsOk(sendCapacity, receiveCapacity, timeout, isn, events);
    var c := Exec(NewConnection(sendCapacity, receiveCapacity, timeout, isn), events);
    ClosesUnacknowledged(c, seg);
    NoNewRstSent(c.out, Connecting.SegmentReceived(c, seg).out);
    assert (events + [Receives(seg)])[..|events|] == events;
    RstReceivedLast(events + [Receives(seg)]);
  }

  // ---------- a legal run to such a state ----------

  const SYN := Segment(0, true, false, [], false, 0, 0, false, 0)
  const FIN := Segment(1, false, true, [], true, 1, 10, false, 1)
  const PLAIN := Segment(2, false, false, [], false, 2, 10, false, 2)
  const OUR_FIN := Segment(1, false, true, [], false, 0, 0, false, 1)

  const RUNNING := Timer(1000, 1000, 0, true)
  const STOPPED := Timer(1000, 1000, 0, false)

  function Start(): Connection {
    NewConnection(1, 1, 1000, 0)
  }

  function Answering(): Sender {
    Sender(0, Fresh(1), 1, RUNNING, 0, 1, [SYN], [], 1, 0, false)
  }

  function Opened(): Sender {
    Sender(0, Fresh(1), 1, STOPPED, 1, 10, [], [], 0, 0, false)
  }

  function Closing(): Sender {
    Sender(0, StreamValue(1, [], 0, true, true, false), 2, RUNNING, 1, 10, [OUR_FIN], [], 1, 0, true)
  }

  function Ended(): Receiver {
    Receiver(Some(0), Reassembler(StreamValue(1, [], 0, true, true, false), 0, map[], true))
  }

  lemma FlushesOne(c: Connection, seg: Segment)
    requires c.sender.out == [seg]
    ensures FlushSender(c) == c.(sender := c.sender.(out := []), out := c.out + [Stamp(c.receiver, seg)], finSent := c.finSent || seg.fin)
  {
    assert FlushSender(FlushOne(c)) == FlushOne(c);
  }

  lemma SynComesIn(c: Connection)
    requires c == Start()
    ensures var d := Connecting.SegmentReceived(c, SYN);
            d == c.(sender := Answering(), receiver := Receiver(Some(0), Empty(1)), out := d.out)
  {
    assert Push(Empty(1), [], 0, false) == Empty(1);
    var heard := Listen(c, SYN);
    assert heard == c.(sender := Answering().(out := [SYN]), receiver := Receiver(Some(0), Empty(1)));
    FlushesOne(heard, SYN);
  }

  lemma OurSynAcked()
    ensures AckReceived(Answering(), 1, 10) == Opened() && FillWindow(Opened()) == Opened()
  {
    assert Unwrap(1, 0, 0) == 1 && Unwrap(0, 0, 1) == 0;
    assert [SYN][1..] == [];
    var t := TakeAck(Answering(), 1, 10);
    assert t == Opened().(timer := RUNNING);
    assert Available(t) == 10 && NextPiece(t).Length() == 0;
    assert FillWindow(t) == t;
    assert Available(Opened()) == 10 && NextPiece(Opened()).Length() == 0;
  }

  lemma FinComesIn(c: Connection)
    requires c.sender == Answering() && c.receiver == Receiver(Some(0), Empty(1)) && c.active && c.linger && !c.finSent
    ensures var d := Connecting.SegmentReceived(c, FIN);
            d == c.(sender := Opened(), receiver := Ended(), out := d.out, linger := false, sinceLast := 0)
  {
    FinHeard(c.(sinceLast := 0));
    var heard := Listen(c.(sinceLast := 0), FIN);
    var answered := Reply(NoteClosing(heard, FIN), FIN);
    FlushesOne(answered, Build(Opened(), false, false, []));
  }

  lemma FinHeard(c: Connection)
    requires c.sender == Answering() && c.receiver == Receiver(Some(0), Empty(1))
    ensures Listen(c, FIN) == c.(sender := Opened(), receiver := Ended())
  {
    OurSynAcked();
    assert Unwrap(1, 0, 1) == 1;
    assert Receiving.SegmentReceived(c.receiver, FIN) == Ended();
  }

  lemma AppEnds(c: Connection)
    requires c.sender == Opened() && !c.finSent
    ensures var d := EndInputStream(c); d == c.(sender := Closing(), out := d.out, finSent := true)
  {
    var s := Opened().(stream := EndInput(Opened().stream));
    assert Available(s) == 10;
    assert FillWindow(s) == Closing().(out := [OUR_FIN]);
    FlushesOne(c.(sender := FillWindow(s)), OUR_FIN);
  }

  ghost predicate Reaches(events: seq<Event>, c: Connection) {
    Legal(Start(), events) && Exec(Start(), events) == c
  }

  lemma StepReaches(events: seq<Event>, c: Connection, e: Event)
    requires Reaches(events, c) && Allowed(c, e) && Output(c.receiver).capacity > 0
    ensures Reaches(events + [e], After(c, e))
  {
    assert (events + [e])[..|events|] == events;
  }

  lemma ReachesStart(none: seq<Event>)
    requires none == []
    ensures Reaches(none, Start())
  {
  }

  lemma SynAllowed(c: Connection)
    requires c.active && !c.finSent && Output(c.receiver).capacity > 0
    ensures Allowed(c, Receives(SYN)) && After(c, Receives(SYN)) == Connecting.SegmentReceived(c, SYN)
  {
  }

  lemma ReachesAnswering(none: seq<Event>, c: Connection) returns (d: Connection)
    requires none == [] && c == Start()
    ensures Reaches(none + [Receives(SYN)], d)
    ensures d == c.(sender := Answering(), receiver := Receiver(Some(0), Empty(1)), out := d.out)
  {
    ReachesStart(none);
    SynAllowed(c);
    StepReaches(none, c, Receives(SYN));
    SynComesIn(c);
    d := Connecting.SegmentReceived(c, SYN);
  }

  lemma FinAllowed(c: Connection)
    requires c.active && !c.finSent && c.sender == Answering() && c.receiver == Receiver(Some(0), Empty(1))
    ensures Allowed(c, Receives(FIN)) && Output(c.receiver).capacity > 0
    ensures After(c, Receives(FIN)) == Connecting.SegmentReceived(c, FIN)
  {
  }

  lemma ReachesEnded(events: seq<Event>, c: Connection) returns (d: Connection)
    requires Reaches(events, c) && c.active && c.linger && !c.finSent
    requires c.sender == Answering() && c.receiver == Receiver(Some(0), Empty(1))
    ensures Reaches(events + [Receives(FIN)], d)
    ensures d == c.(sender := Opened(), receiver := Ended(), out := d.out, linger := false, sinceLast := 0)
  {
    FinAllowed(c);
    StepReaches(events, c, Receives(FIN));
    FinComesIn(c);
    d := Connecting.SegmentReceived(c, FIN);
  }

  lemma ReachesClosing(events: seq<Event>, c: Connection) returns (d: Connection)
    requires Reaches(events, c) && c.active && !c.finSent && c.sender == Opened() && c.receiver == Ended()
    ensures Reaches(events + [Ends], d)
    ensures d == c.(sender := Closing(), out := d.out, finSent := true)
  {
    AppEnds(c);
    StepReaches(events, c, Ends);
    d := EndInputStream(c);
  }

  /** A passive close is such a run: the peer opens, ends its stream, and we end ours. */
  lemma PassiveClose(events: seq<Event>)
    requires events == [Receives(SYN), Receives(FIN), Ends]
    ensures Legal(Start(), events)
    ensures var c := Exec(Start(), events);
            && c.active && c.finSent && !c.linger && !Failed(c) && c.sender.previousAck < c.sender.nextSeqno
            && PLAIN.ackno == Wrap(c.sender.nextSeqno, c.sender.isn)
  {
    var c1 := ReachesAnswering([], Start());
    var c2 := ReachesEnded([] + [Receives(SYN)], c1);
    var c3 := ReachesClosing([] + [Receives(SYN)] + [Receives(FIN)], c2);
    assert events == [] + [Receives(SYN)] + [Receives(FIN)] + [Ends];
    assert Wrap(2, 0) == 2;
  }
}
