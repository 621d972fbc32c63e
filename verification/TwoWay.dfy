/**
 * Two connections facing each other over a network that loses, repeats and reorders. Acknowledgments ride on
 * the segments of the other direction. Each direction is the transfer system of one sender and one receiver.
 */
module TwoWay {
  import opened Words
  import opened WrappingIntegers
  import opened ByteStreams
  import opened Segments
  import opened Sending
  import opened SenderInvariants
  import opened Receiving
  import opened Transfer
  import opened TransferSafety
  import opened AnyAcks
  import opened Connecting
  import C = ConnectionRuns

  /** A segment on its way; `number` is the absolute number it acknowledges and is read by no operation. */
  datatype Packet = Packet(seg: Segment, number: nat)

  datatype Pair = Pair(a: Connection, b: Connection, toB: set<Packet>, toA: set<Packet>)

  /** What one connection does: something of its own, or taking a packet of the other. */
  datatype Act = Acts(event: C.Event) | Hears(packet: Packet)

  datatype Turn = First(act: Act) | Second(act: Act)

  // ---------- steps ----------

  ghost function NewPackets(before: seq<Segment>, d: Connection): set<Packet> {
    set i | |before| <= i < |d.out| :: Packet(d.out[i], AckNumber(d.receiver))
  }

  ghost function Moved(p: Pair, d: Connection): Pair {
    p.(a := d, toB := p.toB + NewPackets(p.a.out, d))
  }

  /** A packet within reach, whose acknowledgment, if it has one, is in reach and passes the sender's test. */
  predicate Heeded(c: Connection, q: Packet) {
    q.seg.rst ||
    (&& Distance(q.seg.at, NextByte(c.receiver)) < TWO31
     && (q.seg.ack ==> AckInReach(c.sender, AckOf(q)) && Passes(c.sender, q.seg.ackno, q.seg.win)))
  }

  predicate MayAct(c: Connection, e: C.Event) {
    c.active && !e.Receives? && (e.Writes? ==> !c.sender.stream.inputEnded)
  }

  ghost predicate Roomy(p: Pair) {
    Output(p.a.receiver).capacity > 0 && Output(p.b.receiver).capacity > 0
  }

  /** Acts that cannot happen change nothing. */
  ghost function ByFirst(p: Pair, act: Act): Pair
    requires Roomy(p)
  {
    match act
    case Acts(e) => if MayAct(p.a, e) then Moved(p, C.After(p.a, e)) else p
    case Hears(q) =>
      if q in p.toA && p.a.active && Heeded(p.a, q) then Moved(p, Connecting.SegmentReceived(p.a, q.seg)) else p
  }

  function Swap(p: Pair): Pair {
    Pair(p.b, p.a, p.toA, p.toB)
  }

  ghost function Go(p: Pair, turn: Turn): Pair
    requires Roomy(p)
  {
    match turn
    case First(act) => ByFirst(p, act)
    case Second(act) => Swap(ByFirst(Swap(p), act))
  }

  // ---------- the two directions ----------

  /** A segment without what its sender's receiver had to say. */
  function Bare(seg: Segment): Segment {
    seg.(ack := false, ackno := 0, win := 0)
  }

  function AckOf(q: Packet): Ack {
    Ack(q.number, q.seg.ackno, q.seg.win)
  }

  ghost function DataOf(packets: set<Packet>): set<Segment> {
    set q | q in packets && !q.seg.rst :: Bare(q.seg)
  }

  ghost function AcksOf(packets: set<Packet>): set<Ack> {
    set q | q in packets && q.seg.ack :: AckOf(q)
  }

  /** One direction as an open transfer system. */
  ghost function Way(s: Sender, r: Receiver, there: set<Packet>, back: set<Packet>): Open {
    Open(System(s, r, DataOf(there), []), AcksOf(back))
  }

  ghost predicate AllBare(segs: seq<Segment>) {
    forall i :: 0 <= i < |segs| ==> segs[i] == Bare(segs[i]) && !segs[i].rst
  }

  ghost predicate WayOk(s: Sender, r: Receiver, there: set<Packet>, back: set<Packet>) {
    Loose(Way(s, r, there, back)) && AllBare(s.outstanding)
  }

  ghost predicate BothOk(p: Pair) {
    WayOk(p.a.sender, p.b.receiver, p.toB, p.toA) && WayOk(p.b.sender, p.a.receiver, p.toA, p.toB)
  }

  // ---------- the sender's queue only grows at its end ----------

  lemma {:induction false} FillLoopQueue(s: Sender, x: seq<Segment>)
    ensures FillLoop(s.(out := x + s.out)) == FillLoop(s).(out := x + FillLoop(s).out)
    decreases |Buffer(s.stream)|, if s.stream.eof then 0 else 1
  {
    var t := s.(out := x + s.out);
    assert NextPiece(t) == NextPiece(s) && Available(t) == Available(s);
    if Available(s) != 0 {
      if s.stream.eof {
        assert x + s.out + [Build(s, false, true, [])] == x + (s.out + [Build(s, false, true, [])]);
      } else {
        var u := SendPiece(s);
        assert x + s.out + [NextPiece(s)] == x + (s.out + [NextPiece(s)]);
        assert SendPiece(t) == u.(out := x + u.out);
        if NextPiece(s).Length() != 0 {
          FillLoopQueue(u, x);
        }
      }
    }
  }

  lemma FillQueue(s: Sender)
    ensures FillWindow(s) == FillWindow(s.(out := [])).(out := s.out + FillWindow(s.(out := [])).out)
  {
    var t := s.(out := []);
    assert t.(out := s.out + t.out) == s;
    if s.nextSeqno == 0 {
      assert s.out + [Build(s, true, false, [])] == s.out + ([] + [Build(s, true, false, [])]);
    } else if s.nextSeqno != s.inFlight {
      FillLoopQueue(t, s.out);
    }
  }

  lemma SetOfConcat(x: seq<Segment>, y: seq<Segment>)
    ensures SetOf(x + y) == SetOf(x) + SetOf(y)
  {
    forall seg | seg in SetOf(x) + SetOf(y)
      ensures seg in SetOf(x + y)
    {
      if seg in SetOf(x) {
        var i :| 0 <= i < |x| && x[i] == seg;
        assert (x + y)[i] == seg;
      } else {
        var i :| 0 <= i < |y| && y[i] == seg;
        assert (x + y)[|x| + i] == seg;
      }
    }
  }

  /** Filling after other steps, and handing over once, is handing over in between. */
  lemma FlushFill(y: System, s: Sender)
    requires Output(y.receiver).capacity > 0
    ensures Next(Flush(y, s), Fill) == Flush(y, FillWindow(s))
  {
    FillQueue(s);
    SetOfConcat(s.out, FillWindow(s.(out := [])).out);
  }

  lemma FlushBare(y: System, s: Sender)
    requires Output(y.receiver).capacity > 0
    ensures Next(Flush(y, s), SendBare) == Flush(y, SendEmpty(s))
  {
    var seg := Build(s, false, false, []);
    assert [] + [seg] == [seg];
    SetOfConcat(s.out, [seg]);
  }

  // ---------- what is built is bare ----------

  ghost predicate BareSender(s: Sender) {
    AllBare(s.outstanding) && AllBare(s.out)
  }

  lemma {:induction false} FillLoopBare(s: Sender)
    requires BareSender(s)
    ensures BareSender(FillLoop(s))
    decreases |Buffer(s.stream)|, if s.stream.eof then 0 else 1
  {
    if Available(s) != 0 && !s.stream.eof && NextPiece(s).Length() != 0 {
      FillLoopBare(SendPiece(s));
    }
  }

  lemma FillBare(s: Sender)
    requires BareSender(s)
    ensures BareSender(FillWindow(s))
  {
    if s.nextSeqno > 0 {
      FillLoopBare(s);
    }
  }

  lemma AckBare(s: Sender, ackno: u32, window: u16)
    requires BareSender(s)
    ensures BareSender(AckReceived(s, ackno, window))
  {
    if IsNewAck(s, ackno) {
      var t := TakeAck(s, ackno, window);
      TakeAckSuffix(s, ackno, window);
      DropAckedFrame(s.(window := window, previousAck := Unwrap(ackno, s.isn, s.previousAck),
                      timer := s.timer.ResetRto().Stop().Start()));
      assert t.out == s.out;
      var k := |s.outstanding| - |t.outstanding|;
      assert forall i :: 0 <= i < |t.outstanding| ==> t.outstanding[i] == s.outstanding[k + i];
      FillBare(t);
    }
  }

  // ---------- handing over ----------

  /** The packets a flush makes of a queue. */
  ghost function Packed(r: Receiver, segs: seq<Segment>): set<Packet> {
    set i | 0 <= i < |segs| :: Packet(Stamp(r, segs[i]), AckNumber(r))
  }

  lemma FlushPacks(m: Connection, d: Connection)
    requires d == FlushSender(m)
    ensures NewPackets(m.out, d) == Packed(m.receiver, m.sender.out)
  {
    FlushMeans(m);
    AppendedPacks(m.out, m.sender.out, d);
  }

  lemma AppendedPacks(before: seq<Segment>, segs: seq<Segment>, d: Connection)
    requires d.out == before + Stamped(d.receiver, segs)
    ensures NewPackets(before, d) == Packed(d.receiver, segs)
  {
    forall i | 0 <= i < |segs|
      ensures Packet(Stamp(d.receiver, segs[i]), AckNumber(d.receiver)) in NewPackets(before, d)
    {
      assert d.out[|before| + i] == Stamp(d.receiver, segs[i]);
    }
    forall i | |before| <= i < |d.out|
      ensures Packet(d.out[i], AckNumber(d.receiver)) in Packed(d.receiver, segs)
    {
      assert d.out[i] == Stamp(d.receiver, segs[i - |before|]);
    }
  }

  lemma StampBare(r: Receiver, seg: Segment)
    requires seg == Bare(seg) && !seg.rst
    ensures var q := Packet(Stamp(r, seg), AckNumber(r));
            && Bare(q.seg) == seg && !q.seg.rst
            && (q.seg.ack ==> r.isn.Some? && AckOf(q) == Current(r))
  {
  }

  lemma PackedData(r: Receiver, segs: seq<Segment>)
    requires AllBare(segs)
    ensures DataOf(Packed(r, segs)) == SetOf(segs)
    ensures forall a :: a in AcksOf(Packed(r, segs)) ==> r.isn.Some? && a == Current(r)
  {
    forall i | 0 <= i < |segs|
      ensures segs[i] in DataOf(Packed(r, segs))
    {
      StampBare(r, segs[i]);
      assert Packet(Stamp(r, segs[i]), AckNumber(r)) in Packed(r, segs);
    }
    forall q | q in Packed(r, segs)
      ensures Bare(q.seg) in SetOf(segs) && (q.seg.ack ==> r.isn.Some? && AckOf(q) == Current(r))
    {
      var i :| 0 <= i < |segs| && q == Packet(Stamp(r, segs[i]), AckNumber(r));
      StampBare(r, segs[i]);
    }
  }

  lemma UnionOf(x: set<Packet>, y: set<Packet>)
    ensures DataOf(x + y) == DataOf(x) + DataOf(y) && AcksOf(x + y) == AcksOf(x) + AcksOf(y)
  {
    assert forall q :: q in x || q in y ==> q in x + y;
  }

  /** What a flush adds to the network: data of one direction, and at most one acknowledgment of the other. */
  lemma FlushAdds(m: Connection, d: Connection, packets: set<Packet>)
    requires d == FlushSender(m) && AllBare(m.sender.out)
    ensures DataOf(packets + NewPackets(m.out, d)) == DataOf(packets) + SetOf(m.sender.out)
    ensures forall a :: a in AcksOf(packets + NewPackets(m.out, d)) ==>
              a in AcksOf(packets) || (m.receiver.isn.Some? && a == Current(m.receiver))
  {
    FlushPacks(m, d);
    PackedData(m.receiver, m.sender.out);
    UnionOf(packets, NewPackets(m.out, d));
  }

  lemma SenderSide(y: System, m: Connection, d: Connection, there: set<Packet>, back: set<Packet>)
    requires d == FlushSender(m) && BareSender(m.sender)
    requires y.network == DataOf(there) && y.acks == [] && Loose(Open(Flush(y, m.sender), AcksOf(back)))
    ensures WayOk(d.sender, y.receiver, there + NewPackets(m.out, d), back)
  {
    FlushMeans(m);
    FlushAdds(m, d, there);
  }

  lemma ReceiverSide(s: Sender, m: Connection, d: Connection, there: set<Packet>, back: set<Packet>)
    requires d == FlushSender(m) && AllBare(m.sender.out) && AllBare(s.outstanding)
    requires Loose(Way(s, m.receiver, there, back))
    ensures WayOk(s, d.receiver, there, back + NewPackets(m.out, d))
  {
    FlushMeans(m);
    FlushAdds(m, d, back);
    assert m.receiver.isn.Some? ==> Offered(Current(m.receiver), s, m.receiver);
  }

  // ---------- what the sender does, with its queue not yet handed over ----------

  ghost predicate Queues(y: System, s: Sender, offers: set<Ack>) {
    Loose(Open(Flush(y, s), offers)) && BareSender(s)
  }

  lemma QueuesAtFirst(y: System, offers: set<Ack>)
    requires Loose(Open(y, offers)) && AllBare(y.sender.outstanding)
    ensures Queues(y, y.sender, offers)
  {
    assert SetOf([]) == {};
    assert Flush(y, y.sender) == y;
  }

  lemma ThenFill(y: System, s: Sender, offers: set<Ack>)
    requires Queues(y, s, offers)
    ensures Queues(y, FillWindow(s), offers)
  {
    GoLoose(Open(Flush(y, s), offers), Does(Fill));
    FlushFill(y, s);
    FillBare(s);
  }

  lemma ThenBare(y: System, s: Sender, offers: set<Ack>)
    requires Queues(y, s, offers)
    ensures Queues(y, SendEmpty(s), offers)
  {
    GoLoose(Open(Flush(y, s), offers), Does(SendBare));
    FlushBare(y, s);
  }

  lemma ThenTick(y: System, offers: set<Ack>, ms: nat)
    requires Loose(Open(y, offers)) && AllBare(y.sender.outstanding)
    ensures Queues(y, Sending.Tick(y.sender, ms), offers)
  {
    GoLoose(Open(y, offers), Does(Step.Tick(ms)));
    TickBare(y.sender, ms);
  }

  lemma TickBare(s: Sender, ms: nat)
    requires BareSender(s)
    ensures BareSender(Sending.Tick(s, ms))
  {
  }

  lemma ThenAck(y: System, offers: set<Ack>, a: Ack)
    requires Loose(Open(y, offers)) && AllBare(y.sender.outstanding)
    requires a in offers && AckInReach(y.sender, a) && Passes(y.sender, a.ackno, a.window)
    ensures Queues(y, AckReceived(y.sender, a.ackno, a.window), offers)
  {
    GoLoose(Open(y, offers), Arrive(a));
    AckBare(y.sender, a.ackno, a.window);
  }

  lemma ThenStream(y: System, offers: set<Ack>, step: Step)
    requires Loose(Open(y, offers)) && AllBare(y.sender.outstanding) && (step.AppWrite? || step.AppEnd?)
    ensures Queues(y, Next(y, step).sender, offers)
  {
    GoLoose(Open(y, offers), Does(step));
    assert SetOf([]) == {};
    assert Flush(y, Next(y, step).sender) == Next(y, step);
  }

  // ---------- one connection acts ----------

  lemma Rooms(p: Pair)
    requires BothOk(p)
    ensures Roomy(p)
  {
  }

  /** A step that ends by handing over the sender's queue. */
  lemma HandsOver(p: Pair, y: System, m: Connection)
    requires BothOk(p) && m.out == p.a.out && y == Way(p.a.sender, p.b.receiver, p.toB, p.toA).core
    requires Queues(y, m.sender, AcksOf(p.toA)) && Loose(Way(p.b.sender, m.receiver, p.toA, p.toB))
    ensures BothOk(Moved(p, FlushSender(m)))
  {
    SenderSide(y, m, FlushSender(m), p.toB, p.toA);
    ReceiverSide(p.b.sender, m, FlushSender(m), p.toA, p.toB);
  }

  lemma ReadsOk(p: Pair, len: nat)
    requires BothOk(p)
    ensures BothOk(Moved(p, ReadData(p.a, len)))
  {
    ReadLoose(Way(p.b.sender, p.a.receiver, p.toA, p.toB), len, ReadData(p.a, len).receiver);
    NothingQueued(p, ReadData(p.a, len));
  }

  /** A step that leaves the sender alone. */
  lemma NothingQueued(p: Pair, m: Connection)
    requires BothOk(p) && m.out == p.a.out && m.sender == p.a.sender
    requires Loose(Way(p.b.sender, m.receiver, p.toA, p.toB))
    ensures BothOk(Moved(p, m))
  {
    var y := Way(p.a.sender, p.b.receiver, p.toB, p.toA).core;
    QueuesAtFirst(y, AcksOf(p.toA));
    assert FlushSender(m) == m;
    HandsOver(p, y, m);
  }

  lemma WritesOk(p: Pair, data: seq<byte>)
    requires BothOk(p) && !p.a.sender.stream.inputEnded
    ensures BothOk(Moved(p, WriteData(p.a, data)))
  {
    var y := Way(p.a.sender, p.b.receiver, p.toB, p.toA).core;
    ThenStream(y, AcksOf(p.toA), AppWrite(data));
    var s := p.a.sender.(stream := Write(p.a.sender.stream, data));
    ThenFill(y, s, AcksOf(p.toA));
    HandsOver(p, y, p.a.(sender := FillWindow(s)));
  }

  lemma EndsOk(p: Pair)
    requires BothOk(p)
    ensures BothOk(Moved(p, EndInputStream(p.a)))
  {
    var y := Way(p.a.sender, p.b.receiver, p.toB, p.toA).core;
    ThenStream(y, AcksOf(p.toA), AppEnd);
    var s := p.a.sender.(stream := EndInput(p.a.sender.stream));
    ThenFill(y, s, AcksOf(p.toA));
    HandsOver(p, y, p.a.(sender := FillWindow(s)));
  }

  lemma ConnectsOk(p: Pair)
    requires BothOk(p)
    ensures BothOk(Moved(p, Connect(p.a)))
  {
    var y := Way(p.a.sender, p.b.receiver, p.toB, p.toA).core;
    QueuesAtFirst(y, AcksOf(p.toA));
    ThenFill(y, p.a.sender, AcksOf(p.toA));
    HandsOver(p, y, p.a.(active := true, sender := FillWindow(p.a.sender)));
  }

  // ---------- resets ----------

  lemma ErrorInv(s: Sender)
    requires Inv(s)
    ensures Inv(s.(stream := s.stream.(error := true)))
  {
    QueuedSameHistory(s, s.stream.(error := true), s.finSent);
  }

  /** A sender that gives up keeps its direction, whatever it had queued. */
  lemma GivesUp(y: System, offers: set<Ack>, t: Sender)
    requires Loose(Open(y, offers)) && Inv(t) && t.out == []
    requires t == y.sender.(stream := t.stream, timer := t.timer, retransmissions := t.retransmissions)
    requires t.stream == y.sender.stream.(error := true)
    ensures Loose(Open(y.(sender := t), offers))
  {
    assert SetOf([]) == {};
    QuietStepSafe(y, t);
    assert Flush(y, t) == y.(sender := t);
  }

  lemma ErrorReceived(o: Open)
    requires Loose(o)
    ensures Loose(o.(core := o.core.(receiver := SetOutputError(o.core.receiver))))
  {
    var r := o.core.receiver;
    ErrorKeeps(r, o.core.sender);
    ReceiverStepSafe(o.core, SetOutputError(r));
    ReceiverMoves(o, SetOutputError(r));
  }

  lemma ErrorKeeps(r: Receiver, s: Sender)
    requires ReceiverOk(r, s)
    ensures ReceiverOk(SetOutputError(r), s) && Progresses(r, SetOutputError(r))
  {
  }

  /** Packets that carry neither data nor an acknowledgment add nothing to either direction. */
  lemma NothingNew(p: Pair, d: Connection)
    requires d.out == p.a.out || (|d.out| == |p.a.out| + 1 && d.out[|p.a.out|].rst && !d.out[|p.a.out|].ack)
    ensures DataOf(Moved(p, d).toB) == DataOf(p.toB) && AcksOf(Moved(p, d).toB) == AcksOf(p.toB)
  {
    assert forall q :: q in NewPackets(p.a.out, d) ==> q.seg.rst && !q.seg.ack;
    forall q | q in p.toB
      ensures q in Moved(p, d).toB
    {
    }
  }

  /** A connection that fails both its streams, with at most an RST to say so. */
  lemma FailsOk(p: Pair, d: Connection)
    requires BothOk(p) && Inv(d.sender) && d.sender.out == [] && d.receiver == SetOutputError(p.a.receiver)
    requires d.sender == p.a.sender.(stream := d.sender.stream, timer := d.sender.timer,
                                     retransmissions := d.sender.retransmissions)
    requires d.sender.stream == p.a.sender.stream.(error := true)
    requires d.out == p.a.out || (|d.out| == |p.a.out| + 1 && d.out[|p.a.out|].rst && !d.out[|p.a.out|].ack)
    ensures BothOk(Moved(p, d))
  {
    NothingNew(p, d);
    GivesUp(Way(p.a.sender, p.b.receiver, p.toB, p.toA).core, AcksOf(p.toA), d.sender);
    ErrorReceived(Way(p.b.sender, p.a.receiver, p.toA, p.toB));
  }

  lemma TickResets(p: Pair, ms: nat, c: Connection, d: Connection)
    requires BothOk(p) && c == p.a.(sinceLast := p.a.sinceLast + ms, sender := Sending.Tick(p.a.sender, ms))
    requires d == SendRst(c)
    ensures BothOk(Moved(p, d))
  {
    TickInv(p.a.sender, ms);
    ErrorInv(c.sender);
    FlushInv(c.sender.(stream := c.sender.stream.(error := true)));
    TickKeeps(p.a.sender, ms);
    FailsOk(p, d);
  }

  lemma TickKeeps(s: Sender, ms: nat)
    ensures var t := Sending.Tick(s, ms);
            t == s.(timer := t.timer, retransmissions := t.retransmissions, out := t.out)
  {
  }

  lemma TickGoesOn(p: Pair, ms: nat, c: Connection, d: Connection)
    requires BothOk(p) && c == p.a.(sinceLast := p.a.sinceLast + ms, sender := Sending.Tick(p.a.sender, ms))
    requires d == FlushSender(Finish(c))
    ensures BothOk(Moved(p, d))
  {
    var y := Way(p.a.sender, p.b.receiver, p.toB, p.toA).core;
    ThenTick(y, AcksOf(p.toA), ms);
    assert Finish(c) == c.(active := Finish(c).active);
    HandsOver(p, y, Finish(c));
  }

  lemma TicksOk(p: Pair, ms: nat, d: Connection)
    requires BothOk(p) && d == Connecting.Tick(p.a, ms)
    ensures BothOk(Moved(p, d))
  {
    var c := p.a.(sinceLast := p.a.sinceLast + ms, sender := Sending.Tick(p.a.sender, ms));
    if c.sender.retransmissions > MAX_RETX_ATTEMPTS {
      TickResets(p, ms, c, d);
    } else {
      TickGoesOn(p, ms, c, d);
    }
  }

  lemma RstOk(p: Pair)
    requires BothOk(p)
    ensures BothOk(Moved(p, Errors(p.a.(sinceLast := 0)).(active := false)))
  {
    ErrorInv(p.a.sender);
    FailsOk(p, Errors(p.a.(sinceLast := 0)).(active := false));
  }

  // ---------- one connection hears the other ----------

  /** The data of a packet reaches the receiver as a bare segment would. */
  lemma DataHeard(p: Pair, q: Packet)
    requires BothOk(p) && q in p.toA && !q.seg.rst && Distance(q.seg.at, NextByte(p.a.receiver)) < TWO31
    ensures Loose(Way(p.b.sender, Receiving.SegmentReceived(p.a.receiver, q.seg), p.toA, p.toB))
  {
    var o := Way(p.b.sender, p.a.receiver, p.toA, p.toB);
    assert Bare(q.seg) in o.core.network;
    BareReceived(p.a.receiver, q.seg);
    DeliverLoose(o, Bare(q.seg), Receiving.SegmentReceived(p.a.receiver, q.seg));
  }

  lemma BareReceived(r: Receiver, seg: Segment)
    requires Output(r).capacity > 0
    ensures Receiving.SegmentReceived(r, Bare(seg)) == Receiving.SegmentReceived(r, seg)
  {
  }

  /** And its acknowledgment the sender. */
  lemma AckHeard(p: Pair, q: Packet, y: System, s: Sender)
    requires BothOk(p) && q in p.toA && !q.seg.rst && Heeded(p.a, q)
    requires y == Way(p.a.sender, p.b.receiver, p.toB, p.toA).core
    requires s == if q.seg.ack then AckReceived(p.a.sender, q.seg.ackno, q.seg.win) else p.a.sender
    ensures Queues(y, s, AcksOf(p.toA))
  {
    if q.seg.ack {
      assert AckOf(q) in AcksOf(p.toA);
      ThenAck(y, AcksOf(p.toA), AckOf(q));
    } else {
      QueuesAtFirst(y, AcksOf(p.toA));
    }
  }

  lemma Answers(y: System, s: Sender, r: Receiver, seg: Segment, offers: set<Ack>)
    requires Queues(y, s, offers)
    ensures Queues(y, Answered(s, r, seg), offers)
  {
    var t := if seg.Length() > 0 && s.out == [] then SendEmpty(s) else s;
    if seg.Length() > 0 && s.out == [] {
      ThenBare(y, s, offers);
    }
    if KeepAlive(r, seg) {
      ThenBare(y, t, offers);
    }
  }

  lemma HeardOk(p: Pair, q: Packet, y: System, heard: Connection)
    requires BothOk(p) && q in p.toA && !q.seg.rst && Heeded(p.a, q) && Output(p.a.receiver).capacity > 0
    requires heard == Listen(p.a.(sinceLast := 0), q.seg) && y == Way(p.a.sender, p.b.receiver, p.toB, p.toA).core
    ensures Queues(y, heard.sender, AcksOf(p.toA)) && Loose(Way(p.b.sender, heard.receiver, p.toA, p.toB))
    ensures heard.out == p.a.out
  {
    var s := if q.seg.ack then AckReceived(p.a.sender, q.seg.ackno, q.seg.win) else p.a.sender;
    AckHeard(p, q, y, s);
    DataHeard(p, q);
    if Ackno(heard.receiver).Some? {
      ThenFill(y, s, AcksOf(p.toA));
    }
  }

  lemma RepliesOk(p: Pair, q: Packet, y: System, heard: Connection)
    requires BothOk(p) && y == Way(p.a.sender, p.b.receiver, p.toB, p.toA).core && heard.out == p.a.out
    requires Queues(y, heard.sender, AcksOf(p.toA)) && Loose(Way(p.b.sender, heard.receiver, p.toA, p.toB))
    ensures BothOk(Moved(p, FlushSender(Reply(NoteClosing(heard, q.seg), q.seg))))
  {
    var noted := NoteClosing(heard, q.seg);
    assert noted == heard.(linger := noted.linger, finAcked := noted.finAcked, active := noted.active);
    Answers(y, noted.sender, noted.receiver, q.seg, AcksOf(p.toA));
    HandsOver(p, y, Reply(noted, q.seg));
  }

  lemma HearsOk(p: Pair, q: Packet)
    requires BothOk(p) && q in p.toA && p.a.active && Heeded(p.a, q)
    ensures Output(p.a.receiver).capacity > 0 && BothOk(Moved(p, Connecting.SegmentReceived(p.a, q.seg)))
  {
    Rooms(p);
    if q.seg.rst {
      RstOk(p);
    } else {
      var y := Way(p.a.sender, p.b.receiver, p.toB, p.toA).core;
      var heard := Listen(p.a.(sinceLast := 0), q.seg);
      HeardOk(p, q, y, heard);
      RepliesOk(p, q, y, heard);
    }
  }

  // ---------- runs ----------

  lemma ActsOk(p: Pair, e: C.Event)
    requires Roomy(p) && BothOk(p) && MayAct(p.a, e)
    ensures BothOk(Moved(p, C.After(p.a, e)))
  {
    match e
    case Connects => ConnectsOk(p);
    case Writes(data) => WritesOk(p, data);
    case Ends => EndsOk(p);
    case Reads(len) => ReadsOk(p, len);
    case Ticks(ms) => TicksOk(p, ms, Connecting.Tick(p.a, ms));
  }

  lemma ByFirstOk(p: Pair, act: Act)
    requires BothOk(p)
    ensures Roomy(p) && BothOk(ByFirst(p, act))
  {
    Rooms(p);
    match act
    case Acts(e) =>
      if MayAct(p.a, e) {
        ActsOk(p, e);
      }
    case Hears(q) =>
      if q in p.toA && p.a.active && Heeded(p.a, q) {
        HearsOk(p, q);
      }
  }

  lemma GoOk(p: Pair, turn: Turn)
    requires BothOk(p)
    ensures Roomy(p) && BothOk(Go(p, turn))
  {
    match turn
    case First(act) => ByFirstOk(p, act);
    case Second(act) => ByFirstOk(Swap(p), act);
  }

  ghost function Run(p: Pair, turns: seq<Turn>): Pair
    requires BothOk(p)
    decreases |turns|
  {
    if turns == [] then p
    else
      GoOk(p, turns[0]);
      Run(Go(p, turns[0]), turns[1..])
  }

  lemma {:induction false} RunOk(p: Pair, turns: seq<Turn>)
    requires BothOk(p)
    ensures BothOk(Run(p, turns))
    decreases |turns|
  {
    if turns != [] {
      GoOk(p, turns[0]);
      RunOk(Go(p, turns[0]), turns[1..]);
    }
  }

  lemma StartOk(a: Connection, b: Connection, sa: nat, ra: nat, ta: nat, ia: u32, sb: nat, rb: nat, tb: nat, ib: u32)
    requires ra > 0 && rb > 0 && a == NewConnection(sa, ra, ta, ia) && b == NewConnection(sb, rb, tb, ib)
    ensures BothOk(Pair(a, b, {}, {}))
  {
    InitSafe(sa, ta, ia, rb);
    InitSafe(sb, tb, ib, ra);
    assert DataOf({}) == {} && AcksOf({}) == {};
  }

  /**
   * Two connections of any capacities, timeouts and initial sequence numbers: in every run each has
   * assembled a prefix of what the other's application wrote, and all of it, ended, once the other has
   * its FIN acknowledged.
   */
  lemma BothPrefixes(a: Connection, b: Connection, sa: nat, ra: nat, ta: nat, ia: u32, sb: nat, rb: nat, tb: nat, ib: u32,
                     turns: seq<Turn>)
    requires ra > 0 && rb > 0 && a == NewConnection(sa, ra, ta, ia) && b == NewConnection(sb, rb, tb, ib)
    ensures BothOk(Pair(a, b, {}, {}))
    ensures var p := Run(Pair(a, b, {}, {}), turns);
            && Delivers(p.a.sender, p.b.receiver) && Delivers(p.b.sender, p.a.receiver)
  {
    StartOk(a, b, sa, ra, ta, ia, sb, rb, tb, ib);
    RunOk(Pair(a, b, {}, {}), turns);
    var p := Run(Pair(a, b, {}, {}), turns);
    SafeDelivers(Way(p.a.sender, p.b.receiver, p.toB, p.toA).core);
    SafeDelivers(Way(p.b.sender, p.a.receiver, p.toA, p.toB).core);
  }
}
