/**
 * One direction of a connection as a transition system: sender, receiver, a network that loses,
 * repeats and reorders segments, and a channel that brings acknowledgments in order but loses some.
 */
module Transfer {
  import opened Words
  import opened WrappingIntegers
  import opened ByteStreams
  import opened Reassembly
  import opened Segments
  import opened Sending
  import opened SenderInvariants
  import opened Receiving
  import SenderRuns

  /** An acknowledgment on its way; `number` is the absolute number it was made from and is read by no operation. */
  datatype Ack = Ack(number: nat, ackno: u32, window: u16)

  datatype System = System(sender: Sender, receiver: Receiver, network: set<Segment>, acks: seq<Ack>)

  datatype Step =
    | AppWrite(data: seq<byte>)
    | AppEnd
    | Fill
    | Tick(ms: nat)
    | SendBare
    | Deliver(seg: Segment)
    | AppRead(len: nat)
    | SendAck
    | LoseAck(index: nat)
    | DeliverAck

  function Init(sendCapacity: nat, timeout: nat, isn: u32, receiveCapacity: nat): System {
    System(NewSender(sendCapacity, timeout, isn), NewReceiver(receiveCapacity), {}, [])
  }

  function SetOf(segs: seq<Segment>): set<Segment> {
    set i | 0 <= i < |segs| :: segs[i]
  }

  /** Hands everything the sender has queued to the network. */
  function Flush(y: System, s: Sender): System {
    y.(sender := s.(out := []), network := y.network + SetOf(s.out))
  }

  /** A segment within half the sequence space of the receiver's position. */
  predicate InReach(y: System, seg: Segment) {
    Distance(seg.at, NextByte(y.receiver)) < TWO31
  }

  /**
   * Steps that cannot happen change nothing: writing after the end, delivering what is not in the
   * network or is half the sequence space away, acknowledging before the SYN has come.
   */
  function Next(y: System, step: Step): System
    requires Output(y.receiver).capacity > 0
  {
    match step
    case AppWrite(data) =>
      if y.sender.stream.inputEnded then y
      else y.(sender := y.sender.(stream := Write(y.sender.stream, data)))
    case AppEnd => y.(sender := y.sender.(stream := EndInput(y.sender.stream)))
    case Fill => Flush(y, FillWindow(y.sender))
    case Tick(ms) => Flush(y, Sending.Tick(y.sender, ms))
    case SendBare => Flush(y, SendEmpty(y.sender))
    case Deliver(seg) =>
      if seg in y.network && InReach(y, seg) then y.(receiver := SegmentReceived(y.receiver, seg)) else y
    case AppRead(len) =>
      var r := y.receiver.reassembler;
      y.(receiver := y.receiver.(reassembler := r.(output := Pop(r.output, len))))
    case SendAck =>
      if y.receiver.isn.None? then y
      else y.(acks := y.acks + [Ack(AckNumber(y.receiver), Ackno(y.receiver).value, WindowField(y.receiver))])
    case LoseAck(i) =>
      if i < |y.acks| then y.(acks := y.acks[..i] + y.acks[i + 1..]) else y
    case DeliverAck =>
      if y.acks == [] then y
      else Flush(y, AckReceived(y.sender, y.acks[0].ackno, y.acks[0].window)).(acks := y.acks[1..])
  }

  lemma SetOfOne(seg: Segment)
    ensures SetOf([seg]) == {seg} && SetOf([]) == {}
  {
    assert [seg][0] == seg;
  }

  /** The first fill of any run sends the SYN. */
  lemma SynGoesOut(sendCapacity: nat, timeout: nat, isn: u32, receiveCapacity: nat, syn: Segment)
    requires receiveCapacity > 0 && syn == Segment(isn, true, false, [], false, 0, 0, false, 0)
    ensures Next(Init(sendCapacity, timeout, isn, receiveCapacity), Fill)
         == System(Sender(isn, Fresh(sendCapacity), 1, NewTimer(timeout), 0, 1, [syn], [], 1, 0, false),
                   NewReceiver(receiveCapacity), {syn}, [])
  {
    SetOfOne(syn);
    assert Build(NewSender(sendCapacity, timeout, isn), true, false, []) == syn;
    assert [] + [syn] == [syn];
  }

  // ---------- invariant ----------

  /** The bytes the sender has taken from its stream so far. */
  function Sent(s: Sender): seq<byte> {
    s.stream.history[..s.stream.bytesRead]
  }

  ghost predicate SenderOk(s: Sender) {
    Inv(s) && SenderRuns.WindowOk(s) && s.out == []
  }

  /** The receiver holds sent bytes only, and has seen an end only after the FIN went out. */
  ghost predicate ReceiverOk(r: Receiver, s: Sender) {
    && Faithful(r.reassembler, Sent(s))
    && (r.isn.Some? ==> r.isn.value == s.isn && s.nextSeqno > 0)
    && (r.isn.None? ==> Output(r).history == [] && !r.reassembler.eofSeen)
    && (Output(r).inputEnded ==> r.reassembler.eofSeen)
    && (r.reassembler.eofSeen ==> s.finSent)
  }

  /** A segment in the network carries its own bytes, was sent, and starts inside the receiver's window. */
  ghost predicate PacketOk(seg: Segment, s: Sender, r: Receiver) {
    Blank(seg) ||
    (&& Carries(seg, s.isn, s.stream) && seg.at + seg.Length() <= s.nextSeqno
     && (seg.at > 0 ==> seg.at - 1 <= Limit(r.reassembler)))
  }

  ghost predicate NetworkOk(network: set<Segment>, s: Sender, r: Receiver) {
    && (forall seg :: seg in network ==> PacketOk(seg, s, r))
    && (forall i :: 0 <= i < |s.outstanding| ==> s.outstanding[i] in network)
  }

  /** Number and right edge do not exceed what the receiver would acknowledge now. */
  ghost predicate NotAhead(number: nat, window: u16, r: Receiver) {
    number <= AckNumber(r) && number + window <= AckNumber(r) + WindowField(r)
  }

  ghost predicate InOrder(a: Ack, b: Ack) {
    a.number <= b.number && a.number + a.window <= b.number + b.window
  }

  ghost predicate AckOk(a: Ack, s: Sender, r: Receiver) {
    && a.ackno == Wrap(a.number, s.isn) && r.isn.Some?
    && NotAhead(a.number, a.window, r)
    && s.previousAck <= a.number && s.previousAck + s.window <= a.number + a.window
  }

  ghost predicate AcksOk(acks: seq<Ack>, s: Sender, r: Receiver) {
    && NotAhead(s.previousAck, s.window, r)
    && (forall i :: 0 <= i < |acks| ==> AckOk(acks[i], s, r))
    && (forall i, j :: 0 <= i < j < |acks| ==> InOrder(acks[i], acks[j]))
  }

  ghost predicate Safe(y: System) {
    && SenderOk(y.sender) && ReceiverOk(y.receiver, y.sender)
    && NetworkOk(y.network, y.sender, y.receiver) && AcksOk(y.acks, y.sender, y.receiver)
  }

  // ---------- the receiver's number is below the sender's ----------

  lemma InFlightSmall(s: Sender)
    requires SenderOk(s)
    ensures s.nextSeqno - s.previousAck <= 0x1_0000 && s.inFlight < TWO31
  {
  }

  // ---------- sender steps ----------

  /** The segments a fill adds start below the edge of the window, go to both queues, and come only before the FIN. */
  ghost predicate News(s: Sender, t: Sender, news: seq<Segment>) {
    && t.out == s.out + news && t.outstanding == s.outstanding + news
    && (forall i :: 0 <= i < |news| ==>
          news[i].at == 0 || (!s.finSent && news[i].at < s.previousAck + Effective(s)))
  }

  lemma NewsTrans(s: Sender, t: Sender, u: Sender, first: seq<Segment>, rest: seq<Segment>)
    requires News(s, t, first) && News(t, u, rest)
    requires t.previousAck == s.previousAck && t.window == s.window && (s.finSent ==> t.finSent)
    ensures News(s, u, first + rest)
  {
  }

  lemma PieceNews(s: Sender)
    requires Inv(s) && s.nextSeqno > 0 && SenderRuns.WindowOk(s)
    requires Available(s) > 0 && !s.stream.eof && NextPiece(s).Length() > 0
    ensures News(s, SendPiece(s), [NextPiece(s)]) && SenderRuns.WindowOk(SendPiece(s))
  {
  }

  lemma {:induction false} FillLoopNews(s: Sender) returns (news: seq<Segment>)
    requires Inv(s) && s.nextSeqno > 0 && SenderRuns.WindowOk(s)
    ensures News(s, FillLoop(s), news)
    decreases |Buffer(s.stream)|, if s.stream.eof then 0 else 1
  {
    if Available(s) == 0 {
      news := [];
    } else if s.stream.eof {
      news := if s.finSent then [] else [Build(s, false, true, [])];
    } else if NextPiece(s).Length() == 0 {
      news := [];
    } else {
      SendPieceInv(s);
      var t := SendPiece(s);
      PieceNews(s);
      var rest := FillLoopNews(t);
      NewsTrans(s, t, FillLoop(s), [NextPiece(s)], rest);
      news := [NextPiece(s)] + rest;
    }
  }

  lemma FillWindowNews(s: Sender) returns (news: seq<Segment>)
    requires Inv(s) && SenderRuns.WindowOk(s)
    ensures News(s, FillWindow(s), news)
  {
    if s.nextSeqno == 0 {
      news := [Build(s, true, false, [])];
    } else if s.nextSeqno == s.inFlight {
      news := [];
    } else {
      news := FillLoopNews(s);
    }
  }

  /** What the receiver and the network rely on keeps holding when the sender moves on. */
  ghost predicate MovesOn(s: Sender, t: Sender) {
    && t.isn == s.isn && Extends(t.stream, s.stream) && Sent(s) <= Sent(t)
    && s.nextSeqno <= t.nextSeqno && (s.finSent ==> t.finSent)
  }

  lemma ReceiverMovesOn(r: Receiver, s: Sender, t: Sender)
    requires ReceiverOk(r, s) && MovesOn(s, t)
    ensures ReceiverOk(r, t)
  {
  }

  lemma PacketsMoveOn(network: set<Segment>, s: Sender, t: Sender, r: Receiver)
    requires (forall seg :: seg in network ==> PacketOk(seg, s, r)) && MovesOn(s, t)
    ensures forall seg :: seg in network ==> PacketOk(seg, t, r)
  {
  }

  /** The new segments are fit for the network. */
  lemma NewsOk(s: Sender, t: Sender, r: Receiver, news: seq<Segment>)
    requires Inv(s) && s.out == [] && ReceiverOk(r, s) && NotAhead(s.previousAck, s.window, r)
    requires News(s, t, news) && Inv(t)
    ensures forall seg :: seg in SetOf(t.out) ==> PacketOk(seg, t, r)
  {
  }

  /** Handing what a fill produced to the network keeps the network in order. */
  lemma FlushNews(network: set<Segment>, s: Sender, t: Sender, r: Receiver, news: seq<Segment>)
    requires Inv(s) && s.out == [] && ReceiverOk(r, s) && NotAhead(s.previousAck, s.window, r)
    requires NetworkOk(network, s, r)
    requires News(s, t, news) && Inv(t) && MovesOn(s, t)
    ensures NetworkOk(network + SetOf(t.out), t.(out := []), r)
  {
    PacketsMoveOn(network, s, t, r);
    NewsOk(s, t, r, news);
    NewsSent(network, s, t, news);
    PacketsMoveOn(network + SetOf(t.out), t, t.(out := []), r);
  }

  lemma NewsSent(network: set<Segment>, s: Sender, t: Sender, news: seq<Segment>)
    requires News(s, t, news) && s.out == []
    requires forall i :: 0 <= i < |s.outstanding| ==> s.outstanding[i] in network
    ensures forall i :: 0 <= i < |t.outstanding| ==> t.outstanding[i] in network + SetOf(t.out)
  {
    forall i | 0 <= i < |t.outstanding|
      ensures t.outstanding[i] in network + SetOf(t.out)
    {
      if i >= |s.outstanding| {
        assert t.outstanding[i] == t.out[i - |s.outstanding|];
      } else {
        assert t.outstanding[i] == s.outstanding[i];
      }
    }
  }

  lemma FillMovesOn(s: Sender)
    requires Inv(s)
    ensures MovesOn(s, FillWindow(s))
  {
    FillWindowFrame(s);
    if s.nextSeqno > 0 && s.nextSeqno != s.inFlight {
      SenderRuns.FillLoopReads(s);
    }
  }

  /** Filling from a state that fits the receiver and the acknowledgments under way. */
  lemma FillSafe(y: System, s: Sender)
    requires Inv(s) && SenderRuns.WindowOk(s) && s.out == [] && ReceiverOk(y.receiver, s)
    requires NetworkOk(y.network, s, y.receiver) && AcksOk(y.acks, s, y.receiver)
    ensures Safe(Flush(y, FillWindow(s)))
  {
    FillWindowInv(s);
    FillWindowFrame(s);
    SenderRuns.FillWindowWindow(s);
    FillMovesOn(s);
    var news := FillWindowNews(s);
    var t := FillWindow(s);
    FlushNews(y.network, s, t, y.receiver, news);
    ReceiverMovesOn(y.receiver, s, t);
    FlushInv(t);
    AcksSameSender(y.acks, s, t, y.receiver);
  }

  lemma AckUnwraps(s: Sender, r: Receiver, a: Ack)
    requires SenderOk(s) && ReceiverOk(r, s) && AckOk(a, s, r)
    ensures Unwrap(a.ackno, s.isn, s.previousAck) == a.number && a.number <= s.nextSeqno
    ensures SenderRuns.EdgeHolds(s, a.ackno, a.window) && s.inFlight < TWO31
  {
    InFlightSmall(s);
    UnwrapInvertsWrap(a.number, s.isn, s.previousAck);
  }

  lemma AckWindow(s: Sender, r: Receiver, a: Ack)
    requires SenderOk(s) && ReceiverOk(r, s) && AckOk(a, s, r)
    ensures SenderRuns.WindowOk(s.(window := a.window, previousAck := a.number))
  {
  }

  lemma RestOk(acks: seq<Ack>, s: Sender, t: Sender, r: Receiver)
    requires acks != [] && AcksOk(acks, s, r)
    requires t.isn == s.isn && t.previousAck == acks[0].number && t.window == acks[0].window
    ensures AcksOk(acks[1..], t, r)
  {
  }

  lemma {:induction false} DropAckedSuffix(s: Sender)
    ensures var t := DropAcked(s);
            |t.outstanding| <= |s.outstanding| && t.outstanding == s.outstanding[|s.outstanding| - |t.outstanding|..]
    decreases |s.outstanding|
  {
    if s.outstanding != [] {
      var seg := s.outstanding[0];
      DropAckedSuffix(s.(outstanding := s.outstanding[1..], inFlight := s.inFlight - seg.Length()));
    }
  }

  lemma OldAckSafe(y: System)
    requires Safe(y) && y.acks != [] && !IsNewAck(y.sender, y.acks[0].ackno)
    ensures Safe(Next(y, DeliverAck))
  {
    var s, a := y.sender, y.acks[0];
    assert AckOk(a, s, y.receiver);
    AckUnwraps(s, y.receiver, a);
    AckWindow(s, y.receiver, a);
    var t := s.(window := a.window);
    RestOk(y.acks, s, t, y.receiver);
    ReceiverMovesOn(y.receiver, s, t);
    PacketsMoveOn(y.network, s, t, y.receiver);
    assert SetOf(t.out) == {};
    assert Next(y, DeliverAck) == y.(sender := t, acks := y.acks[1..]);
  }

  lemma SuffixInNetwork(network: set<Segment>, before: seq<Segment>, after: seq<Segment>)
    requires |after| <= |before| && after == before[|before| - |after|..]
    requires forall i :: 0 <= i < |before| ==> before[i] in network
    ensures forall i :: 0 <= i < |after| ==> after[i] in network
  {
    var dropped := |before| - |after|;
    assert forall i :: 0 <= i < |after| ==> after[i] == before[dropped + i];
  }

  lemma TakeAckSuffix(s: Sender, ackno: u32, window: u16)
    ensures var t := TakeAck(s, ackno, window);
            |t.outstanding| <= |s.outstanding| && t.outstanding == s.outstanding[|s.outstanding| - |t.outstanding|..]
  {
    DropAckedSuffix(s.(window := window, previousAck := Unwrap(ackno, s.isn, s.previousAck),
                       timer := s.timer.ResetRto().Stop().Start()));
  }

  lemma TakeAckNetwork(network: set<Segment>, s: Sender, r: Receiver, a: Ack)
    requires NetworkOk(network, s, r) && Inv(s) && s.inFlight < TWO31 && IsNewAck(s, a.ackno)
    ensures NetworkOk(network, TakeAck(s, a.ackno, a.window), r)
  {
    var t := TakeAck(s, a.ackno, a.window);
    TakeAckInv(s, a.ackno, a.window);
    PacketsMoveOn(network, s, t, r);
    TakeAckSuffix(s, a.ackno, a.window);
    SuffixInNetwork(network, s.outstanding, t.outstanding);
  }

  lemma TakeAckFits(y: System)
    requires Safe(y) && y.acks != [] && IsNewAck(y.sender, y.acks[0].ackno)
    ensures var t := TakeAck(y.sender, y.acks[0].ackno, y.acks[0].window);
            && Inv(t) && SenderRuns.WindowOk(t) && t.out == [] && ReceiverOk(y.receiver, t)
            && NetworkOk(y.network, t, y.receiver) && AcksOk(y.acks[1..], t, y.receiver)
  {
    var s, a := y.sender, y.acks[0];
    assert AckOk(a, s, y.receiver);
    AckUnwraps(s, y.receiver, a);
    AckWindow(s, y.receiver, a);
    var t := TakeAck(s, a.ackno, a.window);
    TakeAckInv(s, a.ackno, a.window);
    RestOk(y.acks, s, t, y.receiver);
    ReceiverMovesOn(y.receiver, s, t);
    TakeAckNetwork(y.network, s, y.receiver, a);
  }

  lemma NewAckSafe(y: System)
    requires Safe(y) && y.acks != [] && IsNewAck(y.sender, y.acks[0].ackno)
    ensures Safe(Next(y, DeliverAck))
  {
    TakeAckFits(y);
    var t := TakeAck(y.sender, y.acks[0].ackno, y.acks[0].window);
    var z := y.(acks := y.acks[1..]);
    FillSafe(z, t);
    RestartSafe(Flush(z, FillWindow(t)));
    NewAckNext(y, z, t);
  }

  lemma NewAckNext(y: System, z: System, t: Sender)
    requires Output(y.receiver).capacity > 0 && y.acks != [] && IsNewAck(y.sender, y.acks[0].ackno)
    requires t == TakeAck(y.sender, y.acks[0].ackno, y.acks[0].window) && z == y.(acks := y.acks[1..])
    ensures Next(y, DeliverAck) == Flush(z, FillWindow(t)).(sender := RestartTimer(Flush(z, FillWindow(t)).sender))
  {
  }

  /** Nothing in the invariant depends on the timer. */
  lemma RestartSafe(y: System)
    requires Safe(y)
    ensures Safe(y.(sender := RestartTimer(y.sender)))
  {
    var s, t := y.sender, RestartTimer(y.sender);
    assert Inv(t) && SenderRuns.WindowOk(t);
    ReceiverMovesOn(y.receiver, s, t);
    PacketsMoveOn(y.network, s, t, y.receiver);
    AcksSameSender(y.acks, s, t, y.receiver);
  }

  lemma AcksSameSender(acks: seq<Ack>, s: Sender, t: Sender, r: Receiver)
    requires AcksOk(acks, s, r) && t.isn == s.isn && t.previousAck == s.previousAck && t.window == s.window
    ensures AcksOk(acks, t, r)
  {
  }
}
