/** Every run of the transfer system is safe: the receiver's bytes are the sender's. */
module TransferSafety {
  import opened Words
  import opened WrappingIntegers
  import opened ByteStreams
  import opened Reassembly
  import opened Segments
  import opened Sending
  import opened SenderInvariants
  import opened Receiving
  import opened Transfer
  import SenderRuns
  import ReassemblyRuns

  // ---------- remaining sender steps ----------

  /** A sender step that emits nothing new for the network. */
  lemma QuietStepSafe(y: System, t: Sender)
    requires Safe(y) && Inv(t) && SenderRuns.WindowOk(t) && MovesOn(y.sender, t)
    requires t.outstanding == y.sender.outstanding && t.previousAck == y.sender.previousAck && t.window == y.sender.window
    requires forall i :: 0 <= i < |t.out| ==> Blank(t.out[i]) || t.out[i] in y.sender.outstanding
    ensures Safe(Flush(y, t))
  {
    var u := t.(out := []);
    FlushInv(t);
    ReceiverMovesOn(y.receiver, y.sender, u);
    forall seg | seg in y.network + SetOf(t.out)
      ensures PacketOk(seg, y.sender, y.receiver)
    {
      assert seg in y.network || Blank(seg);
    }
    PacketsMoveOn(y.network + SetOf(t.out), y.sender, u, y.receiver);
    assert forall i :: 0 <= i < |y.acks| ==> AckOk(y.acks[i], y.sender, y.receiver);
    assert forall i :: 0 <= i < |y.acks| ==> AckOk(y.acks[i], u, y.receiver);
  }

  lemma TickSafe(y: System, ms: nat)
    requires Safe(y)
    ensures Safe(Next(y, Step.Tick(ms)))
  {
    TickInv(y.sender, ms);
    TickQuiet(y.sender, ms);
    QuietStepSafe(y, Sending.Tick(y.sender, ms));
  }

  lemma TickQuiet(s: Sender, ms: nat)
    requires SenderRuns.WindowOk(s) && s.out == []
    ensures var t := Sending.Tick(s, ms);
            && SenderRuns.WindowOk(t) && MovesOn(s, t)
            && t.outstanding == s.outstanding && t.previousAck == s.previousAck && t.window == s.window
            && (forall i :: 0 <= i < |t.out| ==> t.out[i] in s.outstanding)
  {
  }

  lemma SendBareSafe(y: System)
    requires Safe(y)
    ensures Safe(Next(y, SendBare))
  {
    SendEmptyInv(y.sender);
    QuietStepSafe(y, SendEmpty(y.sender));
  }

  lemma AppWriteSafe(y: System, data: seq<byte>)
    requires Safe(y)
    ensures Safe(Next(y, AppWrite(data)))
  {
    if !y.sender.stream.inputEnded {
      var t := y.sender.(stream := Write(y.sender.stream, data));
      WriteInv(y.sender, data);
      QuietStepSafe(y, t);
      assert SetOf(t.out) == {};
      assert Flush(y, t) == Next(y, AppWrite(data));
    }
  }

  lemma AppEndSafe(y: System)
    requires Safe(y)
    ensures Safe(Next(y, AppEnd))
  {
    var t := y.sender.(stream := EndInput(y.sender.stream));
    EndInputInv(y.sender);
    QuietStepSafe(y, t);
    assert SetOf(t.out) == {};
    assert Flush(y, t) == Next(y, AppEnd);
  }

  // ---------- receiver steps ----------

  /** What the network and the acknowledgments rely on keeps holding when the receiver moves on. */
  ghost predicate Progresses(r: Receiver, t: Receiver) {
    && AckNumber(r) <= AckNumber(t) && AckNumber(r) + WindowField(r) <= AckNumber(t) + WindowField(t)
    && Limit(r.reassembler) <= Limit(t.reassembler) && (r.isn.Some? ==> t.isn.Some?)
  }

  lemma ReceiverStepSafe(y: System, t: Receiver)
    requires Safe(y) && ReceiverOk(t, y.sender) && Progresses(y.receiver, t)
    ensures Safe(y.(receiver := t))
  {
  }

  lemma AppReadSafe(y: System, len: nat)
    requires Safe(y)
    ensures Safe(Next(y, AppRead(len)))
  {
    var r := y.receiver.reassembler;
    ReadFaithful(r, Sent(y.sender), len);
    ReceiverStepSafe(y, Next(y, AppRead(len)).receiver);
  }

  /** The bytes and the end of a packet are a piece of what the sender has sent. */
  lemma PacketIsPiece(seg: Segment, s: Sender)
    requires Inv(s) && Carries(seg, s.isn, s.stream) && seg.at + seg.Length() <= s.nextSeqno && seg.at > 0
    ensures PieceOf(Sent(s), seg.payload, seg.at - 1, seg.fin) && (seg.fin ==> s.finSent)
  {
  }

  /** How a push of such a piece changes what is acknowledged. */
  lemma PushProgresses(r: Receiver, sent: seq<byte>, data: seq<byte>, index: nat, eof: bool)
    requires Faithful(r.reassembler, sent) && PieceOf(sent, data, index, eof) && index <= Limit(r.reassembler)
    ensures var t := r.(reassembler := Push(r.reassembler, data, index, eof));
            && Progresses(r, t) && Faithful(t.reassembler, sent)
            && (t.reassembler.eofSeen ==> r.reassembler.eofSeen || eof)
            && (Output(t).inputEnded ==> Output(r).inputEnded || t.reassembler.eofSeen)
  {
    PushFaithful(r.reassembler, sent, data, index, eof);
    PushOnRing(r.reassembler, data, index, eof);
  }

  lemma NothingProgresses(r: Receiver, sent: seq<byte>, index: nat)
    requires Faithful(r.reassembler, sent) && (Output(r).inputEnded ==> r.reassembler.eofSeen)
    ensures var t := r.(reassembler := Push(r.reassembler, [], index, false));
            && Progresses(r, t) && Faithful(t.reassembler, sent)
            && t.reassembler.eofSeen == r.reassembler.eofSeen
            && (Output(t).inputEnded ==> t.reassembler.eofSeen)
  {
    var q := r.reassembler;
    assert Store(q, [], index) == q.held;
    AssembleFaithful(AfterStore(q, [], index, false), sent);
    AssembleAligned(AfterStore(q, [], index, false));
  }

  lemma SynArrives(r: Receiver, s: Sender, seg: Segment)
    requires Inv(s) && ReceiverOk(r, s) && PacketOk(seg, s, r) && r.isn.None? && seg.syn
    ensures var t := SegmentReceived(r, seg); ReceiverOk(t, s) && Progresses(r, t)
  {
  }

  lemma BlankArrives(r: Receiver, s: Sender, seg: Segment)
    requires ReceiverOk(r, s) && Blank(seg) && r.isn.Some?
    ensures var t := SegmentReceived(r, seg); ReceiverOk(t, s) && Progresses(r, t)
  {
    var at := Unwrap(seg.seqno, s.isn, NextByte(r));
    if at != 0 {
      NothingProgresses(r, Sent(s), at - 1);
    }
  }

  lemma DataArrives(r: Receiver, s: Sender, seg: Segment, t: Receiver)
    requires Inv(s) && ReceiverOk(r, s) && PacketOk(seg, s, r) && r.isn.Some? && !Blank(seg)
    requires t == if seg.at > 0 then r.(reassembler := Push(r.reassembler, seg.payload, seg.at - 1, seg.fin)) else r
    ensures ReceiverOk(t, s) && Progresses(r, t)
  {
    if seg.at > 0 {
      PacketIsPiece(seg, s);
      PieceArrives(r, s, seg.payload, seg.at - 1, seg.fin);
    }
  }

  /** In reach, the receiver places a segment at its absolute number. */
  lemma Lands(r: Receiver, s: Sender, seg: Segment)
    requires r.isn == Some(s.isn) && seg.seqno == Wrap(seg.at, s.isn) && Distance(seg.at, NextByte(r)) < TWO31
    requires Output(r).capacity > 0
    ensures SegmentReceived(r, seg)
         == if seg.at > 0 then r.(reassembler := Push(r.reassembler, seg.payload, seg.at - 1, seg.fin)) else r
  {
    UnwrapInvertsWrap(seg.at, s.isn, NextByte(r));
  }

  lemma PieceArrives(r: Receiver, s: Sender, data: seq<byte>, index: nat, eof: bool)
    requires ReceiverOk(r, s) && r.isn.Some? && PieceOf(Sent(s), data, index, eof) && index <= Limit(r.reassembler)
    requires eof ==> s.finSent
    ensures var t := r.(reassembler := Push(r.reassembler, data, index, eof)); ReceiverOk(t, s) && Progresses(r, t)
  {
    PushProgresses(r, Sent(s), data, index, eof);
  }

  lemma DeliverSafe(y: System, seg: Segment)
    requires Safe(y) && seg in y.network && InReach(y, seg)
    ensures Safe(Next(y, Deliver(seg)))
  {
    var r := y.receiver;
    assert PacketOk(seg, y.sender, r);
    if r.isn.Some? || seg.syn {
      if r.isn.None? {
        SynArrives(r, y.sender, seg);
      } else if Blank(seg) {
        BlankArrives(r, y.sender, seg);
      } else {
        Lands(r, y.sender, seg);
        DataArrives(r, y.sender, seg, SegmentReceived(r, seg));
      }
      ReceiverStepSafe(y, SegmentReceived(r, seg));
    }
  }

  // ---------- acknowledgment channel ----------

  lemma SendAckSafe(y: System)
    requires Safe(y)
    ensures Safe(Next(y, SendAck))
  {
    if y.receiver.isn.Some? {
      var a := Ack(AckNumber(y.receiver), Ackno(y.receiver).value, WindowField(y.receiver));
      var acks := y.acks + [a];
      forall i | 0 <= i < |acks|
        ensures AckOk(acks[i], y.sender, y.receiver)
      {
        assert i < |y.acks| ==> AckOk(y.acks[i], y.sender, y.receiver);
      }
      forall i, j | 0 <= i < j < |acks|
        ensures InOrder(acks[i], acks[j])
      {
        if j < |y.acks| {
          assert InOrder(y.acks[i], y.acks[j]);
        } else {
          assert AckOk(y.acks[i], y.sender, y.receiver);
        }
      }
    }
  }

  lemma LoseOne(acks: seq<Ack>, k: nat, s: Sender, r: Receiver)
    requires AcksOk(acks, s, r) && k < |acks|
    ensures AcksOk(acks[..k] + acks[k + 1..], s, r)
  {
    var rest := acks[..k] + acks[k + 1..];
    forall i | 0 <= i < |rest|
      ensures AckOk(rest[i], s, r)
    {
      assert AckOk(acks[if i < k then i else i + 1], s, r);
    }
    forall i, j | 0 <= i < j < |rest|
      ensures InOrder(rest[i], rest[j])
    {
      assert InOrder(acks[if i < k then i else i + 1], acks[if j < k then j else j + 1]);
    }
  }

  lemma LoseAckSafe(y: System, k: nat)
    requires Safe(y)
    ensures Safe(Next(y, LoseAck(k)))
  {
    if k < |y.acks| {
      LoseOne(y.acks, k, y.sender, y.receiver);
    }
  }

  // ---------- runs ----------

  lemma NextSafe(y: System, step: Step)
    requires Safe(y)
    ensures Safe(Next(y, step)) && Output(Next(y, step).receiver).capacity == Output(y.receiver).capacity
  {
    NextCapacity(y, step);
    match step
    case AppWrite(data) => AppWriteSafe(y, data);
    case AppEnd => AppEndSafe(y);
    case Fill => FillSafe(y, y.sender);
    case Tick(ms) => TickSafe(y, ms);
    case SendBare => SendBareSafe(y);
    case Deliver(seg) => if seg in y.network && InReach(y, seg) { DeliverSafe(y, seg); }
    case AppRead(len) => AppReadSafe(y, len);
    case SendAck => SendAckSafe(y);
    case LoseAck(i) => LoseAckSafe(y, i);
    case DeliverAck =>
      if y.acks != [] {
        if IsNewAck(y.sender, y.acks[0].ackno) { NewAckSafe(y); } else { OldAckSafe(y); }
      }
  }

  lemma NextCapacity(y: System, step: Step)
    requires Output(y.receiver).capacity > 0
    ensures Output(Next(y, step).receiver).capacity == Output(y.receiver).capacity
  {
    if step.Deliver? {
      ReceivedCapacity(y.receiver, step.seg);
    }
  }

  function Exec(y: System, steps: seq<Step>): System
    requires Output(y.receiver).capacity > 0
    decreases |steps|
  {
    if steps == [] then y
    else
      NextCapacity(y, steps[0]);
      Exec(Next(y, steps[0]), steps[1..])
  }

  lemma InitSafe(sendCapacity: nat, timeout: nat, isn: u32, receiveCapacity: nat)
    requires receiveCapacity > 0
    ensures Safe(Init(sendCapacity, timeout, isn, receiveCapacity))
  {
  }

  lemma {:induction false} RunSafe(y: System, steps: seq<Step>)
    requires Safe(y)
    ensures Safe(Exec(y, steps))
    decreases |steps|
  {
    if steps != [] {
      NextSafe(y, steps[0]);
      RunSafe(Next(y, steps[0]), steps[1..]);
    }
  }

  /**
   * In every run, whatever is lost, repeated or reordered on the way, the bytes assembled at the
   * receiver are a prefix of the bytes the application wrote at the sender.
   */
  lemma EndToEndPrefix(sendCapacity: nat, timeout: nat, isn: u32, receiveCapacity: nat, steps: seq<Step>)
    requires receiveCapacity > 0
    ensures var y := Exec(Init(sendCapacity, timeout, isn, receiveCapacity), steps);
            Output(y.receiver).history <= y.sender.stream.history
  {
    InitSafe(sendCapacity, timeout, isn, receiveCapacity);
    RunSafe(Init(sendCapacity, timeout, isn, receiveCapacity), steps);
  }

  /**
   * In every run, once the sender has everything acknowledged including its FIN, the receiver has
   * assembled the whole stream and ended it.
   */
  lemma FinAckedMeansDelivered(sendCapacity: nat, timeout: nat, isn: u32, receiveCapacity: nat, steps: seq<Step>)
    requires receiveCapacity > 0
    requires var s := Exec(Init(sendCapacity, timeout, isn, receiveCapacity), steps).sender;
             s.finSent && s.previousAck == s.nextSeqno
    ensures var y := Exec(Init(sendCapacity, timeout, isn, receiveCapacity), steps);
            && Output(y.receiver).history == y.sender.stream.history
            && Output(y.receiver).inputEnded && y.sender.stream.inputEnded
  {
    InitSafe(sendCapacity, timeout, isn, receiveCapacity);
    RunSafe(Init(sendCapacity, timeout, isn, receiveCapacity), steps);
    var y := Exec(Init(sendCapacity, timeout, isn, receiveCapacity), steps);
    assert |Output(y.receiver).history| == |y.sender.stream.history|;
  }

  /**
   * And the other way: in every run, an acknowledgment of the receiver's present state moves the sender to the number
   * after the SYN, every byte assembled and, once ended, the FIN; with all delivered and ended nothing is left in flight.
   */
  lemma DeliveredGetsAcked(sendCapacity: nat, timeout: nat, isn: u32, receiveCapacity: nat, steps: seq<Step>)
    requires receiveCapacity > 0
    requires Exec(Init(sendCapacity, timeout, isn, receiveCapacity), steps).receiver.isn.Some?
    ensures var y := Exec(Init(sendCapacity, timeout, isn, receiveCapacity), steps);
            var s, out := y.sender, Output(y.receiver);
            var t := AckReceived(s, Ackno(y.receiver).value, WindowField(y.receiver));
            && t.previousAck == 1 + |out.history| + (if out.inputEnded then 1 else 0)
            && (s.finSent && out.inputEnded && out.history == s.stream.history ==>
                  t.previousAck == t.nextSeqno && t.outstanding == [])
  {
    InitSafe(sendCapacity, timeout, isn, receiveCapacity);
    RunSafe(Init(sendCapacity, timeout, isn, receiveCapacity), steps);
    var y := Exec(Init(sendCapacity, timeout, isn, receiveCapacity), steps);
    PresentAck(y.sender, y.receiver);
  }

  lemma PresentAck(s: Sender, r: Receiver)
    requires SenderOk(s) && ReceiverOk(r, s) && r.isn.Some? && NotAhead(s.previousAck, s.window, r)
    ensures var t := AckReceived(s, Ackno(r).value, WindowField(r));
            && t.previousAck == 1 + |Output(r).history| + (if Output(r).inputEnded then 1 else 0)
            && (s.finSent && Output(r).inputEnded && Output(r).history == s.stream.history ==>
                  t.previousAck == t.nextSeqno && t.outstanding == [])
  {
    var a := Ack(AckNumber(r), Ackno(r).value, WindowField(r));
    AckUnwraps(s, r, a);
    if IsNewAck(s, a.ackno) {
      TakeAckInv(s, a.ackno, a.window);
      FillWindowFrame(TakeAck(s, a.ackno, a.window));
      FillWindowInv(TakeAck(s, a.ackno, a.window));
      if s.finSent {
        assert FillWindow(TakeAck(s, a.ackno, a.window)) == TakeAck(s, a.ackno, a.window);
      }
      AllAcked(TakeAck(s, a.ackno, a.window));
    } else {
      AllAcked(s);
    }
  }

  lemma AllAcked(s: Sender)
    requires Inv(s)
    ensures s.previousAck == s.nextSeqno ==> s.outstanding == []
  {
    if s.outstanding != [] {
      ChainToEnd(s.outstanding, s.nextSeqno, 0);
    }
  }

  // ---------- the end of the stream ----------

  /** The segment announces the end, without a byte of its own, beyond a hole in what the receiver has. */
  predicate JumpsHole(y: System, seg: Segment) {
    && y.receiver.isn.Some? && seg.at > 0
    && ReassemblyRuns.EndAheadOfHole(y.receiver.reassembler, seg.payload, seg.at - 1, seg.fin)
  }

  ghost predicate EndOk(y: System) {
    ReassemblyRuns.EndExact(y.receiver.reassembler, Sent(y.sender))
  }

  lemma ReceiveEndIff(r: Receiver, s: Sender, seg: Segment)
    requires Inv(s) && ReceiverOk(r, s) && PacketOk(seg, s, r) && r.isn.Some? && seg.at > 0 && !Blank(seg)
    requires Distance(seg.at, NextByte(r)) < TWO31 && ReassemblyRuns.EndExact(r.reassembler, Sent(s))
    ensures ReassemblyRuns.EndExact(SegmentReceived(r, seg).reassembler, Sent(s))
       <==> !ReassemblyRuns.EndAheadOfHole(r.reassembler, seg.payload, seg.at - 1, seg.fin)
  {
    Lands(r, s, seg);
    PacketIsPiece(seg, s);
    ReassemblyRuns.EndExactIff(r.reassembler, Sent(s), seg.payload, seg.at - 1, seg.fin);
  }

  /** Delivering a segment keeps the end right for good if and only if it does not announce the end ahead of a hole. */
  lemma DeliverEndOkIff(y: System, seg: Segment)
    requires Safe(y) && EndOk(y) && seg in y.network && InReach(y, seg) && y.receiver.isn.Some? && seg.at > 0 && !Blank(seg)
    ensures EndOk(Next(y, Deliver(seg))) <==> !JumpsHole(y, seg)
  {
    assert PacketOk(seg, y.sender, y.receiver);
    ReceiveEndIff(y.receiver, y.sender, seg);
  }

  /** While no end has been seen there is nothing to get wrong. */
  lemma UnseenEndOk(r: Receiver, s: Sender)
    requires ReceiverOk(r, s) && !r.reassembler.eofSeen
    ensures ReassemblyRuns.EndExact(r.reassembler, Sent(s))
  {
  }

  /** Once an end has been seen the FIN has been sent, and then nothing more is. */
  lemma SenderStepEndOk(r: Receiver, s: Sender, t: Sender)
    requires Inv(s) && ReceiverOk(r, s) && MovesOn(s, t) && ReassemblyRuns.EndExact(r.reassembler, Sent(s))
    ensures ReassemblyRuns.EndExact(r.reassembler, Sent(t))
  {
  }

  lemma SenderStepMovesOn(y: System, step: Step)
    requires Safe(y) && (step.Fill? || step.Tick? || step.SendBare? || step.AppWrite? || step.AppEnd? || step.DeliverAck?)
    ensures Next(y, step).receiver == y.receiver && MovesOn(y.sender, Next(y, step).sender)
  {
    match step
    case Fill => FillMovesOn(y.sender);
    case DeliverAck => if y.acks != [] { AckMovesOn(y); }
    case _ =>
  }

  lemma AckMovesOn(y: System)
    requires Safe(y) && y.acks != []
    ensures MovesOn(y.sender, AckReceived(y.sender, y.acks[0].ackno, y.acks[0].window))
  {
    var s, a := y.sender, y.acks[0];
    if IsNewAck(s, a.ackno) {
      assert AckOk(a, s, y.receiver);
      AckUnwraps(s, y.receiver, a);
      TakeAckInv(s, a.ackno, a.window);
      FillMovesOn(TakeAck(s, a.ackno, a.window));
    }
  }

  lemma BlankEndOk(r: Receiver, s: Sender, index: nat)
    requires ReceiverOk(r, s) && ReassemblyRuns.EndExact(r.reassembler, Sent(s))
    ensures ReassemblyRuns.EndExact(Push(r.reassembler, [], index, false), Sent(s))
  {
    var q := r.reassembler;
    var mid := AfterStore(q, [], index, false);
    assert mid == q;
    NothingProgresses(r, Sent(s), index);
    AssembleMoves(q);
    AssembleAligned(q);
    ContiguousMeaning(q.held, q.first);
    ReassemblyRuns.EndedByPush(q, Sent(s));
  }

  lemma DeliverEndOk(y: System, seg: Segment)
    requires Safe(y) && EndOk(y) && seg in y.network && InReach(y, seg) && !JumpsHole(y, seg)
    ensures EndOk(Next(y, Deliver(seg)))
  {
    var r, s := y.receiver, y.sender;
    assert PacketOk(seg, s, r);
    if r.isn.None? {
      if seg.syn {
        SynArrives(r, s, seg);
        UnseenEndOk(SegmentReceived(r, seg), s);
      }
    } else if Blank(seg) {
      var at := Unwrap(seg.seqno, s.isn, NextByte(r));
      if at != 0 {
        BlankEndOk(r, s, at - 1);
      }
    } else if seg.at > 0 {
      DeliverEndOkIff(y, seg);
    } else {
      Lands(r, s, seg);
    }
  }

  /** An ended receiver has every byte written at the sender. */
  ghost predicate EndedComplete(y: System) {
    Output(y.receiver).inputEnded ==> Output(y.receiver).history == y.sender.stream.history
  }

  lemma RightIsComplete(r: Receiver, s: Sender)
    requires Inv(s) && ReceiverOk(r, s) && (r.reassembler.eofSeen && r.reassembler.first == |Sent(s)| ==> Output(r).inputEnded)
    ensures ReassemblyRuns.EndRight(r.reassembler, Sent(s))
       <==> (Output(r).inputEnded ==> Output(r).history == s.stream.history)
  {
  }

  lemma ReceiveCompleteIff(r: Receiver, s: Sender, seg: Segment)
    requires Inv(s) && ReceiverOk(r, s) && PacketOk(seg, s, r) && r.isn.Some? && seg.at > 0 && !Blank(seg)
    requires Distance(seg.at, NextByte(r)) < TWO31 && ReassemblyRuns.EndExact(r.reassembler, Sent(s))
    ensures var t := SegmentReceived(r, seg);
            (Output(t).inputEnded ==> Output(t).history == s.stream.history)
            <==> !(ReassemblyRuns.EndAheadOfHole(r.reassembler, seg.payload, seg.at - 1, seg.fin)
                   && r.reassembler.held == map[])
  {
    Lands(r, s, seg);
    PacketIsPiece(seg, s);
    PieceCompleteIff(r, s, seg.payload, seg.at - 1, seg.fin);
  }

  lemma PieceCompleteIff(r: Receiver, s: Sender, data: seq<byte>, index: nat, eof: bool)
    requires Inv(s) && ReceiverOk(r, s) && r.isn.Some? && PieceOf(Sent(s), data, index, eof) && (eof ==> s.finSent)
    requires index <= Limit(r.reassembler) && ReassemblyRuns.EndExact(r.reassembler, Sent(s))
    ensures var t := r.(reassembler := Push(r.reassembler, data, index, eof));
            (Output(t).inputEnded ==> Output(t).history == s.stream.history)
            <==> !(ReassemblyRuns.EndAheadOfHole(r.reassembler, data, index, eof) && r.reassembler.held == map[])
  {
    PieceArrives(r, s, data, index, eof);
    ReassemblyRuns.EndAfterPush(r.reassembler, Sent(s), data, index, eof);
    ReassemblyRuns.EndRightIff(r.reassembler, Sent(s), data, index, eof);
    RightIsComplete(r.(reassembler := Push(r.reassembler, data, index, eof)), s);
  }

  /**
   * Any delivery leaves an ended receiver complete if and only if it does not announce the end ahead
   * of a hole to a receiver that holds nothing.
   */
  lemma DeliverEndIff(y: System, seg: Segment)
    requires Safe(y) && EndOk(y) && seg in y.network && InReach(y, seg)
    ensures EndedComplete(Next(y, Deliver(seg))) <==> !(JumpsHole(y, seg) && y.receiver.reassembler.held == map[])
  {
    var r, s := y.receiver, y.sender;
    assert PacketOk(seg, s, r);
    if r.isn.Some? && seg.at > 0 && !Blank(seg) {
      ReceiveCompleteIff(r, s, seg);
    } else {
      DeliverEndOk(y, seg);
      DeliverSafe(y, seg);
      RightIsComplete(Next(y, Deliver(seg)).receiver, s);
    }
  }

  lemma NextEndOk(y: System, step: Step)
    requires Safe(y) && EndOk(y)
    requires step.Deliver? ==> !JumpsHole(y, step.seg)
    ensures EndOk(Next(y, step))
  {
    match step
    case Deliver(seg) => if seg in y.network && InReach(y, seg) { DeliverEndOk(y, seg); }
    case AppRead(len) =>
    case SendAck =>
    case LoseAck(i) =>
    case _ =>
      SenderStepMovesOn(y, step);
      SenderStepEndOk(y.receiver, y.sender, Next(y, step).sender);
  }

  ghost predicate NoHoleJumps(y: System, steps: seq<Step>)
    requires Output(y.receiver).capacity > 0
    decreases |steps|
  {
    steps == [] ||
    (NextCapacity(y, steps[0]);
     (steps[0].Deliver? ==> !JumpsHole(y, steps[0].seg)) && NoHoleJumps(Next(y, steps[0]), steps[1..]))
  }

  lemma {:induction false} RunEndOk(y: System, steps: seq<Step>)
    requires Safe(y) && EndOk(y) && NoHoleJumps(y, steps)
    ensures Safe(Exec(y, steps)) && EndOk(Exec(y, steps))
    decreases |steps|
  {
    if steps != [] {
      NextSafe(y, steps[0]);
      NextEndOk(y, steps[0]);
      RunEndOk(Next(y, steps[0]), steps[1..]);
    }
  }

  /**
   * In every run in which no empty FIN overtakes a missing last byte, the receiver's input ends
   * only with the whole stream.
   */
  lemma EndMeansComplete(sendCapacity: nat, timeout: nat, isn: u32, receiveCapacity: nat, steps: seq<Step>)
    requires receiveCapacity > 0
    requires NoHoleJumps(Init(sendCapacity, timeout, isn, receiveCapacity), steps)
    ensures var y := Exec(Init(sendCapacity, timeout, isn, receiveCapacity), steps);
            Output(y.receiver).inputEnded ==> Output(y.receiver).history == y.sender.stream.history
  {
    var init := Init(sendCapacity, timeout, isn, receiveCapacity);
    InitSafe(sendCapacity, timeout, isn, receiveCapacity);
    RunEndOk(init, steps);
  }
}
