/**
 * The transfer system with acknowledgments that are lost, repeated and reordered like everything else:
 * the test on an arriving acknowledgment that makes every such run safe.
 */
module AnyAcks {
  import opened Words
  import opened WrappingIntegers
  import opened ByteStreams
  import opened Segments
  import opened Sending
  import opened SenderInvariants
  import opened Receiving
  import opened Transfer
  import opened TransferSafety

  /** Every acknowledgment ever sent may still arrive; `core` has no channel of its own. */
  datatype Open = Open(core: System, offers: set<Ack>)

  datatype Move =
    | Does(step: Step)
    | Offer
    | Arrive(ack: Ack)

  /** What the sender can check before it takes an acknowledgment: not older than the last, and its right edge not behind. */
  predicate Passes(s: Sender, ackno: u32, window: u16) {
    var n := Unwrap(ackno, s.isn, s.previousAck);
    s.previousAck <= n && s.previousAck + s.window <= n + window
  }

  predicate AckInReach(s: Sender, a: Ack) {
    Distance(a.number, s.previousAck) < TWO31
  }

  /** The acknowledgment the receiver would send now. */
  function Current(r: Receiver): Ack
    requires r.isn.Some?
  {
    Ack(AckNumber(r), Ackno(r).value, WindowField(r))
  }

  function Taken(y: System, a: Ack): System {
    Flush(y, AckReceived(y.sender, a.ackno, a.window))
  }

  /** Moves that cannot happen change nothing, as in the transfer system. */
  function Go(o: Open, m: Move): Open
    requires Output(o.core.receiver).capacity > 0
  {
    match m
    case Does(step) =>
      if step.SendAck? || step.LoseAck? || step.DeliverAck? then o else o.(core := Next(o.core, step))
    case Offer =>
      if o.core.receiver.isn.None? then o else o.(offers := o.offers + {Current(o.core.receiver)})
    case Arrive(a) =>
      if a in o.offers && AckInReach(o.core.sender, a) && Passes(o.core.sender, a.ackno, a.window)
      then o.(core := Taken(o.core, a))
      else o
  }

  // ---------- invariant ----------

  /** What holds of an acknowledgment however late it is. */
  ghost predicate Offered(a: Ack, s: Sender, r: Receiver) {
    a.ackno == Wrap(a.number, s.isn) && r.isn.Some? && NotAhead(a.number, a.window, r)
  }

  ghost predicate AllOffered(offers: set<Ack>, s: Sender, r: Receiver) {
    forall a :: a in offers ==> Offered(a, s, r)
  }

  ghost predicate Loose(o: Open) {
    Safe(o.core) && o.core.acks == [] && AllOffered(o.offers, o.core.sender, o.core.receiver)
  }

  lemma OffersKeep(offers: set<Ack>, s: Sender, r: Receiver, t: Sender, q: Receiver)
    requires AllOffered(offers, s, r) && t.isn == s.isn && Progresses(r, q)
    ensures AllOffered(offers, t, q)
  {
  }

  lemma AckNumberSent(s: Sender, r: Receiver)
    requires Inv(s) && ReceiverOk(r, s) && r.isn.Some?
    ensures AckNumber(r) <= s.nextSeqno
  {
  }

  lemma OfferUnwraps(s: Sender, r: Receiver, a: Ack)
    requires Inv(s) && ReceiverOk(r, s) && Offered(a, s, r) && AckInReach(s, a)
    ensures Unwrap(a.ackno, s.isn, s.previousAck) == a.number <= s.nextSeqno
  {
    UnwrapInvertsWrap(a.number, s.isn, s.previousAck);
    AckNumberSent(s, r);
  }

  /** The test is exactly what the in-order channel gives. */
  lemma PassesIff(s: Sender, r: Receiver, a: Ack)
    requires Inv(s) && ReceiverOk(r, s) && Offered(a, s, r) && AckInReach(s, a)
    ensures Passes(s, a.ackno, a.window) <==> AckOk(a, s, r)
  {
    OfferUnwraps(s, r, a);
  }

  lemma TakenSafe(y: System, a: Ack)
    requires Safe(y) && y.acks == [] && Offered(a, y.sender, y.receiver) && AckInReach(y.sender, a)
    requires Passes(y.sender, a.ackno, a.window)
    ensures Safe(Taken(y, a)) && Taken(y, a).acks == [] && Taken(y, a).receiver == y.receiver
    ensures Taken(y, a).sender.isn == y.sender.isn
  {
    PassesIff(y.sender, y.receiver, a);
    var z := y.(acks := [a]);
    assert Safe(z);
    NextSafe(z, DeliverAck);
    assert Next(z, DeliverAck) == Taken(y, a);
    AckReceivedIsn(y.sender, a.ackno, a.window);
  }

  lemma AckReceivedIsn(s: Sender, ackno: u32, window: u16)
    ensures AckReceived(s, ackno, window).isn == s.isn
  {
    if IsNewAck(s, ackno) {
      var taken := s.(window := window, previousAck := Unwrap(ackno, s.isn, s.previousAck),
                      timer := s.timer.ResetRto().Stop().Start());
      DropAckedFrame(taken);
      FillWindowFrame(TakeAck(s, ackno, window));
    }
  }

  // ---------- steps ----------

  lemma DeliverProgresses(y: System, seg: Segment)
    requires Safe(y) && seg in y.network && InReach(y, seg)
    ensures Progresses(y.receiver, Next(y, Deliver(seg)).receiver)
  {
    var r := y.receiver;
    assert PacketOk(seg, y.sender, r);
    if r.isn.None? {
      if seg.syn {
        SynArrives(r, y.sender, seg);
      }
    } else if Blank(seg) {
      BlankArrives(r, y.sender, seg);
    } else {
      Lands(r, y.sender, seg);
      DataArrives(r, y.sender, seg, SegmentReceived(r, seg));
    }
  }

  lemma ReadProgresses(r: Receiver, len: nat)
    ensures Progresses(r, r.(reassembler := r.reassembler.(output := Pop(Output(r), len))))
  {
  }

  lemma StepProgresses(y: System, step: Step)
    requires Safe(y) && !step.SendAck? && !step.LoseAck? && !step.DeliverAck?
    ensures Progresses(y.receiver, Next(y, step).receiver)
  {
    match step
    case Deliver(seg) => if seg in y.network && InReach(y, seg) { DeliverProgresses(y, seg); }
    case AppRead(len) => ReadProgresses(y.receiver, len);
    case _ => SenderSteps(y, step);
  }

  lemma SenderSteps(y: System, step: Step)
    requires Output(y.receiver).capacity > 0
    requires !step.Deliver? && !step.AppRead? && !step.SendAck? && !step.LoseAck? && !step.DeliverAck?
    ensures Next(y, step).receiver == y.receiver
  {
  }

  /** Only the steps of the acknowledgment channel change what is on it, and none changes the initial number. */
  lemma StepFrame(y: System, step: Step)
    requires Output(y.receiver).capacity > 0 && !step.SendAck? && !step.LoseAck? && !step.DeliverAck?
    ensures Next(y, step).sender.isn == y.sender.isn && Next(y, step).acks == y.acks
  {
    if step.Fill? {
      FillWindowFrame(y.sender);
    }
  }

  lemma ReceiverMoves(o: Open, q: Receiver)
    requires Loose(o) && Safe(o.core.(receiver := q)) && Progresses(o.core.receiver, q)
    ensures Loose(o.(core := o.core.(receiver := q)))
  {
    OffersKeep(o.offers, o.core.sender, o.core.receiver, o.core.sender, q);
  }

  lemma DeliverLoose(o: Open, seg: Segment, q: Receiver)
    requires Loose(o) && seg in o.core.network && InReach(o.core, seg) && Output(o.core.receiver).capacity > 0
    requires q == SegmentReceived(o.core.receiver, seg)
    ensures Loose(o.(core := o.core.(receiver := q)))
  {
    DeliverSafe(o.core, seg);
    DeliverProgresses(o.core, seg);
    assert Next(o.core, Deliver(seg)) == o.core.(receiver := q);
    ReceiverMoves(o, q);
  }

  lemma ReadLoose(o: Open, len: nat, q: Receiver)
    requires Loose(o) && Output(o.core.receiver).capacity > 0 && q == Next(o.core, AppRead(len)).receiver
    ensures Loose(o.(core := o.core.(receiver := q)))
  {
    AppReadSafe(o.core, len);
    ReadProgresses(o.core.receiver, len);
    ReceiverMoves(o, q);
  }

  lemma GoLoose(o: Open, m: Move)
    requires Loose(o)
    ensures Loose(Go(o, m))
  {
    var s, r := o.core.sender, o.core.receiver;
    match m
    case Does(step) =>
      if !step.SendAck? && !step.LoseAck? && !step.DeliverAck? {
        NextSafe(o.core, step);
        StepProgresses(o.core, step);
        StepFrame(o.core, step);
        OffersKeep(o.offers, s, r, Next(o.core, step).sender, Next(o.core, step).receiver);
      }
    case Offer =>
    case Arrive(a) =>
      if a in o.offers && AckInReach(s, a) && Passes(s, a.ackno, a.window) {
        TakenSafe(o.core, a);
        OffersKeep(o.offers, s, r, Taken(o.core, a).sender, r);
      }
  }

  lemma GoCapacity(o: Open, m: Move)
    requires Output(o.core.receiver).capacity > 0
    ensures Output(Go(o, m).core.receiver).capacity > 0
  {
    if m.Does? {
      NextCapacity(o.core, m.step);
    }
  }

  // ---------- runs ----------

  function Run(o: Open, moves: seq<Move>): Open
    requires Output(o.core.receiver).capacity > 0
    decreases |moves|
  {
    if moves == [] then o
    else
      GoCapacity(o, moves[0]);
      Run(Go(o, moves[0]), moves[1..])
  }

  lemma {:induction false} RunLoose(o: Open, moves: seq<Move>)
    requires Loose(o)
    ensures Loose(Run(o, moves))
    decreases |moves|
  {
    if moves != [] {
      GoLoose(o, moves[0]);
      RunLoose(Go(o, moves[0]), moves[1..]);
    }
  }

  /**
   * In every run, with segments and acknowledgments lost, repeated and reordered, in which the sender
   * takes only acknowledgments that pass the test, the receiver's bytes are a prefix of those written.
   */
  lemma AnyOrderPrefix(sendCapacity: nat, timeout: nat, isn: u32, receiveCapacity: nat, moves: seq<Move>)
    requires receiveCapacity > 0
    ensures var o := Run(Open(Init(sendCapacity, timeout, isn, receiveCapacity), {}), moves);
            Output(o.core.receiver).history <= o.core.sender.stream.history
  {
    InitSafe(sendCapacity, timeout, isn, receiveCapacity);
    RunLoose(Open(Init(sendCapacity, timeout, isn, receiveCapacity), {}), moves);
  }

  /** And everything is delivered and ended once the sender has its FIN acknowledged. */
  lemma AnyOrderDelivered(sendCapacity: nat, timeout: nat, isn: u32, receiveCapacity: nat, moves: seq<Move>)
    requires receiveCapacity > 0
    ensures var y := Run(Open(Init(sendCapacity, timeout, isn, receiveCapacity), {}), moves).core;
            Delivers(y.sender, y.receiver)
  {
    InitSafe(sendCapacity, timeout, isn, receiveCapacity);
    RunLoose(Open(Init(sendCapacity, timeout, isn, receiveCapacity), {}), moves);
    SafeDelivers(Run(Open(Init(sendCapacity, timeout, isn, receiveCapacity), {}), moves).core);
  }

  predicate Delivers(s: Sender, r: Receiver) {
    && Output(r).history <= s.stream.history
    && (s.finSent && s.previousAck == s.nextSeqno ==>
          Output(r).history == s.stream.history && Output(r).inputEnded && s.stream.inputEnded)
  }

  lemma SafeDelivers(y: System)
    requires Safe(y)
    ensures Delivers(y.sender, y.receiver)
  {
    if y.sender.finSent && y.sender.previousAck == y.sender.nextSeqno {
      assert |Output(y.receiver).history| == |y.sender.stream.history|;
    }
  }

  /** An in-order channel passes the test by itself. */
  lemma InOrderPasses(y: System)
    requires Safe(y) && y.acks != []
    ensures AckInReach(y.sender, y.acks[0]) && Passes(y.sender, y.acks[0].ackno, y.acks[0].window)
  {
    var s, a := y.sender, y.acks[0];
    assert AckOk(a, s, y.receiver);
    AckUnwraps(s, y.receiver, a);
    InFlightSmall(s);
  }

  /**
   * Exactly which acknowledgments leave the sender within what the receiver offers: those not older than
   * the last, and older ones whose window, counted from the last number, is still offered.
   */
  lemma WithinOfferIff(y: System, a: Ack)
    requires Safe(y) && Offered(a, y.sender, y.receiver) && AckInReach(y.sender, a)
    ensures var t := AckReceived(y.sender, a.ackno, a.window);
            NotAhead(t.previousAck, t.window, y.receiver)
            <==> y.sender.previousAck <= a.number
                 || y.sender.previousAck + a.window <= AckNumber(y.receiver) + WindowField(y.receiver)
  {
    var s := y.sender;
    OfferUnwraps(s, y.receiver, a);
    if IsNewAck(s, a.ackno) {
      DropAckedFrame(s.(window := a.window, previousAck := a.number, timer := s.timer.ResetRto().Stop().Start()));
      FillWindowFrame(TakeAck(s, a.ackno, a.window));
    }
  }
}
