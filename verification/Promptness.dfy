/**
 * Whole runs of a connection, seen from outside: whatever fits the window has been sent, everything sent has been
 * put out with its own bytes, and every segment reports the state of the receiver.
 */
module Promptness {
  import opened Words
  import opened WrappingIntegers
  import opened ByteStreams
  import opened Segments
  import opened Sending
  import opened SenderInvariants
  import opened SenderRuns
  import opened Filling
  import opened Receiving
  import opened Connecting
  import opened Answering
  import C = ConnectionRuns

  // ---------- the sender ----------

  /** Nothing is held back: all data up to the edge has been sent, and the FIN if it is due below the edge. */
  predicate Eager(s: Sender) {
    s.nextSeqno > 0 &&
    (s.previousAck > 0 && WindowOk(s) ==>
       ReadToEdge(s) && (s.stream.inputEnded && FinNumber(s) < Edge(s) ==> s.finSent))
  }

  /** The sender keeps its numbers, and its stream only grows. */
  ghost predicate Onward(s: Sender, t: Sender) {
    t.isn == s.isn && Extends(t.stream, s.stream) && t.nextSeqno >= s.nextSeqno
  }

  ghost predicate Clean(s: Sender) {
    Unstamped(s.out) && Unstamped(s.outstanding)
  }

  lemma FillEager(s: Sender)
    requires Inv(s)
    ensures Eager(FillWindow(s))
  {
    FillSends(s);
    FillWindowFrame(s);
    FillWindowInv(s);
  }

  lemma FillClean(s: Sender)
    requires Clean(s)
    ensures Clean(FillWindow(s))
  {
    if s.nextSeqno > 0 {
      FillLoopUnstamped(s);
    }
    FillEmits(s);
    EmittedClean(s, FillWindow(s));
  }

  lemma EmittedClean(s: Sender, t: Sender)
    requires Clean(s) && Emitted(s, t) && Unstamped(t.out)
    ensures Clean(t)
  {
    forall i | |s.outstanding| <= i < |t.outstanding|
      ensures !t.outstanding[i].ack
    {
      assert t.outstanding[i] == t.outstanding[|s.outstanding|..][i - |s.outstanding|]
          == t.out[|s.out|..][i - |s.outstanding|];
    }
  }

  lemma FillStep(s: Sender)
    requires Inv(s) && Clean(s)
    ensures var t := FillWindow(s); Inv(t) && Clean(t) && Onward(s, t) && Eager(t)
  {
    FillWindowInv(s);
    FillClean(s);
    FillWindowFrame(s);
    FillEager(s);
  }

  lemma {:induction false} DropAckedClean(s: Sender)
    requires Clean(s)
    ensures Clean(DropAcked(s))
    decreases |s.outstanding|
  {
    if s.outstanding != [] {
      DropAckedClean(s.(outstanding := s.outstanding[1..], inFlight := s.inFlight - s.outstanding[0].Length()));
    }
  }

  lemma AckStep(s: Sender, ackno: u32, window: u16)
    requires Inv(s) && Clean(s) && s.inFlight < TWO31
    ensures var t := AckReceived(s, ackno, window); Inv(t) && Clean(t) && Onward(s, t)
  {
    if IsNewAck(s, ackno) {
      TakeAckInv(s, ackno, window);
      DropAckedClean(s.(window := window, previousAck := Unwrap(ackno, s.isn, s.previousAck),
                        timer := s.timer.ResetRto().Stop().Start()));
      FillStep(TakeAck(s, ackno, window));
    }
  }

  lemma TickStep(s: Sender, ms: nat)
    requires Inv(s) && Clean(s)
    ensures var t := Sending.Tick(s, ms); Inv(t) && Clean(t) && Onward(s, t) && (Eager(s) ==> Eager(t))
  {
    TickInv(s, ms);
    TickSame(s, ms);
    TickClean(s, ms);
  }

  lemma TickSame(s: Sender, ms: nat)
    ensures var t := Sending.Tick(s, ms);
            t == s.(timer := t.timer, out := t.out, retransmissions := t.retransmissions)
  {
  }

  lemma TickClean(s: Sender, ms: nat)
    requires Clean(s)
    ensures Clean(Sending.Tick(s, ms))
  {
  }

  lemma AnswerStep(s: Sender, r: Receiver, seg: Segment)
    requires Inv(s) && Clean(s)
    ensures var t := Answered(s, r, seg); Inv(t) && Clean(t) && Onward(s, t) && (Eager(s) ==> Eager(t))
  {
    C.AnsweredInv(s, r, seg);
    AnsweredQueue(s, r, seg);
  }

  // ---------- what is put out ----------

  /** A reset, a bare acknowledgment, or a part of the stream with its own bytes. */
  ghost predicate Proper(seg: Segment, s: Sender) {
    seg.rst || Blank(seg) || (Carries(seg, s.isn, s.stream) && seg.at + seg.Length() <= s.nextSeqno)
  }

  ghost predicate OutOk(out: seq<Segment>, s: Sender) {
    forall i :: 0 <= i < |out| ==> Proper(out[i], s)
  }

  lemma OutKept(out: seq<Segment>, s: Sender, t: Sender)
    requires OutOk(out, s) && Onward(s, t)
    ensures OutOk(out, t)
  {
  }

  ghost predicate Prompt(c: Connection) {
    && c.sender.out == [] && Clean(c.sender) && OutOk(c.out, c.sender)
    && (c.active && c.receiver.isn.Some? ==> Eager(c.sender))
  }

  lemma FlushPrompt(c: Connection, m: Connection)
    requires OutOk(c.out, c.sender) && m.out == c.out && Onward(c.sender, m.sender) && Inv(m.sender) && Clean(m.sender)
    requires m.active && m.receiver.isn.Some? ==> Eager(m.sender)
    ensures Prompt(FlushSender(m)) && NewReport(m.receiver, c.out, FlushSender(m).out)
    ensures FlushSender(m).receiver == m.receiver
  {
    OutKept(c.out, c.sender, m.sender);
    FlushReports(m);
    FlushMeans(m);
    StampedOut(m.receiver, c.out, m.sender);
  }

  lemma StampedOut(r: Receiver, out: seq<Segment>, s: Sender)
    requires OutOk(out, s) && Inv(s)
    ensures OutOk(out + Stamped(r, s.out), s)
  {
    forall i | 0 <= i < |s.out|
      ensures Proper(Stamped(r, s.out)[i], s)
    {
      StampProper(r, s.out[i], s);
    }
  }

  lemma StampProper(r: Receiver, seg: Segment, s: Sender)
    requires Proper(seg, s)
    ensures Proper(Stamp(r, seg), s)
  {
  }

  // ---------- events ----------

  /** Everything new but a reset reports the receiver's state after the step. */
  ghost predicate Speaks(c: Connection, d: Connection) {
    c.out <= d.out && forall i :: |c.out| <= i < |d.out| ==> d.out[i].rst || Reports(d.receiver, d.out[i])
  }

  lemma FilledPrompt(c: Connection, s: Sender)
    requires Prompt(c) && Inv(s) && Onward(c.sender, s) && s.out == [] && s.outstanding == c.sender.outstanding
    ensures var d := FlushSender(c.(sender := FillWindow(s))); Prompt(d) && Speaks(c, d) && Eager(d.sender)
  {
    FillStep(s);
    FlushPrompt(c, c.(sender := FillWindow(s)));
    FlushMeans(c.(sender := FillWindow(s)));
  }

  /** What the application does is sent at once as far as it fits. */
  lemma AppPrompt(c: Connection, e: C.Event)
    requires Prompt(c) && C.Sound(c) && C.Allowed(c, e) && (e.Connects? || e.Writes? || e.Ends?)
    ensures var d := C.After(c, e); Prompt(d) && Speaks(c, d) && Eager(d.sender)
  {
    match e
    case Connects =>
      assert c.(active := true) == c;
      FilledPrompt(c, c.sender);
    case Writes(data) =>
      WriteInv(c.sender, data);
      FilledPrompt(c, c.sender.(stream := Write(c.sender.stream, data)));
    case Ends =>
      EndInputInv(c.sender);
      FilledPrompt(c, c.sender.(stream := EndInput(c.sender.stream)));
  }

  lemma ListenStep(c: Connection, seg: Segment)
    requires Prompt(c) && Inv(c.sender) && Output(c.receiver).capacity > 0 && (seg.ack ==> c.sender.inFlight < TWO31)
    ensures var d := Listen(c, seg);
            && Inv(d.sender) && Clean(d.sender) && Onward(c.sender, d.sender)
            && (d.receiver.isn.Some? ==> Eager(d.sender))
  {
    var acked := if seg.ack then AckReceived(c.sender, seg.ackno, seg.win) else c.sender;
    if seg.ack {
      AckStep(c.sender, seg.ackno, seg.win);
    }
    FillStep(acked);
    OnwardTwice(c.sender, acked, FillWindow(acked));
  }

  lemma OnwardTwice(s: Sender, u: Sender, t: Sender)
    requires Onward(s, u) && Onward(u, t)
    ensures Onward(s, t)
  {
  }

  lemma ReceivedPrompt(c: Connection, seg: Segment)
    requires Prompt(c) && Inv(c.sender) && Output(c.receiver).capacity > 0 && c.active
    requires seg.ack ==> c.sender.inFlight < TWO31
    ensures var d := Connecting.SegmentReceived(c, seg); Prompt(d) && Speaks(c, d)
  {
    if !seg.rst {
      var b := c.(sinceLast := 0);
      ListenStep(b, seg);
      var noted := NoteClosing(Listen(b, seg), seg);
      NotedSame(Listen(b, seg), seg);
      AnswerStep(noted.sender, noted.receiver, seg);
      OnwardTwice(c.sender, noted.sender, Answered(noted.sender, noted.receiver, seg));
      FlushPrompt(c, Reply(noted, seg));
    }
  }

  lemma TickPrompt(c: Connection, ms: nat)
    requires Prompt(c) && Inv(c.sender) && c.active
    ensures var d := Connecting.Tick(c, ms); Prompt(d) && Speaks(c, d)
  {
    TickStep(c.sender, ms);
    var aged := Aged(c, ms);
    if aged.sender.retransmissions > MAX_RETX_ATTEMPTS {
      OutKept(c.out, c.sender, SendRst(aged).sender);
    } else {
      FlushPrompt(c, Finish(aged));
    }
  }

  lemma StepPrompt(c: Connection, e: C.Event)
    requires Prompt(c) && C.Sound(c) && C.Allowed(c, e)
    ensures var d := C.After(c, e); Prompt(d) && Speaks(c, d)
  {
    match e
    case Receives(seg) => ReceivedPrompt(c, seg);
    case Ticks(ms) => TickPrompt(c, ms);
    case Reads(len) =>
    case _ => AppPrompt(c, e);
  }

  // ---------- runs ----------

  /**
   * In every run: the queue of the sender is handed over at each step; everything put out but a reset carries its
   * own bytes; and once the peer's SYN is in, nothing that fits the window is held back.
   */
  lemma {:induction false} RunPrompt(sendCapacity: nat, receiveCapacity: nat, timeout: nat, isn: u32, events: seq<C.Event>)
    requires receiveCapacity > 0 && C.Legal(NewConnection(sendCapacity, receiveCapacity, timeout, isn), events)
    ensures Prompt(C.Exec(NewConnection(sendCapacity, receiveCapacity, timeout, isn), events))
    decreases |events|
  {
    if events != [] {
      var init := NewConnection(sendCapacity, receiveCapacity, timeout, isn);
      var before, e := events[..|events| - 1], events[|events| - 1];
      RunPrompt(sendCapacity, receiveCapacity, timeout, isn, before);
      C.RunIsOk(sendCapacity, receiveCapacity, timeout, isn, before);
      StepPrompt(C.Exec(init, before), e);
    }
  }

  /** And whatever comes next, every segment it brings out but a reset reports the receiver as it then is. */
  lemma RunSpeaks(sendCapacity: nat, receiveCapacity: nat, timeout: nat, isn: u32, events: seq<C.Event>, e: C.Event)
    requires receiveCapacity > 0 && C.Legal(NewConnection(sendCapacity, receiveCapacity, timeout, isn), events)
    requires C.Allowed(C.Exec(NewConnection(sendCapacity, receiveCapacity, timeout, isn), events), e)
    ensures var c := C.Exec(NewConnection(sendCapacity, receiveCapacity, timeout, isn), events); Speaks(c, C.After(c, e))
  {
    RunPrompt(sendCapacity, receiveCapacity, timeout, isn, events);
    C.RunIsOk(sendCapacity, receiveCapacity, timeout, isn, events);
    StepPrompt(C.Exec(NewConnection(sendCapacity, receiveCapacity, timeout, isn), events), e);
  }
}
