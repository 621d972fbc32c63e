/** Whole runs of a connection against any peer: clean shutdown, lingering, and the retry limit. */
module ConnectionRuns {
  import opened Words
  import opened WrappingIntegers
  import opened ByteStreams
  import opened Reassembly
  import opened Segments
  import opened Sending
  import opened SenderInvariants
  import opened Receiving
  import opened Connecting
  import opened SenderRuns

  // ---------- what every step keeps ----------

  predicate Ended(c: Connection) {
    Output(c.receiver).inputEnded
  }

  predicate Failed(c: Connection) {
    c.sender.stream.error || Output(c.receiver).error
  }

  /** The flags say no more than what is true of sender and receiver. */
  ghost predicate Sound(c: Connection) {
    && Inv(c.sender) && OnRing(c.receiver.reassembler)
    && (c.finSent ==> c.sender.finSent)
    && (!c.linger ==> Ended(c)) && (Ended(c) ==> c.receiver.isn.Some?)
    && (c.finAcked ==> c.finSent && c.sender.previousAck == c.sender.nextSeqno)
    && c.sender.stream.error == Output(c.receiver).error
  }

  /** Inactive without an error: both streams finished, and the time to linger has passed where it had to. */
  ghost predicate ClosedClean(c: Connection) {
    !c.active && !Failed(c) ==> Ended(c) && c.finAcked && (c.linger ==> c.sinceLast >= 10 * c.timeout)
  }

  // ---------- flushing ----------

  ghost predicate NoNewRst(before: seq<Segment>, after: seq<Segment>) {
    before <= after && forall i :: |before| <= i < |after| ==> !after[i].rst
  }

  lemma FlushOneSound(c: Connection)
    requires Sound(c) && c.sender.out != []
    ensures Sound(FlushOne(c)) && NoNewRst(c.out, FlushOne(c).out)
  {
  }

  lemma {:induction false} FlushSound(c: Connection)
    requires Sound(c)
    ensures var d := FlushSender(c);
            && Sound(d) && d == c.(sender := c.sender.(out := []), out := d.out, finSent := d.finSent)
            && (c.finSent ==> d.finSent)
            && NoNewRst(c.out, d.out)
    decreases |c.sender.out|
  {
    if c.sender.out != [] {
      FlushOneSound(c);
      FlushSound(FlushOne(c));
    }
  }

  /** Runs the sender forward and flushes. */
  lemma SenderStepSound(c: Connection, s: Sender)
    requires Sound(c) && Inv(s) && (c.sender.finSent ==> s.finSent) && s.stream.error == c.sender.stream.error
    requires c.finAcked ==> s.previousAck == s.nextSeqno
    ensures Sound(c.(sender := s))
  {
  }

  // ---------- after the FIN ----------

  /** Once the FIN is out, a fill changes nothing. */
  lemma FillAfterFin(s: Sender)
    requires Inv(s) && s.finSent
    ensures FillWindow(s) == s
  {
  }

  /** After the FIN an acknowledgment can only confirm; one for the last number confirms everything. */
  lemma AckAfterFin(s: Sender, ackno: u32, window: u16)
    requires Inv(s) && s.finSent && s.inFlight < TWO31
    ensures var t := AckReceived(s, ackno, window);
            && Inv(t) && t.finSent && t.nextSeqno == s.nextSeqno && t.previousAck >= s.previousAck
            && t.stream == s.stream && t.isn == s.isn
            && (ackno == Wrap(s.nextSeqno, s.isn) ==> t.previousAck == t.nextSeqno)
  {
    AckReceivedInv(s, ackno, window);
    UnwrapInvertsWrap(s.nextSeqno, s.isn, s.previousAck);
    if IsNewAck(s, ackno) {
      TakeAckInv(s, ackno, window);
      FillAfterFin(TakeAck(s, ackno, window));
    }
  }

  lemma AckFrame(s: Sender, ackno: u32, window: u16)
    requires Inv(s) && s.inFlight < TWO31
    ensures var t := AckReceived(s, ackno, window);
            Inv(t) && (s.finSent ==> t.finSent) && t.stream.error == s.stream.error && t.isn == s.isn
  {
    AckReceivedInv(s, ackno, window);
    if IsNewAck(s, ackno) {
      TakeAckInv(s, ackno, window);
      FillWindowFrame(TakeAck(s, ackno, window));
    }
  }

  // ---------- receiving a segment ----------

  lemma ReceiverKeeps(r: Receiver, seg: Segment)
    requires OnRing(r.reassembler)
    ensures var t := Receiving.SegmentReceived(r, seg);
            && OnRing(t.reassembler) && (Output(r).inputEnded ==> Output(t).inputEnded)
            && (r.isn.Some? ==> t.isn.Some?) && (t.isn.None? ==> t == r)
            && Output(t).error == Output(r).error && Output(t).capacity == Output(r).capacity
  {
    if r.isn.None? {
      PushOnRing(r.reassembler, seg.payload, 0, seg.fin);
    } else {
      var at := Unwrap(seg.seqno, r.isn.value, NextByte(r));
      if at != 0 {
        PushOnRing(r.reassembler, seg.payload, at - 1, seg.fin);
      }
    }
  }

  /** The step of `Listen`, seen from the flags. */
  ghost predicate Heard(c: Connection, d: Connection, seg: Segment) {
    && d == c.(sender := d.sender, receiver := d.receiver)
    && Output(d.receiver).capacity == Output(c.receiver).capacity
    && Output(d.receiver).error == Output(c.receiver).error
    && (c.finSent && seg.ack && seg.ackno == Wrap(d.sender.nextSeqno, d.sender.isn) ==>
          d.sender.previousAck == d.sender.nextSeqno)
  }

  lemma ListenSound(c: Connection, seg: Segment)
    requires Sound(c) && (seg.ack ==> c.sender.inFlight < TWO31)
    ensures Sound(Listen(c, seg)) && Heard(c, Listen(c, seg), seg)
  {
    ReceiverKeeps(c.receiver, seg);
    var acked := if seg.ack then AckReceived(c.sender, seg.ackno, seg.win) else c.sender;
    if seg.ack {
      AckFrame(c.sender, seg.ackno, seg.win);
      if c.sender.finSent {
        AckAfterFin(c.sender, seg.ackno, seg.win);
      }
    }
    FillWindowInv(acked);
    FillWindowFrame(acked);
    if acked.finSent {
      FillAfterFin(acked);
    }
  }

  lemma ReplySound(c: Connection, seg: Segment)
    requires Sound(c)
    ensures Sound(Reply(c, seg)) && Reply(c, seg) == c.(sender := c.sender.(out := Reply(c, seg).sender.out))
  {
    AnsweredInv(c.sender, c.receiver, seg);
    SenderStepSound(c, Answered(c.sender, c.receiver, seg));
  }

  lemma AnsweredInv(s: Sender, r: Receiver, seg: Segment)
    requires Inv(s)
    ensures Inv(Answered(s, r, seg)) && Answered(s, r, seg) == s.(out := Answered(s, r, seg).out)
  {
    SendEmptyInv(s);
    SendEmptyInv(SendEmpty(s));
  }

  lemma NoteClosingSound(c: Connection, seg: Segment)
    requires Sound(c)
    requires c.finSent && seg.ackno == Wrap(c.sender.nextSeqno, c.sender.isn) ==> c.sender.previousAck == c.sender.nextSeqno
    ensures Sound(NoteClosing(c, seg))
    ensures c.active ==> ClosedClean(NoteClosing(c, seg))
  {
  }

  /** Segments that come after our FIN carry an acknowledgment. */
  predicate AcksAfterFin(c: Connection, seg: Segment) {
    c.finSent ==> seg.ack
  }

  lemma ReceivedSound(c: Connection, seg: Segment)
    requires Sound(c) && c.active && (seg.ack ==> c.sender.inFlight < TWO31) && (seg.rst || AcksAfterFin(c, seg))
    ensures var d := Connecting.SegmentReceived(c, seg);
            && Sound(d) && ClosedClean(d) && d.sinceLast == 0 && d.timeout == c.timeout
            && (Failed(d) <==> Failed(c) || seg.rst)
            && NoNewRst(c.out, d.out)
  {
    if !seg.rst {
      var heard := Listen(c.(sinceLast := 0), seg);
      ListenSound(c.(sinceLast := 0), seg);
      var noted := NoteClosing(heard, seg);
      NoteClosingSound(heard, seg);
      ReplySound(noted, seg);
      FlushSound(Reply(noted, seg));
    }
  }

  /**
   * The flag is set by looking at the number alone. For a segment that names our last number while
   * not everything is acknowledged, it is right exactly when the segment carries the ACK flag.
   */
  lemma FinAckedRightIff(c: Connection, seg: Segment)
    requires Sound(c) && c.active && c.finSent && !seg.rst && c.sender.inFlight < TWO31
    requires seg.ackno == Wrap(c.sender.nextSeqno, c.sender.isn) && c.sender.previousAck < c.sender.nextSeqno
    ensures var d := NoteClosing(Listen(c.(sinceLast := 0), seg), seg);
            d.finAcked && (d.sender.previousAck == d.sender.nextSeqno <==> seg.ack)
  {
    ListenSound(c.(sinceLast := 0), seg);
    AckAfterFin(c.sender, seg.ackno, seg.win);
    FillAfterFin(c.sender);
    FillAfterFin(AckReceived(c.sender, seg.ackno, seg.win));
  }

  // ---------- the other steps ----------

  lemma WriteSound(c: Connection, data: seq<byte>)
    requires Sound(c) && !c.sender.stream.inputEnded
    ensures Sound(WriteData(c, data)) && Quiet(c, WriteData(c, data))
  {
    var s := c.sender.(stream := Write(c.sender.stream, data));
    WriteInv(c.sender, data);
    FillSound(c, s);
  }

  lemma EndSound(c: Connection)
    requires Sound(c)
    ensures Sound(EndInputStream(c)) && Quiet(c, EndInputStream(c))
  {
    var s := c.sender.(stream := EndInput(c.sender.stream));
    EndInputInv(c.sender);
    FillSound(c, s);
  }

  lemma ConnectSound(c: Connection)
    requires Sound(c) && c.active
    ensures Sound(Connect(c)) && Quiet(c, Connect(c))
  {
    FillSound(c, c.sender);
  }

  /** A step that neither closes the connection nor fails it. */
  ghost predicate Quiet(c: Connection, d: Connection) {
    && d.active == c.active && d.sinceLast == c.sinceLast && d.timeout == c.timeout
    && Failed(d) == Failed(c) && d.receiver == c.receiver && d.linger == c.linger && d.finAcked == c.finAcked
    && NoNewRst(c.out, d.out)
  }

  lemma FillSound(c: Connection, s: Sender)
    requires Sound(c) && Inv(s) && s.stream.error == c.sender.stream.error && s.finSent == c.sender.finSent
    requires s.previousAck == c.sender.previousAck && s.nextSeqno == c.sender.nextSeqno
    ensures var d := FlushSender(c.(sender := FillWindow(s))); Sound(d) && Quiet(c, d)
  {
    FillWindowInv(s);
    FillWindowFrame(s);
    if s.finSent {
      FillAfterFin(s);
    }
    FlushSound(c.(sender := FillWindow(s)));
  }

  lemma TickFrame(s: Sender, ms: nat)
    ensures var t := Sending.Tick(s, ms);
            && t.stream == s.stream && t.nextSeqno == s.nextSeqno && t.previousAck == s.previousAck
            && t.finSent == s.finSent && t.isn == s.isn
  {
  }

  lemma RstSound(c: Connection)
    requires Sound(c)
    ensures var d := SendRst(c);
            && Sound(d) && Failed(d) && !d.active && d.sender.out == [] && |d.out| == |c.out| + 1 && c.out <= d.out
            && var seg := d.out[|c.out|]; seg.rst && seg.Length() == 0 && seg.seqno == Wrap(c.sender.nextSeqno, c.sender.isn)
  {
  }

  /** An inactive connection only wakes for a SYN, which its receiver takes; its sender does nothing. */
  lemma InactiveReceives(c: Connection, seg: Segment)
    requires Output(c.receiver).capacity > 0 && !c.active
    ensures var d := Connecting.SegmentReceived(c, seg);
            && (d.active <==> seg.syn) && d.sender == c.sender && d.out == c.out
            && d.receiver == if seg.syn then Receiving.SegmentReceived(c.receiver, seg) else c.receiver
  {
  }

  /** An active connection has not used up its retransmissions. */
  predicate Trying(c: Connection) {
    c.active ==> c.sender.retransmissions <= MAX_RETX_ATTEMPTS
  }

  /** The tick that is one expiry too many: every retransmission used, and the window not closed. */
  predicate OutOfTries(s: Sender, ms: nat) {
    s.retransmissions == MAX_RETX_ATTEMPTS && s.window != 0 && s.timer.Expires(ms)
  }

  lemma OutOfTriesIff(s: Sender, ms: nat)
    requires s.retransmissions <= MAX_RETX_ATTEMPTS
    ensures Sending.Tick(s, ms).retransmissions > MAX_RETX_ATTEMPTS <==> OutOfTries(s, ms)
  {
  }

  lemma TickSound(c: Connection, ms: nat)
    requires Sound(c) && c.active && Trying(c)
    ensures var d := Connecting.Tick(c, ms); var over := OutOfTries(c.sender, ms);
            && Sound(d) && ClosedClean(d) && d.sinceLast == c.sinceLast + ms && d.timeout == c.timeout
            && (Failed(d) <==> Failed(c) || over)
            && (over ==> |d.out| > |c.out| && d.out[|c.out|].rst && d.out[..|c.out|] == c.out)
            && (!over ==> NoNewRst(c.out, d.out))
  {
    TickInv(c.sender, ms);
    TickFrame(c.sender, ms);
    OutOfTriesIff(c.sender, ms);
    var d := Aged(c, ms);
    SenderStepSound(c, d.sender);
    if d.sender.retransmissions > MAX_RETX_ATTEMPTS {
      RstSound(d);
    } else {
      FlushSound(Finish(d));
    }
  }

  // ---------- timing ----------

  /** The sender's timer rules, with the time since its count of retransmissions was last zeroed. */
  ghost predicate Timed(s: Sender, timeout: nat, since: nat) {
    TimerInv(s) && s.timer.initialRto == timeout && Waited(s, since)
  }

  lemma FillTimed(s: Sender, timeout: nat, since: nat)
    requires Timed(s, timeout, since)
    ensures Timed(FillWindow(s), timeout, since)
  {
    FillWindowTimer(s);
    FillWindowFrame(s);
  }

  lemma AckTimed(s: Sender, ackno: u32, window: u16, timeout: nat, since: nat)
    requires Timed(s, timeout, since) && Inv(s) && s.inFlight < TWO31
    ensures Timed(AckReceived(s, ackno, window), timeout, if IsNewAck(s, ackno) then 0 else since)
  {
    AckReceivedTimer(s, ackno, window);
  }

  lemma TickTimed(s: Sender, ms: nat, timeout: nat, since: nat)
    requires Timed(s, timeout, since)
    ensures Timed(Sending.Tick(s, ms), timeout, since + ms)
  {
    TickTimer(s, ms);
    TickWaits(s, since, ms);
  }

  /** Does this segment bring a new acknowledgment? */
  predicate BringsNewAck(c: Connection, seg: Segment) {
    !seg.rst && seg.ack && IsNewAck(c.sender, seg.ackno)
  }

  lemma ListenTimed(c: Connection, seg: Segment, timeout: nat, since: nat)
    requires Inv(c.sender) && Output(c.receiver).capacity > 0 && !seg.rst
    requires (seg.ack ==> c.sender.inFlight < TWO31) && Timed(c.sender, timeout, since)
    ensures Timed(Listen(c, seg).sender, timeout, if BringsNewAck(c, seg) then 0 else since)
  {
    if seg.ack {
      AckTimed(c.sender, seg.ackno, seg.win, timeout, since);
    }
    var acked := if seg.ack then AckReceived(c.sender, seg.ackno, seg.win) else c.sender;
    FillTimed(acked, timeout, if BringsNewAck(c, seg) then 0 else since);
  }

  /** After listening, the rest of the step only empties the sender's queue. */
  lemma ReceivedSender(c: Connection, seg: Segment)
    requires Sound(c) && c.active && (seg.ack ==> c.sender.inFlight < TWO31) && !seg.rst && AcksAfterFin(c, seg)
    ensures Connecting.SegmentReceived(c, seg).sender == Listen(c.(sinceLast := 0), seg).sender.(out := [])
  {
    var heard := Listen(c.(sinceLast := 0), seg);
    ListenSound(c.(sinceLast := 0), seg);
    NoteClosingSound(heard, seg);
    ReplySound(NoteClosing(heard, seg), seg);
    FlushSound(Reply(NoteClosing(heard, seg), seg));
  }

  lemma ReceivedTimed(c: Connection, seg: Segment, timeout: nat, since: nat)
    requires Sound(c) && c.active && (seg.ack ==> c.sender.inFlight < TWO31) && Timed(c.sender, timeout, since)
    requires seg.rst || AcksAfterFin(c, seg)
    ensures Timed(Connecting.SegmentReceived(c, seg).sender, timeout, if BringsNewAck(c, seg) then 0 else since)
  {
    if !seg.rst {
      ListenTimed(c.(sinceLast := 0), seg, timeout, since);
      ReceivedSender(c, seg);
    }
  }

  // ---------- runs ----------

  datatype Event =
    | Connects
    | Writes(data: seq<byte>)
    | Ends
    | Reads(len: nat)
    | Receives(seg: Segment)
    | Ticks(ms: nat)

  function After(c: Connection, e: Event): Connection
    requires Output(c.receiver).capacity > 0
  {
    match e
    case Connects => Connect(c)
    case Writes(data) => WriteData(c, data)
    case Ends => EndInputStream(c)
    case Reads(len) => ReadData(c, len)
    case Receives(seg) => Connecting.SegmentReceived(c, seg)
    case Ticks(ms) => Connecting.Tick(c, ms)
  }

  lemma {:induction false} FlushReceiver(c: Connection)
    ensures FlushSender(c).receiver == c.receiver
    decreases |c.sender.out|
  {
    if c.sender.out != [] {
      FlushReceiver(FlushOne(c));
    }
  }

  lemma AfterCapacity(c: Connection, e: Event)
    requires Output(c.receiver).capacity > 0
    ensures Output(After(c, e).receiver).capacity == Output(c.receiver).capacity
  {
    match e
    case Connects => FlushReceiver(c.(active := true, sender := FillWindow(c.sender)));
    case Writes(data) => FlushReceiver(c.(sender := FillWindow(c.sender.(stream := Write(c.sender.stream, data)))));
    case Ends => FlushReceiver(c.(sender := FillWindow(c.sender.(stream := EndInput(c.sender.stream)))));
    case Reads(len) =>
    case Receives(seg) => ReceivedCapacity(c, seg);
    case Ticks(ms) => TickCapacity(c, ms);
  }

  lemma ReceivedCapacity(c: Connection, seg: Segment)
    requires Output(c.receiver).capacity > 0
    ensures Output(Connecting.SegmentReceived(c, seg).receiver).capacity == Output(c.receiver).capacity
  {
    Receiving.ReceivedCapacity(c.receiver, seg);
    var noted := NoteClosing(Listen(c.(sinceLast := 0), seg), seg);
    ReplyReceiver(noted, seg);
    FlushReceiver(Reply(noted, seg));
  }

  lemma ReplyReceiver(c: Connection, seg: Segment)
    ensures Reply(c, seg).receiver == c.receiver
  {
  }

  lemma TickCapacity(c: Connection, ms: nat)
    ensures Output(Connecting.Tick(c, ms).receiver).capacity == Output(c.receiver).capacity
  {
    FlushReceiver(Finish(Aged(c, ms)));
  }

  function Exec(init: Connection, events: seq<Event>): (c: Connection)
    requires Output(init.receiver).capacity > 0
    ensures Output(c.receiver).capacity > 0
    decreases |events|
  {
    if events == [] then init
    else
      var b := Exec(init, events[..|events| - 1]);
      AfterCapacity(b, events[|events| - 1]);
      After(b, events[|events| - 1])
  }

  /**
   * The owner stops at an inactive connection and does not write after ending; less than 2^31 is in
   * flight when an acknowledgment comes; after our FIN the peer's segments carry acknowledgments.
   */
  ghost predicate Allowed(c: Connection, e: Event) {
    && c.active
    && (e.Writes? ==> !c.sender.stream.inputEnded)
    && (e.Receives? ==>
          (e.seg.ack ==> c.sender.inFlight < TWO31) && (e.seg.rst || AcksAfterFin(c, e.seg)))
  }

  ghost predicate Legal(init: Connection, events: seq<Event>)
    requires Output(init.receiver).capacity > 0
    decreases |events|
  {
    events == [] ||
    (Legal(init, events[..|events| - 1]) && Allowed(Exec(init, events[..|events| - 1]), events[|events| - 1]))
  }

  /** Milliseconds ticked since the last segment came in. */
  function QuietTime(events: seq<Event>): nat
    decreases |events|
  {
    if events == [] then 0
    else
      match events[|events| - 1]
      case Receives(_) => 0
      case Ticks(ms) => QuietTime(events[..|events| - 1]) + ms
      case _ => QuietTime(events[..|events| - 1])
  }

  /** Milliseconds ticked since the last new acknowledgment, or since the start. */
  function SinceNewAck(init: Connection, events: seq<Event>): nat
    requires Output(init.receiver).capacity > 0
    decreases |events|
  {
    if events == [] then 0
    else
      var before, e := events[..|events| - 1], events[|events| - 1];
      match e
      case Receives(seg) => if BringsNewAck(Exec(init, before), seg) then 0 else SinceNewAck(init, before)
      case Ticks(ms) => SinceNewAck(init, before) + ms
      case _ => SinceNewAck(init, before)
  }

  predicate RstSent(out: seq<Segment>) {
    exists i :: 0 <= i < |out| && out[i].rst
  }

  predicate RstReceived(events: seq<Event>) {
    exists i :: 0 <= i < |events| && events[i].Receives? && events[i].seg.rst
  }

  lemma RstReceivedLast(events: seq<Event>)
    requires events != []
    ensures var before, e := events[..|events| - 1], events[|events| - 1];
            RstReceived(events) <==> RstReceived(before) || (e.Receives? && e.seg.rst)
  {
  }

  lemma NoNewRstSent(before: seq<Segment>, after: seq<Segment>)
    requires NoNewRst(before, after)
    ensures RstSent(after) <==> RstSent(before)
  {
  }

  /** What a run has established about the state it reaches. */
  ghost predicate RunOk(init: Connection, events: seq<Event>, c: Connection)
    requires Output(init.receiver).capacity > 0
  {
    && Sound(c) && ClosedClean(c) && Trying(c) && c.timeout == init.timeout
    && c.sinceLast == QuietTime(events)
    && Timed(c.sender, init.timeout, SinceNewAck(init, events))
    && (Failed(c) <==> RstSent(c.out) || RstReceived(events))
  }

  /** Steps of the application. */
  lemma AppStep(c: Connection, e: Event, timeout: nat, since: nat)
    requires Sound(c) && Allowed(c, e) && Timed(c.sender, timeout, since) && (e.Connects? || e.Writes? || e.Ends? || e.Reads?)
    ensures var d := After(c, e);
            && Sound(d) && ClosedClean(d) && d.timeout == c.timeout && d.sinceLast == c.sinceLast
            && Timed(d.sender, timeout, since) && Failed(d) == Failed(c) && NoNewRst(c.out, d.out)
            && d.active == c.active && d.sender.retransmissions == c.sender.retransmissions
  {
    match e
    case Connects =>
      ConnectSound(c);
      FillAndFlushTimed(c, c.sender, timeout, since);
    case Writes(data) =>
      WriteSound(c, data);
      WriteInv(c.sender, data);
      FillAndFlushTimed(c, c.sender.(stream := Write(c.sender.stream, data)), timeout, since);
    case Ends =>
      EndSound(c);
      EndInputInv(c.sender);
      FillAndFlushTimed(c, c.sender.(stream := EndInput(c.sender.stream)), timeout, since);
    case Reads(len) =>
  }

  lemma FillAndFlushTimed(c: Connection, s: Sender, timeout: nat, since: nat)
    requires Sound(c) && Inv(s) && s.stream.error == c.sender.stream.error && s.finSent == c.sender.finSent
    requires s.previousAck == c.sender.previousAck && s.nextSeqno == c.sender.nextSeqno && Timed(s, timeout, since)
    ensures Timed(FlushSender(c.(sender := FillWindow(s))).sender, timeout, since)
    ensures FlushSender(c.(sender := FillWindow(s))).sender.retransmissions == s.retransmissions
  {
    FillTimed(s, timeout, since);
    FillWindowFrame(s);
    FlushKeepsSender(c.(sender := FillWindow(s)));
  }

  lemma {:induction false} FlushKeepsSender(c: Connection)
    ensures FlushSender(c).sender == c.sender.(out := [])
    decreases |c.sender.out|
  {
    if c.sender.out != [] {
      FlushKeepsSender(FlushOne(c));
    }
  }

  /** A tick changes the sender as its own tick does, but for the queue and the error flag. */
  lemma TickSender(c: Connection, ms: nat)
    requires Sound(c)
    ensures var s, t := Sending.Tick(c.sender, ms), Connecting.Tick(c, ms).sender;
            t.timer == s.timer && t.retransmissions == s.retransmissions && t.nextSeqno == s.nextSeqno
            && t.outstanding == s.outstanding
  {
    TickInv(c.sender, ms);
    TickFrame(c.sender, ms);
    var d := Aged(c, ms);
    SenderStepSound(c, d.sender);
    if d.sender.retransmissions <= MAX_RETX_ATTEMPTS {
      FlushSound(Finish(d));
    }
  }

  lemma TickStepTimed(c: Connection, ms: nat, timeout: nat, since: nat)
    requires Sound(c) && Timed(c.sender, timeout, since)
    ensures Timed(Connecting.Tick(c, ms).sender, timeout, since + ms)
  {
    TickTimed(c.sender, ms, timeout, since);
    TickSender(c, ms);
  }

  /** What a single step adds to a run. */
  ghost predicate Grows(init: Connection, before: seq<Event>, e: Event)
    requires Output(init.receiver).capacity > 0
  {
    RunOk(init, before, Exec(init, before)) && Allowed(Exec(init, before), e)
  }

  lemma ReceivedTries(c: Connection, seg: Segment)
    requires Sound(c) && c.active && (seg.ack ==> c.sender.inFlight < TWO31) && (seg.rst || AcksAfterFin(c, seg))
    requires Trying(c) && TimerInv(c.sender)
    ensures Trying(Connecting.SegmentReceived(c, seg))
  {
    if !seg.rst {
      ReceivedSender(c, seg);
      var acked := if seg.ack then AckReceived(c.sender, seg.ackno, seg.win) else c.sender;
      if seg.ack {
        AckReceivedTimer(c.sender, seg.ackno, seg.win);
      }
      FillWindowFrame(acked);
    }
  }

  lemma ReceiveStepOk(init: Connection, before: seq<Event>, seg: Segment, events: seq<Event>)
    requires Output(init.receiver).capacity > 0 && Grows(init, before, Receives(seg))
    requires events != [] && events[..|events| - 1] == before && events[|events| - 1] == Receives(seg)
    ensures RunOk(init, events, Exec(init, events))
  {
    var c := Exec(init, before);
    RstReceivedLast(events);
    ReceivedSound(c, seg);
    ReceivedTries(c, seg);
    ReceivedTimed(c, seg, init.timeout, SinceNewAck(init, before));
    NoNewRstSent(c.out, Exec(init, events).out);
  }

  /** A tick sends a reset exactly when it is one expiry too many. */
  lemma TickRst(c: Connection, ms: nat)
    requires Sound(c) && c.active && Trying(c)
    ensures RstSent(Connecting.Tick(c, ms).out) <==> RstSent(c.out) || OutOfTries(c.sender, ms)
  {
    TickSound(c, ms);
    if !OutOfTries(c.sender, ms) {
      NoNewRstSent(c.out, Connecting.Tick(c, ms).out);
    }
  }

  lemma TickStep(c: Connection, ms: nat, timeout: nat, since: nat)
    requires Sound(c) && c.active && Trying(c) && Timed(c.sender, timeout, since)
    ensures var d := Connecting.Tick(c, ms); var over := OutOfTries(c.sender, ms);
            && Sound(d) && ClosedClean(d) && Trying(d) && d.timeout == c.timeout && d.sinceLast == c.sinceLast + ms
            && Timed(d.sender, timeout, since + ms)
            && (Failed(d) <==> Failed(c) || over)
            && (RstSent(d.out) <==> RstSent(c.out) || over)
  {
    TickSound(c, ms);
    TickStepTimed(c, ms, timeout, since);
    TickRst(c, ms);
    OutOfTriesIff(c.sender, ms);
    TickSender(c, ms);
  }

  lemma TickStepOk(init: Connection, before: seq<Event>, ms: nat, events: seq<Event>)
    requires Output(init.receiver).capacity > 0 && Grows(init, before, Ticks(ms))
    requires events != [] && events[..|events| - 1] == before && events[|events| - 1] == Ticks(ms)
    ensures RunOk(init, events, Exec(init, events))
  {
    RstReceivedLast(events);
    ExecTick(init, before, ms, events);
    TickStep(Exec(init, before), ms, init.timeout, SinceNewAck(init, before));
  }

  lemma ExecTick(init: Connection, before: seq<Event>, ms: nat, events: seq<Event>)
    requires Output(init.receiver).capacity > 0
    requires events != [] && events[..|events| - 1] == before && events[|events| - 1] == Ticks(ms)
    ensures Exec(init, events) == Connecting.Tick(Exec(init, before), ms)
    ensures QuietTime(events) == QuietTime(before) + ms && SinceNewAck(init, events) == SinceNewAck(init, before) + ms
  {
  }

  lemma AppStepOk(init: Connection, before: seq<Event>, e: Event, events: seq<Event>)
    requires Output(init.receiver).capacity > 0 && Grows(init, before, e) && !e.Receives? && !e.Ticks?
    requires events != [] && events[..|events| - 1] == before && events[|events| - 1] == e
    ensures RunOk(init, events, Exec(init, events))
  {
    var c := Exec(init, before);
    RstReceivedLast(events);
    AppStep(c, e, init.timeout, SinceNewAck(init, before));
    NoNewRstSent(c.out, Exec(init, events).out);
  }

  lemma InitOk(sendCapacity: nat, receiveCapacity: nat, timeout: nat, isn: u32)
    requires receiveCapacity > 0
    ensures var init := NewConnection(sendCapacity, receiveCapacity, timeout, isn); RunOk(init, [], init)
  {
  }

  lemma {:induction false} RunIsOk(sendCapacity: nat, receiveCapacity: nat, timeout: nat, isn: u32, events: seq<Event>)
    requires receiveCapacity > 0 && Legal(NewConnection(sendCapacity, receiveCapacity, timeout, isn), events)
    ensures var init := NewConnection(sendCapacity, receiveCapacity, timeout, isn);
            RunOk(init, events, Exec(init, events))
    decreases |events|
  {
    var init := NewConnection(sendCapacity, receiveCapacity, timeout, isn);
    if events == [] {
      InitOk(sendCapacity, receiveCapacity, timeout, isn);
    } else {
      var before, e := events[..|events| - 1], events[|events| - 1];
      RunIsOk(sendCapacity, receiveCapacity, timeout, isn, before);
      match e
      case Receives(seg) => ReceiveStepOk(init, before, seg, events);
      case Ticks(ms) => TickStepOk(init, before, ms, events);
      case _ => AppStepOk(init, before, e, events);
    }
  }

  /**
   * A connection that becomes inactive with no RST sent or received has its inbound stream ended,
   * its FIN sent and everything acknowledged; if it still lingers, ten timeouts have passed since
   * the last segment. The summary then is that of a closed connection, and only then.
   */
  lemma CleanShutdown(sendCapacity: nat, receiveCapacity: nat, timeout: nat, isn: u32, events: seq<Event>)
    requires receiveCapacity > 0 && Legal(NewConnection(sendCapacity, receiveCapacity, timeout, isn), events)
    ensures var c := Exec(NewConnection(sendCapacity, receiveCapacity, timeout, isn), events);
            var clean := !c.active && !RstSent(c.out) && !RstReceived(events);
            && (clean ==> Ended(c) && c.sender.finSent && c.sender.previousAck == c.sender.nextSeqno)
            && (clean && c.linger ==> QuietTime(events) >= 10 * timeout)
            && (clean <==> StateOf(c) == CLOSED)
  {
    RunIsOk(sendCapacity, receiveCapacity, timeout, isn, events);
    var c := Exec(NewConnection(sendCapacity, receiveCapacity, timeout, isn), events);
    if !Failed(c) {
      SummaryExact(c.sender);
    }
  }

  /** A connection that resets because of the retry limit has had no new acknowledgment for at least 511 timeouts. */
  lemma RetryResetNeedsTime(sendCapacity: nat, receiveCapacity: nat, timeout: nat, isn: u32, events: seq<Event>)
    requires receiveCapacity > 0 && Legal(NewConnection(sendCapacity, receiveCapacity, timeout, isn), events)
    requires Exec(NewConnection(sendCapacity, receiveCapacity, timeout, isn), events).sender.retransmissions > MAX_RETX_ATTEMPTS
    ensures SinceNewAck(NewConnection(sendCapacity, receiveCapacity, timeout, isn), events) >= 511 * timeout
  {
    var init := NewConnection(sendCapacity, receiveCapacity, timeout, isn);
    RunIsOk(sendCapacity, receiveCapacity, timeout, isn, events);
    LimitWaited(Exec(init, events).sender, SinceNewAck(init, events));
  }

  /**
   * Over every run: the next tick of a connection that is active resets it exactly when it is one
   * expiry too many, whatever was or was not sent before.
   */
  lemma ResetIff(sendCapacity: nat, receiveCapacity: nat, timeout: nat, isn: u32, events: seq<Event>, ms: nat)
    requires receiveCapacity > 0 && Legal(NewConnection(sendCapacity, receiveCapacity, timeout, isn), events)
    requires Exec(NewConnection(sendCapacity, receiveCapacity, timeout, isn), events).active
    ensures var c := Exec(NewConnection(sendCapacity, receiveCapacity, timeout, isn), events);
            && c.sender.retransmissions <= MAX_RETX_ATTEMPTS
            && (RstSent(Connecting.Tick(c, ms).out) <==> RstSent(c.out) || OutOfTries(c.sender, ms))
  {
    RunIsOk(sendCapacity, receiveCapacity, timeout, isn, events);
    TickRst(Exec(NewConnection(sendCapacity, receiveCapacity, timeout, isn), events), ms);
  }

  // ---------- waiting before the SYN ----------

  /** Ticks of one timeout, then two, then four, and so on. */
  function Waits(timeout: nat, k: nat): seq<Event> {
    if k == 0 then [] else Waits(timeout, k - 1) + [Ticks(timeout * Pow2(k - 1))]
  }

  function Silent(init: Connection, k: nat): Connection {
    init.(sender := init.sender.(retransmissions := k, timer := Timer(init.timeout, init.timeout * Pow2(k), 0, true)),
          sinceLast := init.timeout * (Pow2(k) - 1))
  }

  lemma SilentTick(init: Connection, k: nat)
    requires init.sender.outstanding == [] && init.sender.out == [] && init.sender.window != 0
    ensures var c := Silent(init, k);
            Sending.Tick(c.sender, init.timeout * Pow2(k)) == Silent(init, k + 1).sender
            && c.sinceLast + init.timeout * Pow2(k) == Silent(init, k + 1).sinceLast
  {
    var i: int, p: int := init.timeout, Pow2(k);
    assert Pow2(k + 1) == 2 * p;
    assert i * (2 * p - 1) == i * (p - 1) + i * p;
    assert i * (2 * p) == (i * p) * 2;
  }

  lemma {:induction false} SilentWaits(sendCapacity: nat, receiveCapacity: nat, timeout: nat, isn: u32, k: nat)
    requires receiveCapacity > 0 && k <= 8
    ensures var init := NewConnection(sendCapacity, receiveCapacity, timeout, isn);
            Exec(init, Waits(timeout, k)) == Silent(init, k)
  {
    var init := NewConnection(sendCapacity, receiveCapacity, timeout, isn);
    if k == 0 {
      assert timeout * (Pow2(0) - 1) == 0 && timeout * Pow2(0) == timeout;
    } else {
      SilentWaits(sendCapacity, receiveCapacity, timeout, isn, k - 1);
      SilentStep(init, k - 1);
      var events := Waits(timeout, k);
      assert events[..|events| - 1] == Waits(timeout, k - 1);
    }
  }

  lemma SilentStep(init: Connection, k: nat)
    requires init.sender.outstanding == [] && init.sender.out == [] && init.sender.window != 0 && !init.finAcked
    requires k < 8
    ensures Connecting.Tick(Silent(init, k), init.timeout * Pow2(k)) == Silent(init, k + 1)
  {
    SilentTick(init, k);
    var d := Silent(init, k + 1);
    assert Finish(d) == d && FlushSender(d) == d;
  }

  /**
   * The timer runs from construction, so expiries are counted before anything has been sent: a
   * connection that only listens, and is only ticked, resets after the ninth.
   */
  lemma ListenerGivesUp(sendCapacity: nat, receiveCapacity: nat, timeout: nat, isn: u32)
    requires receiveCapacity > 0
    ensures var c := Exec(NewConnection(sendCapacity, receiveCapacity, timeout, isn), Waits(timeout, 9));
            !c.active && RstSent(c.out) && c.sender.nextSeqno == 0 && c.receiver.isn.None?
  {
    var init := NewConnection(sendCapacity, receiveCapacity, timeout, isn);
    SilentWaits(sendCapacity, receiveCapacity, timeout, isn, 8);
    SilentTick(init, 8);
    var events := Waits(timeout, 9);
    assert events[..|events| - 1] == Waits(timeout, 8);
    var c := Exec(init, events);
    assert |c.out| == 1 && c.out[0].rst;
  }
}
