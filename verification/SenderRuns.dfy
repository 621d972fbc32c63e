/** Whole runs of the sender: numbering, window, timer, backoff and the state summary. */
module SenderRuns {
  import opened Words
  import opened WrappingIntegers
  import opened ByteStreams
  import opened Segments
  import opened Sending
  import opened SenderInvariants

  // ---------- window ----------

  /** Payload stays below the acknowledged number plus the window; a FIN may pass it by one. */
  predicate WindowOk(s: Sender) {
    s.nextSeqno - (if s.finSent then 1 else 0) <= s.previousAck + Effective(s)
  }

  /**
   * The edge of the window at the sender does not go back. A new acknowledgment moves the
   * acknowledged number; any other leaves it and still has its window stored.
   */
  predicate EdgeHolds(s: Sender, ackno: u32, window: u16) {
    var a := if IsNewAck(s, ackno) then Unwrap(ackno, s.isn, s.previousAck) else s.previousAck;
    a + window >= s.previousAck + s.window
  }

  /** So it is with every acknowledgment of something sent, late or not, whose own right edge does not go back. */
  lemma RightEdgeHolds(s: Sender, ackno: u32, window: u16)
    requires Unwrap(ackno, s.isn, s.previousAck) <= s.nextSeqno
    requires Unwrap(ackno, s.isn, s.previousAck) + window >= s.previousAck + s.window
    ensures EdgeHolds(s, ackno, window)
  {
  }

  lemma {:induction false} FillLoopWindow(s: Sender)
    requires Inv(s) && s.nextSeqno > 0 && WindowOk(s)
    ensures WindowOk(FillLoop(s))
    decreases |Buffer(s.stream)|, if s.stream.eof then 0 else 1
  {
    if Available(s) != 0 && !s.stream.eof {
      SendPieceInv(s);
      assert WindowOk(SendPiece(s));
      if NextPiece(s).Length() != 0 {
        FillLoopWindow(SendPiece(s));
      }
    }
  }

  lemma FillWindowWindow(s: Sender)
    requires Inv(s) && WindowOk(s)
    ensures WindowOk(FillWindow(s))
  {
    if s.nextSeqno > 0 {
      FillLoopWindow(s);
    }
  }

  lemma AckReceivedWindow(s: Sender, ackno: u32, window: u16)
    requires Inv(s) && WindowOk(s) && s.inFlight < TWO31 && EdgeHolds(s, ackno, window)
    ensures WindowOk(AckReceived(s, ackno, window))
  {
    if IsNewAck(s, ackno) {
      TakeAckInv(s, ackno, window);
      FillWindowWindow(TakeAck(s, ackno, window));
    }
  }

  /** Filling sends payload that ends beyond the acknowledged number plus the window. */
  predicate Overruns(s: Sender, t: Sender) {
    t.stream.bytesRead > s.stream.bytesRead && 1 + t.stream.bytesRead > s.previousAck + Effective(s)
  }

  /**
   * For any acknowledgments: a fill sends payload past the edge exactly when the SYN is acknowledged,
   * more was already in flight than the window holds, for then the free part wraps around, and there
   * is something to send.
   */
  lemma FillOverrunsIff(s: Sender)
    requires Inv(s) && s.inFlight < TWO31
    ensures Overruns(s, FillWindow(s))
       <==> s.previousAck > 0 && s.nextSeqno > s.previousAck + Effective(s) && Buffer(s.stream) != []
  {
    if s.nextSeqno > 0 && s.nextSeqno != s.inFlight {
      LoopOverrunsIff(s);
    }
  }

  lemma LoopOverrunsIff(s: Sender)
    requires Inv(s) && s.nextSeqno > 0 && s.inFlight < TWO31
    ensures Overruns(s, FillLoop(s)) <==> s.nextSeqno > s.previousAck + Effective(s) && Buffer(s.stream) != []
  {
    FillLoopFrame(s);
    FillLoopInv(s);
    if WindowOk(s) {
      FillLoopWindow(s);
    } else if Buffer(s.stream) != [] {
      WrappedWindowReads(s);
    }
  }

  lemma WrappedWindowReads(s: Sender)
    requires Inv(s) && s.nextSeqno > 0 && !s.finSent && s.inFlight < TWO31
    requires s.nextSeqno > s.previousAck + Effective(s) && Buffer(s.stream) != []
    ensures FillLoop(s).stream.bytesRead > s.stream.bytesRead
  {
    NegativeWraps(Effective(s) - (s.nextSeqno - s.previousAck));
    assert |NextPiece(s).payload| == Min(MAX_PAYLOAD_SIZE, |Buffer(s.stream)|);
    FillLoopReads(SendPiece(s));
  }

  lemma NegativeWraps(x: int)
    requires -TWO31 < x < 0
    ensures x % TWO64 == TWO64 + x
  {
  }

  lemma {:induction false} FillLoopReads(s: Sender)
    ensures FillLoop(s).stream.bytesRead >= s.stream.bytesRead
    decreases |Buffer(s.stream)|, if s.stream.eof then 0 else 1
  {
    if Available(s) != 0 && !s.stream.eof && NextPiece(s).Length() != 0 {
      FillLoopReads(SendPiece(s));
    }
  }

  // ---------- timer ----------

  /** Section 5 of RFC 6298: the timeout is the initial one doubled per retransmission, and the timer runs while data is unacknowledged. */
  ghost predicate TimerInv(s: Sender) {
    && s.timer.rto == s.timer.initialRto * Pow2(s.retransmissions)
    && (s.nextSeqno == 0 ==> s.timer.running)
    && (s.nextSeqno > 0 ==> (s.timer.running <==> s.outstanding != []))
  }

  lemma {:induction false} FillLoopTimer(s: Sender)
    ensures var t := FillLoop(s);
            && t.timer.rto == s.timer.rto && t.timer.initialRto == s.timer.initialRto
            && t.timer.elapsed <= s.timer.elapsed && (s.timer.running ==> t.timer == s.timer)
            && ((s.timer.running <==> s.outstanding != []) ==> (t.timer.running <==> t.outstanding != []))
    decreases |Buffer(s.stream)|, if s.stream.eof then 0 else 1
  {
    if Available(s) != 0 && !s.stream.eof && NextPiece(s).Length() != 0 {
      FillLoopTimer(SendPiece(s));
    }
  }

  /** Sending starts the timer if it stands, and does not disturb it if it runs. */
  lemma FillWindowTimer(s: Sender)
    requires TimerInv(s)
    ensures var t := FillWindow(s);
            && TimerInv(t) && t.timer.elapsed <= s.timer.elapsed && t.timer.initialRto == s.timer.initialRto
            && (s.timer.running ==> t.timer == s.timer)
  {
    FillWindowFrame(s);
    FillLoopTimer(s);
  }

  lemma AckReceivedTimer(s: Sender, ackno: u32, window: u16)
    requires Inv(s) && s.inFlight < TWO31 && TimerInv(s)
    ensures var t := AckReceived(s, ackno, window);
            && TimerInv(t) && t.timer.initialRto == s.timer.initialRto
            && (IsNewAck(s, ackno) ==> t.retransmissions == 0 && t.timer.elapsed == 0)
            && (!IsNewAck(s, ackno) ==> t.retransmissions == s.retransmissions && t.timer == s.timer)
  {
    if IsNewAck(s, ackno) {
      TakeAckTimer(s, ackno, window);
      RefillTimer(TakeAck(s, ackno, window));
    }
  }

  lemma RefillTimer(s: Sender)
    requires s.nextSeqno > 0 && s.timer.rto == s.timer.initialRto && s.retransmissions == 0
    ensures var t := RestartTimer(FillWindow(s));
            && TimerInv(t) && t.timer.initialRto == s.timer.initialRto
            && t.retransmissions == 0 && t.timer.elapsed == 0
  {
    FillWindowFrame(s);
    FillLoopTimer(s);
  }

  lemma TakeAckTimer(s: Sender, ackno: u32, window: u16)
    requires Inv(s) && s.inFlight < TWO31 && IsNewAck(s, ackno)
    ensures var t := TakeAck(s, ackno, window);
            && Inv(t) && t.nextSeqno == s.nextSeqno && t.retransmissions == 0
            && t.timer == s.timer.ResetRto().Stop().Start()
  {
    TakeAckInv(s, ackno, window);
    DropAckedFrame(s.(window := window, previousAck := Unwrap(ackno, s.isn, s.previousAck),
                      timer := s.timer.ResetRto().Stop().Start()));
  }

  lemma TickTimer(s: Sender, ms: nat)
    requires TimerInv(s)
    ensures TimerInv(Tick(s, ms)) && Tick(s, ms).timer.initialRto == s.timer.initialRto
  {
  }

  /**
   * A tick resends exactly when the timer expires and the SYN has been sent, and then the segment that contains the
   * oldest unacknowledged number. An expiry counts exactly when the window is open, and starts the time anew.
   */
  lemma ExpiryResends(s: Sender, ms: nat)
    requires Inv(s) && TimerInv(s)
    ensures var t := Tick(s, ms);
            && (t.out != s.out <==> s.timer.Expires(ms) && s.nextSeqno > 0)
            && (t.out != s.out ==>
                  && |t.out| == |s.out| + 1 && t.out[..|s.out|] == s.out
                  && var seg := t.out[|s.out|]; seg.at <= s.previousAck < seg.at + seg.Length())
            && t.retransmissions == s.retransmissions + (if s.timer.Expires(ms) && s.window != 0 then 1 else 0)
            && (s.timer.Expires(ms) ==> t.timer.elapsed == 0 && t.timer.running)
  {
    if s.timer.Expires(ms) && s.outstanding != [] {
      ChainToEnd(s.outstanding, s.nextSeqno, 0);
      assert |Tick(s, ms).out| == |s.out| + 1;
    }
  }

  /** Time that passes in two parts is time passed, up to an expiry. */
  lemma TicksAdd(s: Sender, a: nat, b: nat)
    requires !s.timer.Expires(a)
    ensures Tick(Tick(s, a), b) == Tick(s, a + b)
  {
  }

  // ---------- summary ----------

  datatype SenderSummary = SenderError | Closed | SynSent | SynAcked | FinSent | FinAcked

  function Summary(s: Sender): SenderSummary {
    if s.stream.error then SenderError
    else if s.nextSeqno == 0 then Closed
    else if s.nextSeqno == s.inFlight then SynSent
    else if !s.stream.eof then SynAcked
    else if s.nextSeqno < |s.stream.history| + 2 then SynAcked
    else if s.inFlight != 0 then FinSent
    else FinAcked
  }

  /** The summary says what has really been sent and acknowledged. */
  lemma SummaryExact(s: Sender)
    requires Inv(s) && !s.stream.error
    ensures Summary(s) == Closed <==> s.nextSeqno == 0
    ensures Summary(s) == SynSent <==> s.nextSeqno > 0 && s.previousAck == 0
    ensures Summary(s) == SynAcked <==> s.previousAck > 0 && !s.finSent
    ensures Summary(s) == FinSent <==> s.previousAck > 0 && s.finSent && s.previousAck < s.nextSeqno
    ensures Summary(s) == FinAcked <==> s.finSent && s.previousAck == s.nextSeqno
  {
  }

  // ---------- runs ----------

  /** Nothing in the sender reads its output queue, so a run leaves it undrained as the log of all segments emitted. */
  datatype Event =
    | Written(data: seq<byte>)
    | Ended
    | Filled
    | Acked(ackno: u32, window: u16)
    | Ticked(ms: nat)
    | Emptied

  function After(s: Sender, e: Event): Sender {
    match e
    case Written(data) => s.(stream := Write(s.stream, data))
    case Ended => s.(stream := EndInput(s.stream))
    case Filled => FillWindow(s)
    case Acked(ackno, window) => AckReceived(s, ackno, window)
    case Ticked(ms) => Tick(s, ms)
    case Emptied => SendEmpty(s)
  }

  function Exec(init: Sender, events: seq<Event>): Sender
    decreases |events|
  {
    if events == [] then init
    else After(Exec(init, events[..|events| - 1]), events[|events| - 1])
  }

  /** The writer does not write after its end, and less than 2^31 is in flight when an acknowledgment comes. */
  ghost predicate Allowed(s: Sender, e: Event) {
    && (e.Written? ==> !s.stream.inputEnded)
    && (e.Acked? ==> s.inFlight < TWO31)
  }

  ghost predicate Legal(init: Sender, events: seq<Event>)
    decreases |events|
  {
    events == [] ||
    (Legal(init, events[..|events| - 1]) && Allowed(Exec(init, events[..|events| - 1]), events[|events| - 1]))
  }

  /** Milliseconds ticked since the count of retransmissions was last set to zero. */
  function SinceZeroed(init: Sender, events: seq<Event>): nat
    decreases |events|
  {
    if events == [] then 0
    else
      var before, e := events[..|events| - 1], events[|events| - 1];
      match e
      case Ticked(ms) => SinceZeroed(init, before) + ms
      case Acked(ackno, window) => if IsNewAck(Exec(init, before), ackno) then 0 else SinceZeroed(init, before)
      case _ => SinceZeroed(init, before)
  }

  /** Waiting through k doubled timeouts takes the initial timeout times 2^k - 1. */
  ghost predicate Waited(s: Sender, since: nat) {
    since >= s.timer.initialRto * (Pow2(s.retransmissions) - 1) + s.timer.elapsed
  }

  lemma AfterKeeps(s: Sender, e: Event)
    requires Inv(s) && TimerInv(s) && Allowed(s, e)
    ensures var t := After(s, e);
            Inv(t) && TimerInv(t) && t.previousAck >= s.previousAck && t.timer.initialRto == s.timer.initialRto
  {
    match e
    case Written(data) => WriteInv(s, data);
    case Ended => EndInputInv(s);
    case Filled =>
      FillWindowInv(s);
      FillWindowTimer(s);
      FillWindowFrame(s);
    case Acked(ackno, window) =>
      AckReceivedInv(s, ackno, window);
      AckReceivedTimer(s, ackno, window);
    case Ticked(ms) =>
      TickInv(s, ms);
      TickTimer(s, ms);
    case Emptied => SendEmptyInv(s);
  }

  lemma TickWaits(s: Sender, since: nat, ms: nat)
    requires TimerInv(s) && Waited(s, since)
    ensures Waited(Tick(s, ms), since + ms)
  {
    OneMoreDoubling(s.timer.initialRto, s.retransmissions);
  }

  lemma OneMoreDoubling(i: nat, k: nat)
    ensures i * (Pow2(k + 1) - 1) == i * (Pow2(k) - 1) + i * Pow2(k)
  {
    var p: int := Pow2(k);
    assert i * (2 * p - 1) == i * (p - 1) + i * p;
  }

  lemma AfterWaits(s: Sender, e: Event, since: nat)
    requires Inv(s) && TimerInv(s) && Allowed(s, e) && Waited(s, since)
    ensures var later := match e
                         case Ticked(ms) => since + ms
                         case Acked(ackno, window) => if IsNewAck(s, ackno) then 0 else since
                         case _ => since;
            Waited(After(s, e), later)
  {
    match e
    case Ticked(ms) => TickWaits(s, since, ms);
    case Acked(ackno, window) => AckWaits(s, ackno, window, since);
    case Filled => FillWaits(s, since);
    case _ =>
  }

  lemma FillWaits(s: Sender, since: nat)
    requires Inv(s) && TimerInv(s) && Waited(s, since)
    ensures Waited(FillWindow(s), since)
  {
    FillWindowTimer(s);
    FillWindowFrame(s);
  }

  lemma AckWaits(s: Sender, ackno: u32, window: u16, since: nat)
    requires Inv(s) && TimerInv(s) && s.inFlight < TWO31 && Waited(s, since)
    ensures Waited(AckReceived(s, ackno, window), if IsNewAck(s, ackno) then 0 else since)
  {
    AckReceivedTimer(s, ackno, window);
  }

  /** In every run: the queue is a gap-free chain, every emitted segment carries its own bytes, the timer follows its rules. */
  lemma {:induction false} RunInv(capacity: nat, timeout: nat, isn: u32, events: seq<Event>)
    requires Legal(NewSender(capacity, timeout, isn), events)
    ensures var init := NewSender(capacity, timeout, isn);
            var s := Exec(init, events);
            && Inv(s) && TimerInv(s) && s.timer.initialRto == timeout
            && Waited(s, SinceZeroed(init, events))
    decreases |events|
  {
    var init := NewSender(capacity, timeout, isn);
    if events == [] {
      assert timeout * (Pow2(0) - 1) == 0;
    } else {
      var before, e := events[..|events| - 1], events[|events| - 1];
      RunInv(capacity, timeout, isn, before);
      AfterKeeps(Exec(init, before), e);
      AfterWaits(Exec(init, before), e, SinceZeroed(init, before));
    }
  }

  /** Going over the retry limit takes at least 511 initial timeouts without a new acknowledgment. */
  lemma RetryLimitNeedsTime(capacity: nat, timeout: nat, isn: u32, events: seq<Event>)
    requires Legal(NewSender(capacity, timeout, isn), events)
    requires Exec(NewSender(capacity, timeout, isn), events).retransmissions > MAX_RETX_ATTEMPTS
    ensures SinceZeroed(NewSender(capacity, timeout, isn), events) >= 511 * timeout
  {
    RunInv(capacity, timeout, isn, events);
    LimitWaited(Exec(NewSender(capacity, timeout, isn), events), SinceZeroed(NewSender(capacity, timeout, isn), events));
  }

  lemma LimitWaited(s: Sender, since: nat)
    requires Waited(s, since) && s.retransmissions > MAX_RETX_ATTEMPTS
    ensures since >= 511 * s.timer.initialRto
  {
    PowerAtLeast(s.retransmissions);
    Scale(s.timer.initialRto, 511, Pow2(s.retransmissions) - 1);
  }

  lemma Scale(x: nat, a: int, b: int)
    requires a <= b
    ensures x * a <= x * b
  {
  }

  lemma {:induction false} PowerAtLeast(k: nat)
    requires k >= 9
    ensures Pow2(k) >= 512
  {
    if k > 9 {
      PowerAtLeast(k - 1);
    } else {
      assert Pow2(9) == 2 * Pow2(8) && Pow2(8) == 2 * Pow2(7) && Pow2(7) == 2 * Pow2(6) && Pow2(6) == 2 * Pow2(5);
      assert Pow2(5) == 2 * Pow2(4) && Pow2(4) == 2 * Pow2(3) && Pow2(3) == 8;
    }
  }

  /** Every acknowledgment in the run keeps the right edge. */
  ghost predicate EdgesHold(init: Sender, events: seq<Event>)
    decreases |events|
  {
    events == [] ||
    var before, e := events[..|events| - 1], events[|events| - 1];
    EdgesHold(init, before) && (e.Acked? ==> EdgeHolds(Exec(init, before), e.ackno, e.window))
  }

  lemma {:induction false} RunWindow(capacity: nat, timeout: nat, isn: u32, events: seq<Event>)
    requires var init := NewSender(capacity, timeout, isn); Legal(init, events) && EdgesHold(init, events)
    ensures WindowOk(Exec(NewSender(capacity, timeout, isn), events))
    decreases |events|
  {
    if events != [] {
      var init := NewSender(capacity, timeout, isn);
      var before, e := events[..|events| - 1], events[|events| - 1];
      RunWindow(capacity, timeout, isn, before);
      RunInv(capacity, timeout, isn, before);
      var s := Exec(init, before);
      match e
      case Filled => FillWindowWindow(s);
      case Acked(ackno, window) => AckReceivedWindow(s, ackno, window);
      case _ =>
    }
  }
}
