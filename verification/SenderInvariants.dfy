/** What every operation of the sender keeps, for any acknowledgments. */
module SenderInvariants {
  import opened Words
  import opened WrappingIntegers
  import opened ByteStreams
  import opened Segments
  import opened Sending

  /** The segment numbered `at` carries exactly the stream's bytes from `at - 1` on; number 0 is the SYN. */
  ghost predicate Carries(seg: Segment, isn: u32, stream: Stream) {
    && seg.seqno == Wrap(seg.at, isn) && seg.Length() > 0 && |seg.payload| <= MAX_PAYLOAD_SIZE && !seg.rst
    && (seg.syn <==> seg.at == 0)
    && (seg.syn ==> seg.payload == [] && !seg.fin)
    && (!seg.syn ==> seg.at - 1 + |seg.payload| <= |stream.history|
                     && seg.payload == stream.history[seg.at - 1..seg.at - 1 + |seg.payload|])
    && (seg.fin ==> stream.inputEnded && seg.at - 1 + |seg.payload| == |stream.history|)
  }

  /** A segment outside the sequence space: a bare acknowledgment. */
  predicate Blank(seg: Segment) {
    !seg.syn && !seg.fin && seg.payload == [] && !seg.rst
  }

  /** The writer only appends, and not after the end. */
  ghost predicate Extends(after: Stream, before: Stream) {
    && before.history <= after.history
    && (before.inputEnded ==> after.inputEnded && after.history == before.history)
  }

  ghost predicate AllCarry(segs: seq<Segment>, isn: u32, stream: Stream) {
    forall i :: 0 <= i < |segs| ==> Carries(segs[i], isn, stream)
  }

  /** What has been emitted: bare acknowledgments, and segments with their bytes that end by `end`. */
  ghost predicate Emissions(segs: seq<Segment>, isn: u32, stream: Stream, end: nat) {
    forall i :: 0 <= i < |segs| ==>
      Blank(segs[i]) || (Carries(segs[i], isn, stream) && segs[i].at + segs[i].Length() <= end)
  }

  ghost predicate Linked(segs: seq<Segment>, end: nat, i: nat)
    requires i < |segs|
  {
    segs[i].at + segs[i].Length() == if i + 1 < |segs| then segs[i + 1].at else end
  }

  /** Each segment ends where the next one begins, and the last at `end`. */
  ghost predicate Chained(segs: seq<Segment>, end: nat) {
    forall i: nat :: i < |segs| ==> Linked(segs, end, i)
  }

  /** The first number not yet dropped from the queue. */
  function Oldest(s: Sender): nat {
    if s.outstanding == [] then s.nextSeqno else s.outstanding[0].at
  }

  ghost predicate Queued(s: Sender) {
    && AllCarry(s.outstanding, s.isn, s.stream)
    && Chained(s.outstanding, s.nextSeqno)
    && s.inFlight == s.nextSeqno - Oldest(s)
    && Oldest(s) <= s.previousAck <= s.nextSeqno
    && (s.outstanding != [] ==> s.previousAck < s.outstanding[0].at + s.outstanding[0].Length())
  }

  /** The next number counts the SYN, the bytes read from the stream and the FIN. */
  ghost predicate Accounted(s: Sender) {
    && Settled(s.stream)
    && (s.nextSeqno == 0 ==> s.stream.bytesRead == 0 && !s.finSent)
    && (s.nextSeqno > 0 ==> s.nextSeqno == 1 + s.stream.bytesRead + if s.finSent then 1 else 0)
    && (s.finSent ==> s.stream.eof)
  }

  ghost predicate Inv(s: Sender) {
    Queued(s) && Accounted(s) && Emissions(s.out, s.isn, s.stream, s.nextSeqno)
  }

  // ---------- emitting ----------

  lemma AppendCarry(segs: seq<Segment>, seg: Segment, isn: u32, stream: Stream)
    requires AllCarry(segs, isn, stream) && Carries(seg, isn, stream)
    ensures AllCarry(segs + [seg], isn, stream)
  {
  }

  lemma AppendEmission(segs: seq<Segment>, seg: Segment, isn: u32, stream: Stream, end: nat)
    requires Emissions(segs, isn, stream, end)
    requires Blank(seg) || (Carries(seg, isn, stream) && seg.at + seg.Length() <= end)
    ensures Emissions(segs + [seg], isn, stream, end)
  {
  }

  lemma AppendChain(segs: seq<Segment>, seg: Segment)
    requires Chained(segs, seg.at)
    ensures Chained(segs + [seg], seg.at + seg.Length())
  {
    var all, end := segs + [seg], seg.at + seg.Length();
    forall i: nat | i < |all|
      ensures Linked(all, end, i)
    {
      assert i < |segs| ==> Linked(segs, seg.at, i);
    }
  }

  /** Numbering a segment with the next number keeps the queue a chain. */
  lemma EmitQueued(s: Sender, seg: Segment)
    requires Queued(s) && Emissions(s.out, s.isn, s.stream, s.nextSeqno)
    requires seg.at == s.nextSeqno && Carries(seg, s.isn, s.stream)
    ensures var t := Emit(s, seg); Queued(t) && Emissions(t.out, t.isn, t.stream, t.nextSeqno)
  {
    AppendCarry(s.outstanding, seg, s.isn, s.stream);
    AppendEmission(s.out, seg, s.isn, s.stream, s.nextSeqno + seg.Length());
    AppendChain(s.outstanding, seg);
  }

  /** Reading from the stream changes nothing a segment depends on. */
  lemma QueuedSameHistory(s: Sender, stream: Stream, finSent: bool)
    requires Queued(s) && Emissions(s.out, s.isn, s.stream, s.nextSeqno)
    requires Extends(stream, s.stream)
    ensures var t := s.(stream := stream, finSent := finSent); Queued(t) && Emissions(t.out, t.isn, t.stream, t.nextSeqno)
  {
  }

  lemma SynInv(s: Sender)
    requires Inv(s) && s.nextSeqno == 0
    ensures Inv(FillWindow(s))
  {
    EmitQueued(s, Build(s, true, false, []));
  }

  lemma SendFinInv(s: Sender)
    requires Inv(s) && s.nextSeqno > 0 && s.stream.eof
    ensures Inv(SendFin(s))
  {
    if !s.finSent {
      var t := s.(finSent := true);
      QueuedSameHistory(s, s.stream, true);
      EmitQueued(t, Build(s, false, true, []));
    }
  }

  lemma PieceCarries(s: Sender)
    requires Inv(s) && s.nextSeqno > 0 && !s.stream.eof && NextPiece(s).Length() > 0
    ensures Carries(NextPiece(s), s.isn, s.stream)
  {
  }

  lemma SendPieceInv(s: Sender)
    requires Inv(s) && s.nextSeqno > 0 && !s.stream.eof
    ensures Inv(SendPiece(s)) && SendPiece(s).nextSeqno >= s.nextSeqno
  {
    var seg := NextPiece(s);
    var n := Min(Available(s), MAX_PAYLOAD_SIZE);
    var stream := Pop(s.stream, n);
    var rest := s.(stream := stream, finSent := s.finSent || seg.fin);
    QueuedSameHistory(s, stream, s.finSent || seg.fin);
    PopKeepsSettled(s.stream, n);
    if seg.Length() > 0 {
      PieceCarries(s);
      EmitQueued(rest, seg);
    }
  }

  lemma {:induction false} FillLoopInv(s: Sender)
    requires Inv(s) && s.nextSeqno > 0
    ensures Inv(FillLoop(s))
    decreases |Buffer(s.stream)|, if s.stream.eof then 0 else 1
  {
    if Available(s) != 0 {
      if s.stream.eof {
        SendFinInv(s);
      } else {
        SendPieceInv(s);
        if NextPiece(s).Length() != 0 {
          FillLoopInv(SendPiece(s));
        }
      }
    }
  }

  lemma FillWindowInv(s: Sender)
    requires Inv(s)
    ensures Inv(FillWindow(s))
  {
    if s.nextSeqno == 0 {
      SynInv(s);
    } else if s.nextSeqno != s.inFlight {
      FillLoopInv(s);
    }
  }

  // ---------- acknowledgments ----------

  /** The invariant while the front of the queue is being dropped: the number is known, the front may lag behind it. */
  ghost predicate Dropping(s: Sender) {
    && AllCarry(s.outstanding, s.isn, s.stream)
    && Chained(s.outstanding, s.nextSeqno)
    && s.inFlight == s.nextSeqno - Oldest(s) < TWO31
    && Oldest(s) <= s.previousAck <= s.nextSeqno
  }

  lemma {:induction false} ChainToEnd(segs: seq<Segment>, end: nat, i: nat)
    requires Chained(segs, end) && i < |segs|
    ensures segs[i].at + segs[i].Length() <= end
    decreases |segs| - i
  {
    assert Linked(segs, end, i);
    if i + 1 < |segs| {
      ChainToEnd(segs, end, i + 1);
    }
  }

  /** While less than 2^31 is in flight, the wire number of the front segment unwraps to its absolute number. */
  lemma FrontUnwraps(s: Sender)
    requires Dropping(s) && s.outstanding != []
    ensures Unwrap(s.outstanding[0].seqno, s.isn, s.previousAck) == s.outstanding[0].at
  {
    var seg := s.outstanding[0];
    ChainToEnd(s.outstanding, s.nextSeqno, 0);
    UnwrapInvertsWrap(seg.at, s.isn, s.previousAck);
  }

  lemma ChainTail(segs: seq<Segment>, end: nat)
    requires Chained(segs, end) && segs != []
    ensures Chained(segs[1..], end)
    ensures segs[0].at + segs[0].Length() == if |segs| == 1 then end else segs[1].at
  {
    var rest := segs[1..];
    assert Linked(segs, end, 0);
    forall i: nat | i < |rest|
      ensures Linked(rest, end, i)
    {
      assert Linked(segs, end, i + 1);
    }
  }

  lemma DropFront(s: Sender)
    requires Dropping(s) && s.outstanding != []
    requires s.outstanding[0].at + s.outstanding[0].Length() <= s.previousAck
    ensures Dropping(s.(outstanding := s.outstanding[1..], inFlight := s.inFlight - s.outstanding[0].Length()))
  {
    ChainTail(s.outstanding, s.nextSeqno);
  }

  lemma {:induction false} DropAckedQueued(s: Sender)
    requires Dropping(s)
    ensures Queued(DropAcked(s))
    decreases |s.outstanding|
  {
    if s.outstanding != [] {
      FrontUnwraps(s);
      var seg := s.outstanding[0];
      if seg.at + seg.Length() <= s.previousAck {
        DropFront(s);
        DropAckedQueued(s.(outstanding := s.outstanding[1..], inFlight := s.inFlight - seg.Length()));
      }
    }
  }

  /** What dropping leaves alone. */
  lemma {:induction false} DropAckedFrame(s: Sender)
    ensures var t := DropAcked(s); t == s.(outstanding := t.outstanding, inFlight := t.inFlight)
    decreases |s.outstanding|
  {
    if s.outstanding != [] {
      DropAckedFrame(s.(outstanding := s.outstanding[1..], inFlight := s.inFlight - s.outstanding[0].Length()));
    }
  }

  lemma TakeAckInv(s: Sender, ackno: u32, window: u16)
    requires Inv(s) && s.inFlight < TWO31 && IsNewAck(s, ackno)
    ensures var t := TakeAck(s, ackno, window);
            && Inv(t) && t.previousAck == Unwrap(ackno, s.isn, s.previousAck)
            && t == s.(window := window, previousAck := t.previousAck, timer := t.timer,
                       outstanding := t.outstanding, inFlight := t.inFlight, retransmissions := 0)
  {
    var taken := s.(window := window, previousAck := Unwrap(ackno, s.isn, s.previousAck),
                    timer := s.timer.ResetRto().Stop().Start());
    DropAckedQueued(taken);
    DropAckedFrame(taken);
  }

  /** Any acknowledgment keeps the invariant, and the acknowledged number never goes back. */
  lemma AckReceivedInv(s: Sender, ackno: u32, window: u16)
    requires Inv(s) && s.inFlight < TWO31
    ensures var t := AckReceived(s, ackno, window);
            Inv(t) && t.previousAck >= s.previousAck
  {
    if IsNewAck(s, ackno) {
      TakeAckInv(s, ackno, window);
      FillWindowInv(TakeAck(s, ackno, window));
      FillWindowFrame(TakeAck(s, ackno, window));
    }
  }

  /** What filling the window leaves alone. */
  lemma {:induction false} FillLoopFrame(s: Sender)
    ensures var t := FillLoop(s);
            && t.isn == s.isn && t.previousAck == s.previousAck && t.window == s.window
            && t.retransmissions == s.retransmissions && s.out <= t.out && t.nextSeqno >= s.nextSeqno
            && t.stream.history == s.stream.history && t.stream.inputEnded == s.stream.inputEnded
            && t.stream.capacity == s.stream.capacity && t.stream.error == s.stream.error
            && (s.finSent ==> t.finSent)
    decreases |Buffer(s.stream)|, if s.stream.eof then 0 else 1
  {
    if Available(s) != 0 && !s.stream.eof && NextPiece(s).Length() != 0 {
      FillLoopFrame(SendPiece(s));
    }
  }

  lemma FillWindowFrame(s: Sender)
    ensures var t := FillWindow(s);
            && t.isn == s.isn && t.previousAck == s.previousAck && t.window == s.window
            && t.retransmissions == s.retransmissions && s.out <= t.out && t.nextSeqno >= s.nextSeqno
            && t.stream.history == s.stream.history && t.stream.inputEnded == s.stream.inputEnded
            && t.stream.capacity == s.stream.capacity && t.stream.error == s.stream.error
            && (s.finSent ==> t.finSent)
  {
    FillLoopFrame(s);
  }

  // ---------- the rest ----------

  lemma NewSenderInv(capacity: nat, timeout: nat, isn: u32)
    ensures Inv(NewSender(capacity, timeout, isn))
  {
  }

  lemma TickInv(s: Sender, ms: nat)
    requires Inv(s)
    ensures Inv(Tick(s, ms)) && Tick(s, ms).previousAck == s.previousAck
  {
    if s.timer.Expires(ms) && s.outstanding != [] {
      ChainToEnd(s.outstanding, s.nextSeqno, 0);
      AppendEmission(s.out, s.outstanding[0], s.isn, s.stream, s.nextSeqno);
    }
  }

  lemma SendEmptyInv(s: Sender)
    requires Inv(s)
    ensures Inv(SendEmpty(s))
  {
  }

  /** The application writes before it ends its input, never after. */
  lemma WriteInv(s: Sender, data: seq<byte>)
    requires Inv(s) && !s.stream.inputEnded
    ensures Inv(s.(stream := Write(s.stream, data)))
  {
  }

  lemma EndInputInv(s: Sender)
    requires Inv(s)
    ensures Inv(s.(stream := EndInput(s.stream)))
  {
  }

  lemma FlushInv(s: Sender)
    requires Inv(s)
    ensures Inv(s.(out := []))
  {
  }

  /** The lengths in the queue add up to the count of bytes in flight. */
  function TotalLength(segs: seq<Segment>): nat {
    if segs == [] then 0 else segs[0].Length() + TotalLength(segs[1..])
  }

  lemma {:induction false} ChainLength(segs: seq<Segment>, end: nat)
    requires Chained(segs, end) && segs != []
    ensures TotalLength(segs) == end - segs[0].at
    decreases |segs|
  {
    ChainTail(segs, end);
    if |segs| > 1 {
      ChainLength(segs[1..], end);
    }
  }

  lemma InFlightIsTotal(s: Sender)
    requires Inv(s)
    ensures s.inFlight == TotalLength(s.outstanding)
  {
    if s.outstanding != [] {
      ChainLength(s.outstanding, s.nextSeqno);
    }
  }
}
