/** What a connection puts out for a segment: acknowledgments for everything that needs one, and for nothing else. */
module Answering {
  import opened Words
  import opened WrappingIntegers
  import opened ByteStreams
  import opened Segments
  import opened Sending
  import opened SenderInvariants
  import opened Receiving
  import opened Connecting

  /** The segment says what the receiver has and has room for. */
  predicate Reports(r: Receiver, seg: Segment) {
    && (seg.ack <==> r.isn.Some?) && (seg.ack ==> seg.ackno == Wrap(AckNumber(r), r.isn.value))
    && seg.win == Min(Room(Output(r)), 0xffff)
  }

  /** Everything new in `after` is of the receiver's present state. */
  ghost predicate NewReport(r: Receiver, before: seq<Segment>, after: seq<Segment>) {
    before <= after && forall i :: |before| <= i < |after| ==> Reports(r, after[i])
  }

  /** The same segment but for what the receiver has to say. */
  predicate SameContent(a: Segment, b: Segment) {
    a.seqno == b.seqno && a.syn == b.syn && a.fin == b.fin && a.payload == b.payload && a.rst == b.rst && a.at == b.at
  }

  ghost predicate NewContent(before: seq<Segment>, after: seq<Segment>, sent: seq<Segment>) {
    && |after| == |before| + |sent|
    && (forall i :: 0 <= i < |sent| ==> SameContent(after[|before| + i], sent[i]))
  }

  /** Fresh senders put nothing in the fields of the receiver. */
  ghost predicate Unstamped(segs: seq<Segment>) {
    forall i :: 0 <= i < |segs| ==> !segs[i].ack
  }

  lemma FlushReports(c: Connection)
    requires Unstamped(c.sender.out)
    ensures var d := FlushSender(c);
            d.receiver == c.receiver && NewReport(c.receiver, c.out, d.out) && NewContent(c.out, d.out, c.sender.out)
  {
    FlushMeans(c);
  }

  // ---------- queues are unstamped ----------

  lemma {:induction false} FillLoopUnstamped(s: Sender)
    requires Unstamped(s.out)
    ensures Unstamped(FillLoop(s).out)
    decreases |Buffer(s.stream)|, if s.stream.eof then 0 else 1
  {
    if Available(s) != 0 && !s.stream.eof && NextPiece(s).Length() != 0 {
      FillLoopUnstamped(SendPiece(s));
    }
  }

  lemma ListenUnstamped(c: Connection, seg: Segment)
    requires Output(c.receiver).capacity > 0 && c.sender.out == []
    ensures Unstamped(Listen(c, seg).sender.out)
  {
    var s := c.sender;
    if seg.ack && IsNewAck(s, seg.ackno) {
      DropAckedFrame(s.(window := seg.win, previousAck := Unwrap(seg.ackno, s.isn, s.previousAck),
                      timer := s.timer.ResetRto().Stop().Start()));
      FillLoopUnstamped(TakeAck(s, seg.ackno, seg.win));
    }
    FillLoopUnstamped(if seg.ack then AckReceived(s, seg.ackno, seg.win) else s);
  }

  // ---------- answers ----------

  /** What the sender has to send after it has heard the segment. */
  function News(c: Connection, seg: Segment): seq<Segment>
    requires Output(c.receiver).capacity > 0
  {
    Listen(c, seg).sender.out
  }

  /** A segment outside the sequence space whose number is the last one acknowledged: the peer asks if we are there. */
  predicate Probes(r: Receiver, seg: Segment) {
    seg.Length() == 0 && r.isn.Some? && seg.seqno == Wrap(AckNumber(r) - 1, r.isn.value)
  }

  lemma ProbesIsKeepAlive(r: Receiver, seg: Segment)
    ensures Probes(r, seg) <==> KeepAlive(r, seg)
  {
    if r.isn.Some? {
      WrapBefore(AckNumber(r), r.isn.value);
    }
  }

  lemma WrapBefore(n: nat, isn: u32)
    requires n > 0
    ensures Wrap(n - 1, isn) == (Wrap(n, isn) - 1) % TWO32
  {
    WrapIsSum(n, isn);
    WrapIsSum(n - 1, isn);
    WrapStep(isn + (n - 1));
  }

  lemma WrapIsSum(n: nat, isn: u32)
    ensures Wrap(n, isn) == (isn + n) % TWO32
  {
    var x := isn + n % TWO32;
    assert isn + n == x + TWO32 * (n / TWO32);
    DropMultiple(x, n / TWO32);
  }

  lemma DropMultiple(x: nat, k: nat)
    ensures (x + TWO32 * k) % TWO32 == x % TWO32
  {
  }

  lemma WrapStep(x: nat)
    ensures ((x + 1) % TWO32 - 1) % TWO32 == x % TWO32
  {
  }

  /** A bare segment goes out for a probe, and for whatever takes sequence space if there is nothing else to carry the acknowledgment. */
  predicate NeedsBare(r: Receiver, news: seq<Segment>, seg: Segment) {
    Probes(r, seg) || (seg.Length() > 0 && news == [])
  }

  function Queue(s: Sender, r: Receiver, seg: Segment): seq<Segment> {
    s.out + if NeedsBare(r, s.out, seg) then [Build(s, false, false, [])] else []
  }

  lemma AnsweredQueue(s: Sender, r: Receiver, seg: Segment)
    ensures Answered(s, r, seg).out == Queue(s, r, seg)
  {
    ProbesIsKeepAlive(r, seg);
  }

  /**
   * `d` has put out the news, then one bare segment at the sender's next number if it is needed, each
   * with the acknowledgment and the window as they are now.
   */
  ghost predicate Brought(before: seq<Segment>, d: Connection, news: seq<Segment>, seg: Segment) {
    && NewReport(d.receiver, before, d.out)
    && |d.out| == |before| + |news| + (if NeedsBare(d.receiver, news, seg) then 1 else 0)
    && (forall i :: 0 <= i < |news| ==> SameContent(d.out[|before| + i], news[i]))
    && (NeedsBare(d.receiver, news, seg) ==>
          var bare := d.out[|d.out| - 1]; Blank(bare) && bare.seqno == Wrap(d.sender.nextSeqno, d.sender.isn))
  }

  lemma AnswersFlushed(c: Connection, seg: Segment)
    requires Unstamped(c.sender.out)
    ensures Brought(c.out, FlushSender(Reply(c, seg)), c.sender.out, seg)
  {
    AnsweredQueue(c.sender, c.receiver, seg);
    FlushReports(Reply(c, seg));
    FlushMeans(Reply(c, seg));
    AnsweredFrame(c.sender, c.receiver, seg);
    QueueBrings(c.out, FlushSender(Reply(c, seg)), c.sender, seg);
  }

  lemma QueueBrings(before: seq<Segment>, d: Connection, s: Sender, seg: Segment)
    requires NewReport(d.receiver, before, d.out) && NewContent(before, d.out, Queue(s, d.receiver, seg))
    requires d.sender.nextSeqno == s.nextSeqno && d.sender.isn == s.isn
    ensures Brought(before, d, s.out, seg)
  {
    forall i | 0 <= i < |s.out|
      ensures SameContent(d.out[|before| + i], s.out[i])
    {
      assert Queue(s, d.receiver, seg)[i] == s.out[i];
    }
    if NeedsBare(d.receiver, s.out, seg) {
      assert Queue(s, d.receiver, seg)[|s.out|] == Build(s, false, false, []);
    }
  }

  lemma AnsweredFrame(s: Sender, r: Receiver, seg: Segment)
    ensures Answered(s, r, seg) == s.(out := Answered(s, r, seg).out)
  {
  }

  /** Exactly what a segment brings out. */
  lemma Answers(c: Connection, seg: Segment)
    requires Output(c.receiver).capacity > 0 && c.active && !seg.rst && c.sender.out == []
    ensures Brought(c.out, Connecting.SegmentReceived(c, seg), News(c.(sinceLast := 0), seg), seg)
  {
    var heard := Listen(c.(sinceLast := 0), seg);
    var noted := NoteClosing(heard, seg);
    ListenUnstamped(c.(sinceLast := 0), seg);
    NotedSame(heard, seg);
    AnswersFlushed(noted, seg);
  }

  lemma NotedSame(c: Connection, seg: Segment)
    ensures var d := NoteClosing(c, seg); d.sender == c.sender && d.receiver == c.receiver && d.out == c.out
  {
  }

  /** So whatever takes sequence space is answered, and once the peer's number is known the answer acknowledges. */
  lemma DataIsAnswered(c: Connection, seg: Segment)
    requires Output(c.receiver).capacity > 0 && c.active && !seg.rst && c.sender.out == [] && seg.Length() > 0
    ensures var d := Connecting.SegmentReceived(c, seg);
            && |d.out| > |c.out| && NewReport(d.receiver, c.out, d.out)
            && (d.receiver.isn.Some? ==>
                  forall i :: |c.out| <= i < |d.out| ==>
                    d.out[i].ack && d.out[i].ackno == Wrap(AckNumber(d.receiver), d.receiver.isn.value))
  {
    Answers(c, seg);
  }

  /** And a bare acknowledgment in its place is not: two connections do not answer each other for ever. */
  lemma AcksAreNotAnswered(c: Connection, seg: Segment)
    requires Output(c.receiver).capacity > 0 && c.active && !seg.rst && c.sender.out == []
    requires var r := Receiving.SegmentReceived(c.receiver, seg);
             seg.Length() == 0 && r.isn.Some? && seg.seqno == Wrap(AckNumber(r), r.isn.value)
    ensures |Connecting.SegmentReceived(c, seg).out| == |c.out| + |News(c.(sinceLast := 0), seg)|
  {
    Answers(c, seg);
    ReceivedReceiver(c, seg);
    NeighboursDiffer(AckNumber(Receiving.SegmentReceived(c.receiver, seg)),
                     Receiving.SegmentReceived(c.receiver, seg).isn.value);
  }

  lemma ReceivedReceiver(c: Connection, seg: Segment)
    requires Output(c.receiver).capacity > 0 && c.active && !seg.rst
    ensures Connecting.SegmentReceived(c, seg).receiver == Receiving.SegmentReceived(c.receiver, seg)
  {
    FlushMeans(Reply(NoteClosing(Listen(c.(sinceLast := 0), seg), seg), seg));
  }

  lemma NeighboursDiffer(n: nat, isn: u32)
    requires n > 0
    ensures Wrap(n, isn) != Wrap(n - 1, isn)
  {
  }
}
