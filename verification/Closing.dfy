/** Exactly when a connection closes, over every run. */
module Closing {
  import opened Words
  import opened WrappingIntegers
  import opened ByteStreams
  import opened Segments
  import opened Sending
  import opened SenderInvariants
  import opened Receiving
  import opened Connecting
  import opened ConnectionRuns
  import Answering

  // ---------- the FIN ----------

  predicate HasFin(segs: seq<Segment>) {
    exists i :: 0 <= i < |segs| && segs[i].fin
  }

  lemma HasFinGrows(before: seq<Segment>, after: seq<Segment>)
    requires HasFin(before) && before <= after
    ensures HasFin(after)
  {
    var i :| 0 <= i < |before| && before[i].fin;
    assert after[i].fin;
  }

  lemma HasFinLast(segs: seq<Segment>, seg: Segment)
    requires seg.fin
    ensures HasFin(segs + [seg])
  {
    assert (segs + [seg])[|segs|].fin;
  }

  lemma {:induction false} FillLoopFin(s: Sender)
    requires !s.finSent && FillLoop(s).finSent
    ensures HasFin(FillLoop(s).out)
    decreases |Buffer(s.stream)|, if s.stream.eof then 0 else 1
  {
    if s.stream.eof {
      HasFinLast(s.out, Build(s, false, true, []));
    } else if NextPiece(s).fin {
      HasFinLast(s.out, NextPiece(s));
      FillLoopFrame(SendPiece(s));
      HasFinGrows(SendPiece(s).out, FillLoop(s).out);
    } else {
      FillLoopFin(SendPiece(s));
    }
  }

  /** The sender counts its FIN as sent exactly when it queues it, and it is then not yet acknowledged. */
  lemma FillFin(s: Sender)
    requires Inv(s) && !s.finSent
    ensures var t := FillWindow(s);
            && (HasFin(t.out) ==> t.finSent)
            && (t.finSent ==> HasFin(t.out) && t.previousAck < t.nextSeqno)
  {
    var t := FillWindow(s);
    FillWindowInv(s);
    FillWindowFrame(s);
    FinMeansSent(t);
    if t.finSent {
      FillLoopFin(s);
    }
  }

  lemma FinMeansSent(s: Sender)
    requires Inv(s)
    ensures HasFin(s.out) ==> s.finSent
  {
    if HasFin(s.out) {
      var i :| 0 <= i < |s.out| && s.out[i].fin;
      assert Carries(s.out[i], s.isn, s.stream) && s.out[i].at + s.out[i].Length() <= s.nextSeqno;
    }
  }

  lemma {:induction false} FlushFin(c: Connection)
    ensures FlushSender(c).finSent <==> c.finSent || HasFin(c.sender.out)
    decreases |c.sender.out|
  {
    if c.sender.out != [] {
      FlushFin(FlushOne(c));
      HasFinFirst(c.sender.out);
    }
  }

  lemma HasFinFirst(segs: seq<Segment>)
    requires segs != []
    ensures HasFin(segs) <==> segs[0].fin || HasFin(segs[1..])
  {
    if HasFin(segs) && !segs[0].fin {
      var i :| 0 <= i < |segs| && segs[i].fin;
      assert segs[1..][i - 1].fin;
    } else if HasFin(segs[1..]) {
      var i :| 0 <= i < |segs| - 1 && segs[1..][i].fin;
      assert segs[i + 1].fin;
    }
  }

  // ---------- the flags ----------

  /** The connection's flags are exactly what has happened to the sender's FIN. */
  predicate Exact(c: Connection) {
    && c.sender.out == [] && (c.finSent <==> c.sender.finSent)
    && (c.finAcked <==> c.sender.finSent && c.sender.previousAck == c.sender.nextSeqno)
    && (c.active && c.finAcked ==> c.linger)
  }

  lemma FilledExact(c: Connection, s: Sender)
    requires Exact(c) && Inv(s) && s.out == [] && s.finSent == c.sender.finSent
    requires s.previousAck == c.sender.previousAck && s.nextSeqno == c.sender.nextSeqno
    ensures var d := FlushSender(c.(sender := FillWindow(s))); Exact(d) && d.linger == c.linger && d.receiver == c.receiver
  {
    var m := c.(sender := FillWindow(s));
    FlushMeans(m);
    FlushFin(m);
    if s.finSent {
      FillAfterFin(s);
    } else {
      FillFin(s);
    }
  }

  /** From `s` to `h` an acknowledgment for our FIN has been taken, or the FIN has been queued, or neither. */
  ghost predicate FinFollows(s: Sender, h: Sender, ackno: u32) {
    if s.finSent then
      && h.finSent && h.nextSeqno == s.nextSeqno && h.isn == s.isn
      && (h.previousAck == h.nextSeqno <==> s.previousAck == s.nextSeqno || ackno == Wrap(h.nextSeqno, h.isn))
    else
      (h.finSent <==> HasFin(h.out)) && (h.finSent ==> h.previousAck < h.nextSeqno)
  }

  lemma FillFollows(s: Sender, acked: Sender, ackno: u32)
    requires Inv(acked) && FinFollows(s, acked, ackno)
    ensures Inv(FillWindow(acked)) && FinFollows(s, FillWindow(acked), ackno)
  {
    FillWindowInv(acked);
    if acked.finSent {
      FillAfterFin(acked);
    } else {
      FillFin(acked);
    }
  }

  lemma AckFollows(s: Sender, seg: Segment)
    requires Inv(s) && s.out == [] && (seg.ack ==> s.inFlight < TWO31) && (s.finSent ==> seg.ack)
    ensures var acked := if seg.ack then AckReceived(s, seg.ackno, seg.win) else s;
            Inv(acked) && FinFollows(s, acked, seg.ackno)
  {
    if s.finSent {
      AckOfFin(s, seg.ackno, seg.win);
    } else if seg.ack {
      AckBeforeFin(s, seg.ackno, seg.win);
    }
  }

  lemma ListenFin(c: Connection, seg: Segment)
    requires Inv(c.sender) && Output(c.receiver).capacity > 0 && c.sender.out == []
    requires (seg.ack ==> c.sender.inFlight < TWO31) && (c.sender.finSent ==> seg.ack)
    ensures var h := Listen(c, seg).sender; Inv(h) && FinFollows(c.sender, h, seg.ackno)
  {
    AckFollows(c.sender, seg);
    FillFollows(c.sender, if seg.ack then AckReceived(c.sender, seg.ackno, seg.win) else c.sender, seg.ackno);
  }

  lemma AckOfFin(s: Sender, ackno: u32, window: u16)
    requires Inv(s) && s.finSent && s.inFlight < TWO31
    ensures var t := AckReceived(s, ackno, window);
            && Inv(t) && t.finSent && t.nextSeqno == s.nextSeqno && t.isn == s.isn
            && (t.previousAck == t.nextSeqno <==> s.previousAck == s.nextSeqno || ackno == Wrap(s.nextSeqno, s.isn))
  {
    AckAfterFin(s, ackno, window);
    UnwrapNearest(ackno, s.isn, s.previousAck);
    if IsNewAck(s, ackno) {
      TakeAckInv(s, ackno, window);
      FillAfterFin(TakeAck(s, ackno, window));
    }
  }

  lemma AckBeforeFin(s: Sender, ackno: u32, window: u16)
    requires Inv(s) && !s.finSent && s.out == [] && s.inFlight < TWO31
    ensures var t := AckReceived(s, ackno, window);
            && Inv(t) && (t.finSent <==> HasFin(t.out)) && (t.finSent ==> t.previousAck < t.nextSeqno)
  {
    AckReceivedInv(s, ackno, window);
    if IsNewAck(s, ackno) {
      TakeAckInv(s, ackno, window);
      FillFin(TakeAck(s, ackno, window));
    }
  }

  lemma AnsweredFin(s: Sender, r: Receiver, seg: Segment)
    ensures HasFin(Answered(s, r, seg).out) <==> HasFin(s.out)
  {
    Answering.AnsweredQueue(s, r, seg);
    if HasFin(s.out) {
      HasFinGrows(s.out, Answered(s, r, seg).out);
    }
  }

  lemma ReceivedExact(c: Connection, seg: Segment)
    requires Exact(c) && Sound(c) && c.active && !seg.rst && (seg.ack ==> c.sender.inFlight < TWO31) && AcksAfterFin(c, seg)
    ensures var d := Connecting.SegmentReceived(c, seg);
            && Exact(d) && (d.linger <==> c.linger && (c.finSent || !Ended(d)))
            && (d.active <==> c.linger || !d.finAcked)
  {
    var heard := Listen(c.(sinceLast := 0), seg);
    ListenFin(c.(sinceLast := 0), seg);
    var noted := NoteClosing(heard, seg);
    Answering.NotedSame(heard, seg);
    Answering.AnsweredFrame(noted.sender, noted.receiver, seg);
    AnsweredFin(noted.sender, noted.receiver, seg);
    FlushMeans(Reply(noted, seg));
    FlushFin(Reply(noted, seg));
  }

  lemma TickExact(c: Connection, ms: nat)
    requires Exact(c) && Sound(c) && c.active
    ensures var d := Connecting.Tick(c, ms); Exact(d) && d.linger == c.linger && Ended(d) == Ended(c)
  {
    TickInv(c.sender, ms);
    TickFrame(c.sender, ms);
    FinMeansSent(Sending.Tick(c.sender, ms));
    var m := Finish(Aged(c, ms));
    FlushMeans(m);
    FlushFin(m);
  }

  /** A tick closes a connection when it gives up, and when all is done and the time to linger is over. */
  lemma TickCloses(c: Connection, ms: nat)
    requires Exact(c) && Sound(c) && c.active && Trying(c)
    ensures !Connecting.Tick(c, ms).active
       <==> OutOfTries(c.sender, ms) || (Ended(c) && c.finAcked && (c.linger ==> c.sinceLast + ms >= 10 * c.timeout))
  {
    OutOfTriesIff(c.sender, ms);
    FlushMeans(Finish(Aged(c, ms)));
  }

  // ---------- runs ----------

  /** The peer ended its stream first: some segment came in with the end there, and our FIN not out before it. */
  ghost predicate PassiveClose(init: Connection, events: seq<Event>)
    requires Output(init.receiver).capacity > 0
    decreases |events|
  {
    events != [] &&
    var before, e := events[..|events| - 1], events[|events| - 1];
    || PassiveClose(init, before)
    || (e.Receives? && !e.seg.rst && !Exec(init, before).sender.finSent && Ended(Exec(init, events)))
  }

  lemma AppExact(c: Connection, e: Event)
    requires Exact(c) && Sound(c) && Allowed(c, e) && !e.Receives? && !e.Ticks?
    ensures var d := After(c, e); Exact(d) && d.linger == c.linger
  {
    match e
    case Connects =>
      assert c.(active := true) == c;
      FilledExact(c, c.sender);
    case Writes(data) =>
      WriteInv(c.sender, data);
      FilledExact(c, c.sender.(stream := Write(c.sender.stream, data)));
    case Ends =>
      EndInputInv(c.sender);
      FilledExact(c, c.sender.(stream := EndInput(c.sender.stream)));
    case Reads(len) =>
  }

  /** In every run the flags are exact, and the connection need not linger exactly when the peer ended first. */
  lemma {:induction false} RunExact(sendCapacity: nat, receiveCapacity: nat, timeout: nat, isn: u32, events: seq<Event>)
    requires receiveCapacity > 0 && Legal(NewConnection(sendCapacity, receiveCapacity, timeout, isn), events)
    ensures var init := NewConnection(sendCapacity, receiveCapacity, timeout, isn); var c := Exec(init, events);
            Exact(c) && (!c.linger <==> PassiveClose(init, events))
    decreases |events|
  {
    if events != [] {
      var init := NewConnection(sendCapacity, receiveCapacity, timeout, isn);
      var before, e := events[..|events| - 1], events[|events| - 1];
      RunExact(sendCapacity, receiveCapacity, timeout, isn, before);
      RunIsOk(sendCapacity, receiveCapacity, timeout, isn, before);
      StepExact(Exec(init, before), e);
    }
  }

  lemma StepExact(c: Connection, e: Event)
    requires Exact(c) && Sound(c) && Allowed(c, e)
    ensures var d := After(c, e);
            && Exact(d)
            && (!d.linger <==> !c.linger || (e.Receives? && !e.seg.rst && !c.sender.finSent && Ended(d)))
  {
    match e
    case Receives(seg) =>
      if !seg.rst {
        ReceivedExact(c, seg);
      }
    case Ticks(ms) => TickExact(c, ms);
    case _ => AppExact(c, e);
  }

  /**
   * After every run that leaves the connection active, the next tick closes it exactly when it is one expiry too
   * many, or when the peer's stream has ended, our FIN is acknowledged, and either the peer ended first or nothing
   * has come in for ten timeouts.
   */
  lemma TickClosesIff(sendCapacity: nat, receiveCapacity: nat, timeout: nat, isn: u32, events: seq<Event>, ms: nat)
    requires receiveCapacity > 0 && Legal(NewConnection(sendCapacity, receiveCapacity, timeout, isn), events)
    requires Exec(NewConnection(sendCapacity, receiveCapacity, timeout, isn), events).active
    ensures var init := NewConnection(sendCapacity, receiveCapacity, timeout, isn); var c := Exec(init, events);
            !Connecting.Tick(c, ms).active
            <==> || OutOfTries(c.sender, ms)
                 || (&& Ended(c) && c.sender.finSent && c.sender.previousAck == c.sender.nextSeqno
                     && (PassiveClose(init, events) || QuietTime(events) + ms >= 10 * timeout))
  {
    RunExact(sendCapacity, receiveCapacity, timeout, isn, events);
    RunIsOk(sendCapacity, receiveCapacity, timeout, isn, events);
    TickCloses(Exec(NewConnection(sendCapacity, receiveCapacity, timeout, isn), events), ms);
  }

  /** And the next segment closes it exactly when it is a reset, or when the peer ended first and it acknowledges our FIN. */
  lemma SegmentClosesIff(sendCapacity: nat, receiveCapacity: nat, timeout: nat, isn: u32, events: seq<Event>, seg: Segment)
    requires receiveCapacity > 0 && Legal(NewConnection(sendCapacity, receiveCapacity, timeout, isn), events)
    requires Allowed(Exec(NewConnection(sendCapacity, receiveCapacity, timeout, isn), events), Receives(seg))
    ensures var init := NewConnection(sendCapacity, receiveCapacity, timeout, isn); var c := Exec(init, events);
            var d := Connecting.SegmentReceived(c, seg);
            !d.active
            <==> seg.rst || (PassiveClose(init, events) && d.sender.finSent && d.sender.previousAck == d.sender.nextSeqno)
  {
    RunExact(sendCapacity, receiveCapacity, timeout, isn, events);
    RunIsOk(sendCapacity, receiveCapacity, timeout, isn, events);
    if !seg.rst {
      ReceivedExact(Exec(NewConnection(sendCapacity, receiveCapacity, timeout, isn), events), seg);
    }
  }
}
