/** What a fill of the window sends: everything that fits, in full segments, and the FIN exactly when it has room. */
module Filling {
  import opened Words
  import opened WrappingIntegers
  import opened ByteStreams
  import opened Segments
  import opened Sending
  import opened SenderInvariants
  import opened SenderRuns

  /** The first number beyond the window. */
  function Edge(s: Sender): nat {
    s.previousAck + Effective(s)
  }

  /** The number a FIN has or would have. */
  function FinNumber(s: Sender): nat {
    1 + |s.stream.history|
  }

  /**
   * When a fill sends the FIN. Below the edge there is room for it. One beyond, it still rides on
   * the last piece of data, unless that piece is a whole window by itself.
   */
  predicate FinFits(s: Sender) {
    s.stream.inputEnded &&
    (|| FinNumber(s) < Edge(s)
     || (FinNumber(s) == Edge(s) && s.nextSeqno < Edge(s)
         && (s.previousAck < s.nextSeqno || Effective(s) > MAX_PAYLOAD_SIZE)))
  }

  /** All data that ends by the edge has been read from the stream. */
  predicate ReadToEdge(s: Sender) {
    s.stream.bytesRead == Min(|s.stream.history|, Edge(s) - 1)
  }

  // ---------- within the window ----------

  lemma AvailableIs(s: Sender)
    requires Inv(s) && WindowOk(s) && !s.finSent
    ensures Available(s) == Edge(s) - s.nextSeqno
  {
  }

  /** One piece reads a full payload, up to the edge, or to the end of what there is. */
  lemma PieceReads(s: Sender)
    requires Inv(s) && s.nextSeqno > 0 && WindowOk(s) && !s.stream.eof && Available(s) != 0
    ensures var u, k := SendPiece(s), |NextPiece(s).payload|;
            && k == Min(Min(Edge(s) - s.nextSeqno, MAX_PAYLOAD_SIZE), |Buffer(s.stream)|)
            && u.stream.bytesRead == s.stream.bytesRead + k && u.stream.history == s.stream.history
            && u.stream.inputEnded == s.stream.inputEnded
            && u.previousAck == s.previousAck && u.window == s.window
            && u.finSent == NextPiece(s).fin
            && (u.finSent <==> s.stream.inputEnded && k == |Buffer(s.stream)| && k != Effective(s))
            && u.nextSeqno == s.nextSeqno + k + if u.finSent then 1 else 0
  {
    AvailableIs(s);
  }

  lemma PieceFin(s: Sender)
    requires Inv(s) && s.nextSeqno > 0 && WindowOk(s) && !s.stream.eof && Available(s) != 0
    requires NextPiece(s).Length() != 0
    ensures var u := SendPiece(s); FinFits(s) <==> u.finSent || FinFits(u)
    ensures WindowOk(SendPiece(s))
  {
    PieceReads(s);
    AvailableIs(s);
  }

  lemma {:induction false} FillLoopSends(s: Sender)
    requires Inv(s) && s.nextSeqno > 0 && WindowOk(s)
    ensures var t := FillLoop(s);
            && t.stream.bytesRead == Min(|s.stream.history|, Edge(s) - 1)
            && (t.finSent <==> s.finSent || FinFits(s))
    decreases |Buffer(s.stream)|, if s.stream.eof then 0 else 1
  {
    if s.finSent {
      assert FillLoop(s) == s;
    } else {
      AvailableIs(s);
      if Available(s) != 0 && !s.stream.eof {
        PieceReads(s);
        if NextPiece(s).Length() != 0 {
          PieceFin(s);
          SendPieceInv(s);
          FillLoopSends(SendPiece(s));
        }
      }
    }
  }

  /**
   * A fill sends the SYN first and alone, nothing more until it is acknowledged, and from then on all
   * data up to the edge of the window, with the FIN exactly when it fits.
   */
  lemma FillSends(s: Sender)
    requires Inv(s)
    ensures var t := FillWindow(s);
            && (s.nextSeqno == 0 ==>
                  t.nextSeqno == 1 && |t.outstanding| == 1 && t.outstanding[0].syn && t.out == s.out + t.outstanding)
            && (s.nextSeqno > 0 && s.previousAck == 0 ==> t == s)
            && (s.previousAck > 0 && WindowOk(s) ==>
                  && t.stream.bytesRead == Min(|s.stream.history|, Edge(s) - 1)
                  && (t.finSent <==> s.finSent || FinFits(s)))
  {
    if s.nextSeqno == 0 {
      if s.outstanding != [] {
        ChainToEnd(s.outstanding, s.nextSeqno, 0);
        assert false;
      }
    } else if s.previousAck > 0 && WindowOk(s) {
      FillLoopSends(s);
    }
  }

  /**
   * A new acknowledgment moves number and window and sends what then fits; any other has its window
   * stored and sends nothing.
   */
  lemma AckSends(s: Sender, ackno: u32, window: u16)
    requires Inv(s) && s.inFlight < TWO31
    ensures var t := AckReceived(s, ackno, window);
            if !IsNewAck(s, ackno) then t == s.(window := window)
            else
              var u := s.(previousAck := Unwrap(ackno, s.isn, s.previousAck), window := window);
              && t.previousAck == u.previousAck && t.window == window && Emitted(TakeAck(s, ackno, window), t)
              && (WindowOk(u) ==>
                    && t.stream.bytesRead == Min(|s.stream.history|, Edge(u) - 1)
                    && (t.finSent <==> s.finSent || FinFits(u)))
  {
    if IsNewAck(s, ackno) {
      TakeAckInv(s, ackno, window);
      FillSends(TakeAck(s, ackno, window));
      FillEmits(TakeAck(s, ackno, window));
      FillWindowFrame(TakeAck(s, ackno, window));
    }
  }

  /** A closed window with nothing in flight is probed with one number, if there is anything to send. */
  lemma ZeroWindowProbed(s: Sender)
    requires Inv(s) && s.previousAck > 0 && s.previousAck == s.nextSeqno && s.window == 0 && !s.finSent
    ensures FillWindow(s).nextSeqno == s.nextSeqno + if Buffer(s.stream) != [] || s.stream.inputEnded then 1 else 0
  {
    FillSends(s);
    FillWindowInv(s);
    FillWindowFrame(s);
  }

  // ---------- past the edge ----------

  /** When the peer has pulled its window back, the free part wraps around, and everything goes out at once. */
  lemma {:induction false} FillPastEdge(s: Sender)
    requires Inv(s) && s.previousAck > 0 && !WindowOk(s) && |s.stream.history| + 2 < TWO64
    ensures var t := FillWindow(s);
            t.stream.bytesRead == |s.stream.history| && (t.finSent <==> s.stream.inputEnded)
  {
    if s.finSent {
      assert FillLoop(s) == s;
    } else {
      LoopPastEdge(s);
    }
  }

  lemma {:induction false} LoopPastEdge(s: Sender)
    requires Inv(s) && s.nextSeqno > 0 && !s.finSent && s.nextSeqno > Edge(s) && |s.stream.history| + 2 < TWO64
    ensures var t := FillLoop(s);
            t.stream.bytesRead == |s.stream.history| && (t.finSent <==> s.stream.inputEnded)
    decreases |Buffer(s.stream)|, if s.stream.eof then 0 else 1
  {
    WrapsPositive(Edge(s) - s.nextSeqno);
    if !s.stream.eof {
      SendPieceInv(s);
      if NextPiece(s).Length() != 0 {
        if SendPiece(s).finSent {
          assert FillLoop(SendPiece(s)) == SendPiece(s);
        } else {
          LoopPastEdge(SendPiece(s));
        }
      }
    }
  }

  lemma WrapsPositive(x: int)
    requires -TWO64 < x < 0
    ensures x % TWO64 == TWO64 + x
  {
  }

  // ---------- the segments ----------

  /** What is new in the queue is new on the way out, in the same order. */
  ghost predicate Emitted(s: Sender, t: Sender) {
    && s.out <= t.out && s.outstanding <= t.outstanding
    && t.out[|s.out|..] == t.outstanding[|s.outstanding|..]
  }

  lemma EmittedThen(s: Sender, u: Sender, t: Sender)
    requires Emitted(s, u) && Emitted(u, t)
    ensures Emitted(s, t)
  {
    assert t.out[|s.out|..] == u.out[|s.out|..] + t.out[|u.out|..];
    assert t.outstanding[|s.outstanding|..] == u.outstanding[|s.outstanding|..] + t.outstanding[|u.outstanding|..];
  }

  lemma {:induction false} FillLoopEmits(s: Sender)
    ensures Emitted(s, FillLoop(s))
    decreases |Buffer(s.stream)|, if s.stream.eof then 0 else 1
  {
    if Available(s) != 0 && !s.stream.eof && NextPiece(s).Length() != 0 {
      FillLoopEmits(SendPiece(s));
      EmittedThen(s, SendPiece(s), FillLoop(s));
    }
  }

  /** Every number a fill counts goes out, and stays in the queue for retransmission. */
  lemma FillEmits(s: Sender)
    ensures Emitted(s, FillWindow(s))
  {
    FillLoopEmits(s);
  }

  /** All segments from index `i` on but the last are full of data and end nothing. */
  ghost predicate FullFrom(segs: seq<Segment>, i: nat) {
    forall k :: i <= k < |segs| - 1 ==> |segs[k].payload| == MAX_PAYLOAD_SIZE && !segs[k].fin
  }

  /** After a piece that is not full the loop has nothing more to send. */
  lemma ShortPieceIsLast(s: Sender)
    requires Inv(s) && s.nextSeqno > 0 && WindowOk(s) && !s.stream.eof && Available(s) != 0
    requires NextPiece(s).Length() != 0 && (|NextPiece(s).payload| < MAX_PAYLOAD_SIZE || NextPiece(s).fin)
    ensures FillLoop(SendPiece(s)).out == SendPiece(s).out
  {
    PieceReads(s);
    PieceFin(s);
    SendPieceInv(s);
    var u := SendPiece(s);
    if !u.finSent {
      AvailableIs(u);
    }
  }

  lemma {:induction false} FillLoopFull(s: Sender)
    requires Inv(s) && s.nextSeqno > 0 && WindowOk(s)
    ensures FullFrom(FillLoop(s).out, |s.out|)
    decreases |Buffer(s.stream)|, if s.stream.eof then 0 else 1
  {
    if Available(s) != 0 && !s.stream.eof && NextPiece(s).Length() != 0 {
      var u := SendPiece(s);
      PieceFin(s);
      SendPieceInv(s);
      FillLoopFull(u);
      FillLoopFrame(u);
      if |NextPiece(s).payload| < MAX_PAYLOAD_SIZE || NextPiece(s).fin {
        ShortPieceIsLast(s);
      } else {
        assert u.out[|s.out|] == NextPiece(s);
      }
    }
  }

  /** Within the window a fill cuts its data into as few segments as there can be. */
  lemma FillsFull(s: Sender)
    requires Inv(s) && WindowOk(s)
    ensures FullFrom(FillWindow(s).out, |s.out|)
  {
    if s.nextSeqno > 0 {
      FillLoopFull(s);
    }
  }
}
