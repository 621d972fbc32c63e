/** The sender and its timer as the source runs them: fields updated in place, loops over queues. */
module TCPSenders {
  import opened Words
  import opened WrappingIntegers
  import opened ByteStreams
  import opened Segments
  import opened Sending

  class RetransmissionTimer {
    var initRto: nat
    var rto: nat
    var t: nat
    var isRunning: bool

    ghost function Value(): Timer
      reads this
    {
      Timer(initRto, rto, t, isRunning)
    }

    constructor (timeout: nat)
      ensures Value() == NewTimer(timeout)
    {
      initRto, rto, t, isRunning := timeout, timeout, 0, true;
    }

    method Tick(ms: nat) returns (expired: bool)
      modifies this
      ensures expired == old(Value()).Expires(ms)
      ensures Value() == old(Value()).Tick(ms)
    {
      if !isRunning {
        return false;
      }
      expired := t + ms >= rto;
      t := if expired then 0 else t + ms;
    }

    method Start()
      modifies this
      ensures Value() == old(Value()).Start()
    {
      if !isRunning {
        t := 0;
      }
      isRunning := true;
    }

    method Stop()
      modifies this
      ensures Value() == old(Value()).Stop()
    {
      t := 0;
      isRunning := false;
    }

    method SetRtoInit()
      modifies this
      ensures Value() == old(Value()).ResetRto()
    {
      rto := initRto;
    }

    method DoubleRto()
      modifies this
      ensures Value() == old(Value()).DoubleRto()
    {
      rto := rto * 2;
    }
  }

  class TCPSender {
    const isn: u32
    const stream: ByteStream
    const timer: RetransmissionTimer
    var segmentsOut: seq<Segment>
    var nextSeqno: nat
    var previousAckno: nat
    var windowSize: u16
    var outstandingSegments: seq<Segment>
    var bytesInFlight: int
    var consecutiveRetransmissions: nat
    var isFinSent: bool

    ghost const Repr: set<object> := {this, stream, timer}

    ghost predicate Valid()
      reads Repr
    {
      stream.Valid()
    }

    ghost function Value(): Sender
      requires Valid()
      reads Repr
    {
      Sender(isn, stream.Value(), nextSeqno, timer.Value(), previousAckno, windowSize,
             outstandingSegments, segmentsOut, bytesInFlight, consecutiveRetransmissions, isFinSent)
    }

    constructor (capacity: nat, timeout: nat, isn: u32)
      ensures Valid() && fresh(Repr) && Value() == NewSender(capacity, timeout, isn)
    {
      this.isn := isn;
      stream := new ByteStream(capacity);
      timer := new RetransmissionTimer(timeout);
      segmentsOut, outstandingSegments := [], [];
      nextSeqno, previousAckno, windowSize := 0, 0, 1;
      bytesInFlight, consecutiveRetransmissions, isFinSent := 0, 0, false;
    }

    method Transmit(syn: bool, fin: bool, payload: seq<byte>)
      requires Valid()
      modifies Repr - {stream}
      ensures Valid() && Value() == Emit(old(Value()), Build(old(Value()), syn, fin, payload))
    {
      var seg := Segment(Wrap(nextSeqno, isn), syn, fin, payload, false, 0, 0, false, nextSeqno);
      segmentsOut := segmentsOut + [seg];
      outstandingSegments := outstandingSegments + [seg];
      timer.Start();
      nextSeqno := nextSeqno + seg.Length();
      bytesInFlight := bytesInFlight + seg.Length();
    }

    method Fill()
      requires Valid()
      modifies Repr
      ensures Valid() && Value() == FillWindow(old(Value()))
    {
      if nextSeqno == 0 {
        Transmit(true, false, []);
        return;
      }
      if nextSeqno == bytesInFlight {
        return;
      }
      FillRest();
    }

    /** The sending loop. */
    method FillRest()
      requires Valid()
      modifies Repr
      ensures Valid() && Value() == FillLoop(old(Value()))
    {
      var window: u16 := if windowSize == 0 then 1 else windowSize;
      var available := (window - (nextSeqno - previousAckno)) % TWO64;
      ghost var target := FillLoop(Value());
      while available > 0
        invariant Valid() && window == Effective(Value()) && available == Available(Value())
        invariant FillLoop(Value()) == target
        decreases |Buffer(stream.Value())|, if stream.isEof then 0 else 1
      {
        if stream.isEof {
          if !isFinSent {
            isFinSent := true;
            Transmit(false, true, []);
          }
          return;
        }
        var sent := SendNext(window, available);
        if !sent {
          return;
        }
        available := (window - (nextSeqno - previousAckno)) % TWO64;
      }
    }

    /** One segment of what fits, if there is anything to send. */
    method SendNext(window: u16, available: nat) returns (sent: bool)
      requires Valid() && window == Effective(Value()) && available == Available(Value())
      modifies Repr
      ensures Valid() && Value() == SendPiece(old(Value())) && sent == (NextPiece(old(Value())).Length() > 0)
    {
      var payload := stream.Read(Min(available, MAX_PAYLOAD_SIZE));
      var fin := window != |payload| && stream.isEof;
      isFinSent := isFinSent || fin;
      sent := |payload| != 0 || fin;
      if sent {
        Transmit(false, fin, payload);
      }
    }

    method Acknowledge(ackno: u32, window: u16)
      requires Valid()
      modifies Repr
      ensures Valid() && Value() == AckReceived(old(Value()), ackno, window)
    {
      var unwrapped := Unwrap(ackno, isn, previousAckno);
      windowSize := window;
      if unwrapped > nextSeqno {
        return;
      }
      if unwrapped <= previousAckno {
        return;
      }
      previousAckno := unwrapped;
      timer.SetRtoInit();
      timer.Stop();
      timer.Start();
      DropFront();
      consecutiveRetransmissions := 0;
      assert Value() == TakeAck(old(Value()), ackno, window);
      Fill();
      if |outstandingSegments| > 0 {
        timer.Stop();
        timer.Start();
      } else {
        timer.Stop();
      }
    }

    /** The loop over fully acknowledged segments. */
    method DropFront()
      requires Valid()
      modifies this`outstandingSegments, this`bytesInFlight
      ensures Valid() && Value() == DropAcked(old(Value()))
    {
      ghost var target := DropAcked(Value());
      while outstandingSegments != []
        invariant Valid() && DropAcked(Value()) == target
        decreases |outstandingSegments|
      {
        var seg := outstandingSegments[0];
        var at := Unwrap(seg.seqno, isn, previousAckno);
        if at + seg.Length() <= previousAckno {
          outstandingSegments := outstandingSegments[1..];
          bytesInFlight := bytesInFlight - seg.Length();
        } else {
          return;
        }
      }
    }

    method Advance(ms: nat)
      requires Valid()
      modifies Repr
      ensures Valid() && Value() == Tick(old(Value()), ms)
    {
      var expired := timer.Tick(ms);
      if expired {
        if outstandingSegments != [] {
          segmentsOut := segmentsOut + [outstandingSegments[0]];
        }
        if windowSize != 0 {
          consecutiveRetransmissions := consecutiveRetransmissions + 1;
          timer.DoubleRto();
        }
        timer.Stop();
        timer.Start();
      }
    }

    method SendEmptySegment()
      requires Valid()
      modifies this`segmentsOut
      ensures Valid() && Value() == SendEmpty(old(Value()))
    {
      var seg := Segment(Wrap(nextSeqno, isn), false, false, [], false, 0, 0, false, nextSeqno);
      segmentsOut := segmentsOut + [seg];
    }
  }
}
