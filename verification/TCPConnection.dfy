/** The connection as the source runs it, on top of a sender object and a receiver object. */
module TCPConnections {
  import opened Words
  import opened WrappingIntegers
  import opened ByteStreams
  import opened Segments
  import opened TCPSenders
  import opened TCPReceivers
  import opened Connecting
  import Receiving
  import Sending

  class TCPConnection {
    const rtTimeout: nat
    const receiver: TCPReceiver
    const sender: TCPSender
    var segmentsOut: seq<Segment>
    var lingerAfterStreamsFinish: bool
    var timeSinceLastSegmentReceived: nat
    var isActive: bool
    var isFinSent: bool
    var isFinAcked: bool

    ghost const Repr: set<object> := {this} + sender.Repr + receiver.Repr

    ghost predicate Valid()
      reads Repr
    {
      && this !in sender.Repr && this !in receiver.Repr && sender.Repr !! receiver.Repr
      && sender.Valid() && receiver.Valid()
    }

    ghost function Value(): Connection
      requires Valid()
      reads Repr
    {
      Connection(rtTimeout, sender.Value(), receiver.Value(), segmentsOut, lingerAfterStreamsFinish,
                 timeSinceLastSegmentReceived, isActive, isFinSent, isFinAcked)
    }

    constructor (sendCapacity: nat, receiveCapacity: nat, timeout: nat, isn: u32)
      requires receiveCapacity > 0
      ensures Valid() && fresh(Repr) && Value() == NewConnection(sendCapacity, receiveCapacity, timeout, isn)
    {
      rtTimeout := timeout;
      receiver := new TCPReceiver(receiveCapacity);
      sender := new TCPSender(sendCapacity, timeout, isn);
      segmentsOut, lingerAfterStreamsFinish, timeSinceLastSegmentReceived := [], true, 0;
      isActive, isFinSent, isFinAcked := true, false, false;
    }

    method Receive(seg: Segment)
      requires Valid()
      modifies Repr
      ensures Valid() && Value() == SegmentReceived(old(Value()), seg)
    {
      timeSinceLastSegmentReceived := 0;
      if !isActive {
        if seg.syn {
          Wake(seg);
        }
        return;
      }
      Heed(seg);
    }

    method Heed(seg: Segment)
      requires Valid()
      modifies Repr
      ensures Valid()
      ensures Value() == if seg.rst then Errors(old(Value())).(active := false) else Processed(old(Value()), seg)
    {
      if seg.rst {
        Fail();
        return;
      }
      Process(seg);
    }

    method Wake(seg: Segment)
      requires Valid()
      modifies this`isActive, receiver.Repr
      ensures Valid()
      ensures Value() == old(Value()).(active := true, receiver := Receiving.SegmentReceived(old(Value()).receiver, seg))
    {
      isActive := true;
      receiver.Receive(seg);
    }

    method Fail()
      requires Valid()
      modifies this`isActive, sender.stream, receiver.reassembler.output
      ensures Valid() && Value() == Errors(old(Value())).(active := false)
    {
      isActive := false;
      SetErrors();
    }

    method Process(seg: Segment)
      requires Valid()
      modifies Repr
      ensures Valid() && Value() == Processed(old(Value()), seg)
    {
      HandOver(seg);
      Note(seg);
      Answer(seg);
      Flush();
    }

    /** The closing rules. */
    method Note(seg: Segment)
      requires Valid()
      modifies this`isFinAcked, this`isActive, this`lingerAfterStreamsFinish
      ensures Valid() && Value() == NoteClosing(old(Value()), seg)
    {
      if isFinSent {
        if seg.ackno == Wrap(sender.nextSeqno, sender.isn) {
          isFinAcked := true;
          isActive := isActive && lingerAfterStreamsFinish;
        }
      } else {
        lingerAfterStreamsFinish := lingerAfterStreamsFinish && !receiver.reassembler.output.isInputEnded;
      }
    }

    method SetErrors()
      requires Valid()
      modifies sender.stream, receiver.reassembler.output
      ensures Valid() && Value() == Errors(old(Value()))
    {
      receiver.reassembler.output.SetError();
      sender.stream.SetError();
    }

    /** The segment goes to the receiver, its acknowledgment to the sender. */
    method HandOver(seg: Segment)
      requires Valid()
      modifies sender.Repr, receiver.Repr
      ensures Valid() && Value() == Listen(old(Value()), seg)
    {
      receiver.Receive(seg);
      if seg.ack {
        sender.Acknowledge(seg.ackno, seg.win);
      }
      if receiver.CurrentAckno().Some? {
        sender.Fill();
      }
    }

    method Answer(seg: Segment)
      requires Valid()
      modifies sender.Repr
      ensures Valid() && Value() == Reply(old(Value()), seg)
    {
      if seg.Length() > 0 && sender.segmentsOut == [] {
        sender.SendEmptySegment();
      }
      var ackno := receiver.CurrentAckno();
      if ackno.Some? && seg.Length() == 0 && seg.seqno == (ackno.value - 1) % TWO32 {
        sender.SendEmptySegment();
      }
    }

    method Flush()
      requires Valid()
      modifies this`segmentsOut, this`isFinSent, sender`segmentsOut
      ensures Valid() && Value() == FlushSender(old(Value()))
    {
      ghost var target := FlushSender(Value());
      while sender.segmentsOut != []
        invariant Valid() && FlushSender(Value()) == target
        decreases |sender.segmentsOut|
      {
        FlushFront();
      }
    }

    method FlushFront()
      requires Valid() && sender.segmentsOut != []
      modifies this`segmentsOut, this`isFinSent, sender`segmentsOut
      ensures Valid() && Value() == FlushOne(old(Value()))
    {
      var stamped := StampSegment(sender.segmentsOut[0]);
      sender.segmentsOut := sender.segmentsOut[1..];
      segmentsOut := segmentsOut + [stamped];
      isFinSent := isFinSent || stamped.fin;
    }

    /** Acknowledgment and window of the receiver. */
    method StampSegment(seg: Segment) returns (stamped: Segment)
      requires Valid()
      ensures stamped == Stamp(Value().receiver, seg)
    {
      stamped := seg;
      var ackno := receiver.CurrentAckno();
      if ackno.Some? {
        stamped := stamped.(ackno := ackno.value, ack := true);
      }
      var window := receiver.CurrentWindow();
      stamped := stamped.(win := if window < 0xffff then window else 0xffff);
    }

    method Reset()
      requires Valid()
      modifies Repr
      ensures Valid() && Value() == SendRst(old(Value()))
    {
      Abandon();
      var seg := TakeEmpty();
      segmentsOut := segmentsOut + [seg.(rst := true)];
    }

    method Abandon()
      requires Valid()
      modifies Repr
      ensures Valid() && Value() == Abandoned(old(Value()))
    {
      SetErrors();
      isActive := false;
      DropQueue();
    }

    method DropQueue()
      requires Valid()
      modifies sender`segmentsOut
      ensures Valid() && Value() == old(Value()).(sender := old(Value()).sender.(out := []))
    {
      while sender.segmentsOut != []
        invariant Valid()
        invariant Value() == old(Value()).(sender := old(Value()).sender.(out := sender.segmentsOut))
        decreases |sender.segmentsOut|
      {
        sender.segmentsOut := sender.segmentsOut[1..];
      }
    }

    /** Has the sender make an empty segment and takes it from its queue. */
    method TakeEmpty() returns (seg: Segment)
      requires Valid() && sender.segmentsOut == []
      modifies sender`segmentsOut
      ensures Valid() && Value() == old(Value()) && seg == Sending.Build(Value().sender, false, false, [])
    {
      sender.SendEmptySegment();
      seg := sender.segmentsOut[0];
      sender.segmentsOut := sender.segmentsOut[1..];
    }

    method Write(data: seq<byte>) returns (accepted: nat)
      requires Valid()
      modifies Repr
      ensures Valid() && Value() == WriteData(old(Value()), data)
      ensures accepted == Min(|data|, Room(old(Value()).sender.stream))
    {
      accepted := sender.stream.Append(data);
      sender.Fill();
      Flush();
    }

    method EndInput()
      requires Valid()
      modifies Repr
      ensures Valid() && Value() == EndInputStream(old(Value()))
    {
      sender.stream.EndWriting();
      sender.Fill();
      Flush();
    }

    method Open()
      requires Valid()
      modifies Repr
      ensures Valid() && Value() == Connect(old(Value()))
    {
      isActive := true;
      sender.Fill();
      Flush();
    }

    method Advance(ms: nat)
      requires Valid()
      modifies Repr
      ensures Valid() && Value() == Tick(old(Value()), ms)
    {
      Age(ms);
      Conclude();
    }

    /** Gives up over the retry limit, otherwise closes when all is done. */
    method Conclude()
      requires Valid()
      modifies Repr
      ensures Valid() && Value() == Concluded(old(Value()))
    {
      if sender.consecutiveRetransmissions > MAX_RETX_ATTEMPTS {
        Reset();
        return;
      }
      CloseIfDone();
      Flush();
    }

    method Age(ms: nat)
      requires Valid()
      modifies this`timeSinceLastSegmentReceived, sender.Repr
      ensures Valid() && Value() == Aged(old(Value()), ms)
    {
      timeSinceLastSegmentReceived := timeSinceLastSegmentReceived + ms;
      sender.Advance(ms);
    }

    method CloseIfDone()
      requires Valid()
      modifies this`isActive
      ensures Valid() && Value() == Finish(old(Value()))
    {
      if receiver.reassembler.output.isInputEnded && isFinAcked {
        if !lingerAfterStreamsFinish {
          isActive := false;
        } else if timeSinceLastSegmentReceived >= 10 * rtTimeout {
          isActive := false;
        }
      }
    }
  }
}
