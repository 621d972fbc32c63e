/** The receiver as the source runs it. */
module TCPReceivers {
  import opened Words
  import opened WrappingIntegers
  import opened StreamReassemblers
  import opened Segments
  import opened Receiving

  class TCPReceiver {
    const reassembler: StreamReassembler
    var isn: Option<u32>

    ghost const Repr: set<object> := {this} + reassembler.Repr

    ghost predicate Valid()
      reads Repr
    {
      this !in reassembler.Repr && reassembler.Valid()
    }

    ghost function Value(): Receiver
      requires Valid()
      reads Repr
    {
      Receiver(isn, reassembler.Value())
    }

    constructor (capacity: nat)
      requires capacity > 0
      ensures Valid() && fresh(Repr) && Value() == NewReceiver(capacity)
    {
      reassembler := new StreamReassembler(capacity);
      isn := None;
    }

    method Receive(seg: Segment)
      requires Valid()
      modifies Repr
      ensures Valid() && Value() == SegmentReceived(old(Value()), seg)
    {
      if isn.None? && seg.syn {
        isn := Some(seg.seqno);
        Push(seg, 0);
      } else if isn.Some? {
        PlaceAt(seg, PlaceOf(seg));
      }
    }

    function NextNumber(): (n: nat)
      requires Valid()
      reads Repr
      ensures n == NextByte(Value())
    {
      reassembler.output.totalWritten + 1
    }

    function PlaceOf(seg: Segment): (at: nat)
      requires Valid() && isn.Some?
      reads Repr
      ensures at == PlaceIn(Value(), seg)
    {
      Unwrap(seg.seqno, isn.value, NextNumber())
    }

    method PlaceAt(seg: Segment, at: nat)
      requires Valid()
      modifies reassembler.Repr
      ensures Valid() && Value() == PlacedAt(old(Value()), seg, at)
    {
      if at != 0 {
        Push(seg, at - 1);
      }
    }

    method Push(seg: Segment, index: nat)
      requires Valid()
      modifies reassembler.Repr
      ensures Valid() && Value() == Pushed(old(Value()), seg, index)
    {
      reassembler.PushSubstring(seg.payload, index, seg.fin);
    }

    function CurrentAckno(): (a: Option<u32>)
      requires Valid()
      reads Repr
      ensures a == Ackno(Value())
    {
      if isn.None? then None
      else
        var number := reassembler.output.totalWritten + 1;
        Some(Wrap(if reassembler.output.isInputEnded then number + 1 else number, isn.value))
    }

    function CurrentWindow(): (w: nat)
      requires Valid()
      reads Repr
      ensures w == WindowSize(Value())
    {
      reassembler.output.RemainingCapacity()
    }
  }
}
