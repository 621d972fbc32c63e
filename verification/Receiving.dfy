/** The receiver as a value. */
module Receiving {
  import opened Words
  import opened WrappingIntegers
  import opened ByteStreams
  import opened Reassembly
  import opened Segments

  datatype Receiver = Receiver(isn: Option<u32>, reassembler: Reassembler)

  function NewReceiver(capacity: nat): Receiver {
    Receiver(None, Empty(capacity))
  }

  function Output(r: Receiver): Stream {
    r.reassembler.output
  }

  /** The number after the last byte assembled, the SYN counted. */
  function NextByte(r: Receiver): nat {
    |Output(r).history| + 1
  }

  function Pushed(r: Receiver, seg: Segment, index: nat): Receiver
    requires Output(r).capacity > 0
  {
    r.(reassembler := Push(r.reassembler, seg.payload, index, seg.fin))
  }

  function PlaceIn(r: Receiver, seg: Segment): nat
    requires r.isn.Some?
  {
    Unwrap(seg.seqno, r.isn.value, NextByte(r))
  }

  /** At its unwrapped place, unless that is the SYN's. */
  function PlacedAt(r: Receiver, seg: Segment, at: nat): Receiver
    requires Output(r).capacity > 0
  {
    if at != 0 then Pushed(r, seg, at - 1) else r
  }

  function SegmentReceived(r: Receiver, seg: Segment): Receiver
    requires Output(r).capacity > 0
  {
    if r.isn.None? then
      if seg.syn then Pushed(r.(isn := Some(seg.seqno)), seg, 0) else r
    else
      PlacedAt(r, seg, PlaceIn(r, seg))
  }

  lemma ReceivedCapacity(r: Receiver, seg: Segment)
    requires Output(r).capacity > 0
    ensures Output(SegmentReceived(r, seg)).capacity == Output(r).capacity
  {
    if r.isn.None? {
      PushCapacity(r.reassembler, seg.payload, 0, seg.fin);
    } else {
      var at := Unwrap(seg.seqno, r.isn.value, NextByte(r));
      if at != 0 {
        PushCapacity(r.reassembler, seg.payload, at - 1, seg.fin);
      }
    }
  }

  /** The SYN that opens the stream fixes the numbering; data and FIN that come with it count at once. */
  lemma SynOpens(capacity: nat, seg: Segment)
    requires 0 < capacity && seg.syn && |seg.payload| <= capacity
    ensures var t := SegmentReceived(NewReceiver(capacity), seg);
            t.isn == Some(seg.seqno) && Output(t).history == seg.payload && Output(t).inputEnded == seg.fin
  {
    FirstPush(capacity, seg.payload, seg.fin);
  }

  /** Nothing but a SYN gets in before it. */
  lemma IgnoredBeforeSyn(r: Receiver, seg: Segment)
    requires Output(r).capacity > 0 && r.isn.None? && !seg.syn
    ensures SegmentReceived(r, seg) == r
  {
  }

  /** The absolute number acknowledged: one more once the input has ended, for the FIN. */
  function AckNumber(r: Receiver): nat {
    NextByte(r) + if Output(r).inputEnded then 1 else 0
  }

  function Ackno(r: Receiver): Option<u32> {
    if r.isn.None? then None else Some(Wrap(AckNumber(r), r.isn.value))
  }

  function WindowSize(r: Receiver): nat {
    Room(Output(r))
  }

  /** The window as a 16-bit field can say it. */
  function WindowField(r: Receiver): u16 {
    Min(WindowSize(r), 0xffff)
  }

  /** The window offered ends exactly where the reassembler's does: a capacity beyond what the application has read. */
  lemma OffersWhatFits(r: Receiver)
    requires Aligned(r.reassembler)
    ensures NextByte(r) + WindowSize(r) == 1 + Limit(r.reassembler) == 1 + Output(r).bytesRead + Output(r).capacity
  {
  }

  datatype ReceiverSummary = ReceiverError | Listening | SynReceived | FinReceived

  function Summary(r: Receiver): ReceiverSummary {
    if Output(r).error then ReceiverError
    else if Ackno(r).None? then Listening
    else if Output(r).inputEnded then FinReceived
    else SynReceived
  }
}
