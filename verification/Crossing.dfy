/** Every segment a connection puts out crosses the wire unchanged: the protocol model on top of the wire formats. */
module Crossing {
  import opened Words
  import opened Parsing
  import opened Segments
  import opened SenderInvariants
  import Sending
  import Receiving
  import Connecting
  import Ip = IPv4
  import Tcp = TcpWire
  import opened TcpOverIp

  function FlagsOf(seg: Segment): Tcp.Flags {
    Tcp.Flags(false, seg.ack, false, seg.rst, seg.syn, seg.fin)
  }

  /** The wire segment, ports and checksum still blank. */
  function ToWire(seg: Segment): Tcp.Segment {
    Tcp.Segment(Tcp.Header(0, 0, seg.seqno, seg.ackno, 5, FlagsOf(seg), seg.win, 0, 0), seg.payload)
  }

  /** What a connection sees of a wire segment; `at` is not on the wire. */
  function FromWire(s: Tcp.Segment, at: nat): Segment {
    var h := s.header;
    Segment(h.seqno, h.flags.syn, h.flags.fin, s.payload, h.flags.ack, h.ackno, h.win, h.flags.rst, at)
  }

  lemma Crosses(c: Config, seg: Segment, before: Ip.Header, a: Adapter)
    requires |seg.payload| <= MAX_PAYLOAD_SIZE && Takes(a, Mirror(c), FlagsOf(seg))
    ensures Ip.DatagramSerializable(Wrap(c, ToWire(seg)))
    ensures var r := Ip.ParseDatagram(before, Ip.SerializeDatagram(Wrap(c, ToWire(seg))));
            var u := Unwrap(a, r.dgram);
            r.result == NoError && u.adapter == Adapter(Mirror(c), false)
            && u.segment.Some? && FromWire(u.segment.value, seg.at) == seg
  {
    DeliveredIff(c, ToWire(seg), before, a);
  }

  /** In particular whatever a sender has queued, once the receiver's half of the header is filled in. */
  lemma EmittedCrosses(s: Sending.Sender, i: nat, r: Receiving.Receiver, c: Config, before: Ip.Header, a: Adapter)
    requires Inv(s) && i < |s.out| && a == Adapter(Mirror(c), false)
    ensures var seg := Connecting.Stamp(r, s.out[i]);
            && Ip.DatagramSerializable(Wrap(c, ToWire(seg)))
            && var p := Ip.ParseDatagram(before, Ip.SerializeDatagram(Wrap(c, ToWire(seg))));
            var u := Unwrap(a, p.dgram);
            p.result == NoError && u.adapter == a && u.segment.Some? && FromWire(u.segment.value, seg.at) == seg
  {
    assert Blank(s.out[i]) || Carries(s.out[i], s.isn, s.stream);
    Crosses(c, Connecting.Stamp(r, s.out[i]), before, a);
  }
}
