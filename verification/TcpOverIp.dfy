/** TCP segments carried in IPv4 datagrams: the adapter that wraps and unwraps them for one connection. */
module TcpOverIp {
  import opened Words
  import opened Parsing
  import Ip = IPv4
  import Tcp = TcpWire

  const NO_FLAGS := Tcp.Flags(false, false, false, false, false, false)
  const BLANK := Tcp.Segment(Tcp.Header(0, 0, 0, 0, 5, NO_FLAGS, 0, 0, 0), [])

  datatype Config = Config(sourceAddr: u32, sourcePort: u16, destAddr: u32, destPort: u16)

  datatype Adapter = Adapter(config: Config, listening: bool)

  function Mirror(c: Config): Config {
    Config(c.destAddr, c.destPort, c.sourceAddr, c.sourcePort)
  }

  // ---------- wrapping ----------

  function Addressed(c: Config, s: Tcp.Segment): Tcp.Segment {
    s.(header := s.header.(sport := c.sourcePort, dport := c.destPort))
  }

  function DatagramHeader(c: Config, size: nat): Ip.Header {
    Ip.NEW_HEADER.(src := c.sourceAddr, dst := c.destAddr, len := (Ip.LENGTH + size) % 0x1_0000)
  }

  function WireSize(s: Tcp.Segment): nat {
    4 * s.header.doff + |s.payload|
  }

  function Wrap(c: Config, s: Tcp.Segment): Ip.Datagram
    requires Tcp.Serializable(s.header)
  {
    var h := DatagramHeader(c, WireSize(s));
    Ip.Datagram(h, Tcp.SerializeSegment(Ip.PseudoChecksum(h), Addressed(c, s)))
  }

  // ---------- unwrapping ----------

  datatype Unwrapped = Unwrapped(adapter: Adapter, segment: Option<Tcp.Segment>)

  /** The segment a datagram carries, if it carries one. */
  function Carried(d: Ip.Datagram): Option<Tcp.Segment> {
    if d.header.proto != Ip.PROTO_TCP then None
    else
      var r := Tcp.ParseSegment(BLANK, Ip.PseudoChecksum(d.header), d.payload);
      if r.result == NoError then Some(r.segment) else None
  }

  /** The connection a segment in a datagram belongs to, seen from its receiver. */
  function Ends(h: Ip.Header, s: Tcp.Segment): Config {
    Config(h.dst, s.header.dport, h.src, s.header.sport)
  }

  /** What is made of the segment carried, if there is one, under a header. */
  function Judge(a: Adapter, h: Ip.Header, carried: Option<Tcp.Segment>): Unwrapped {
    if !a.listening && h.dst != a.config.sourceAddr then Unwrapped(a, None)
    else if !a.listening && h.src != a.config.destAddr then Unwrapped(a, None)
    else
      match carried
      case None => Unwrapped(a, None)
      case Some(s) =>
        if s.header.dport != a.config.sourcePort then Unwrapped(a, None)
        else if a.listening then
          if s.header.flags.syn && !s.header.flags.rst then Unwrapped(Adapter(Ends(h, s), false), Some(s))
          else Unwrapped(a, None)
        else if s.header.sport != a.config.destPort then Unwrapped(a, None)
        else Unwrapped(a, Some(s))
  }

  function Unwrap(a: Adapter, d: Ip.Datagram): Unwrapped {
    Judge(a, d.header, Carried(d))
  }

  /** Whether an adapter takes a segment between these ends: any opening one while it listens, its peer's after. */
  predicate Takes(a: Adapter, ends: Config, flags: Tcp.Flags) {
    if a.listening then ends.sourcePort == a.config.sourcePort && flags.syn && !flags.rst
    else ends == a.config
  }

  /** What unwrapping does, all cases: deliver and settle on the peer, or leave everything as it was. */
  lemma UnwrapMeaning(a: Adapter, d: Ip.Datagram)
    ensures var u := Unwrap(a, d);
            && (u.segment.Some? <==> Carried(d).Some? && Takes(a, Ends(d.header, Carried(d).value), Carried(d).value.header.flags))
            && (u.segment.Some? ==> u.segment == Carried(d) && u.adapter == Adapter(Ends(d.header, u.segment.value), false))
            && (u.segment.None? ==> u.adapter == a)
  {
  }

  // ---------- across the wire ----------

  /** A wrapped segment can be put on the wire exactly when it fits the 16-bit payload length. */
  lemma WrapSerializableIff(c: Config, s: Tcp.Segment)
    requires Tcp.Serializable(s.header)
    ensures |Wrap(c, s).payload| == WireSize(s)
    ensures Ip.DatagramSerializable(Wrap(c, s)) <==> WireSize(s) <= 0xffff
  {
    var sent := Addressed(c, s);
    var sum := Ip.PseudoChecksum(DatagramHeader(c, WireSize(s)));
    Tcp.SerializedAround(sent, Tcp.SegmentChecksum(sum, sent));
    assert |Wrap(c, s).payload| == WireSize(s);
    LengthWraps(c, WireSize(s));
  }

  lemma LengthWraps(c: Config, size: nat)
    ensures Ip.PayloadLength(DatagramHeader(c, size)) == size <==> size <= 0xffff
  {
  }

  /** The datagram comes back with its addresses, protocol, length and payload. */
  lemma WrappedComesBack(c: Config, s: Tcp.Segment, before: Ip.Header)
    requires Tcp.Serializable(s.header) && Ip.DatagramSerializable(Wrap(c, s))
    ensures var d := Wrap(c, s);
            Ip.ParseDatagram(before, Ip.SerializeDatagram(d))
            == Ip.ParsedDatagram(NoError, d.(header := Ip.Sent(d.header)))
  {
    Ip.DatagramRoundTripIff(Wrap(c, s), before);
  }

  /** The receiver's pseudo-header sum is the sender's, so the segment verifies and comes back. */
  lemma CarriedBack(c: Config, s: Tcp.Segment, h: Ip.Header)
    requires Tcp.Serializable(s.header) && s.header.doff <= 15
    requires h.(cksum := 0) == DatagramHeader(c, WireSize(s))
    ensures var sum := Ip.PseudoChecksum(DatagramHeader(c, WireSize(s)));
            Carried(Ip.Datagram(h, Tcp.SerializeSegment(sum, Addressed(c, s))))
            == Some(Tcp.Sent(sum, Addressed(c, s)))
  {
    var sum := Ip.PseudoChecksum(DatagramHeader(c, WireSize(s)));
    var sent := Addressed(c, s);
    assert Ip.PseudoChecksum(h) == sum;
    Tcp.SegmentRoundTripIff(BLANK, sum, sent);
  }

  /**
   * A segment wrapped by one adapter, put on the wire, read back and unwrapped by another is delivered
   * with every field and all of its payload exactly when the other takes segments of that connection,
   * and that adapter then holds the mirrored configuration. Otherwise nothing changes.
   */
  lemma DeliveredIff(c: Config, s: Tcp.Segment, before: Ip.Header, a: Adapter)
    requires Tcp.Serializable(s.header) && s.header.doff <= 15 && WireSize(s) <= 0xffff
    ensures Ip.DatagramSerializable(Wrap(c, s))
    ensures var r := Ip.ParseDatagram(before, Ip.SerializeDatagram(Wrap(c, s)));
            var sum := Ip.PseudoChecksum(DatagramHeader(c, WireSize(s)));
            && r.result == NoError
            && Unwrap(a, r.dgram) ==
               if Takes(a, Mirror(c), s.header.flags)
               then Unwrapped(Adapter(Mirror(c), false), Some(Tcp.Sent(sum, Addressed(c, s))))
               else Unwrapped(a, None)
  {
    WrapSerializableIff(c, s);
    WrappedComesBack(c, s, before);
    var d := Wrap(c, s);
    var h := Ip.Sent(d.header);
    CarriedBack(c, s, h);
    UnwrapMeaning(a, Ip.Datagram(h, d.payload));
  }

  // ---------- runs ----------

  /** The adapter after a number of datagrams, and the ends of every segment it delivered. */
  function Run(a: Adapter, ds: seq<Ip.Datagram>): (Adapter, seq<Config>) {
    if ds == [] then (a, [])
    else
      var (b, ends) := Run(a, ds[..|ds| - 1]);
      var d := ds[|ds| - 1];
      var u := Unwrap(b, d);
      (u.adapter, if u.segment.Some? then ends + [Ends(d.header, u.segment.value)] else ends)
  }

  /** Whatever datagrams arrive, all segments delivered belong to one connection. */
  lemma {:induction false} OnePeer(a: Adapter, ds: seq<Ip.Datagram>)
    ensures var (b, ends) := Run(a, ds);
            && (forall e :: e in ends ==> e == b.config)
            && (ends == [] ==> b == a)
            && (ends != [] ==> !b.listening)
            && (!a.listening ==> b == a)
    decreases |ds|
  {
    if ds != [] {
      var init, d := ds[..|ds| - 1], ds[|ds| - 1];
      OnePeer(a, init);
      UnwrapMeaning(Run(a, init).0, d);
    }
  }

  // ---------- step by step ----------

  class TCPOverIPv4Adapter {
    var config: Config
    var listening: bool

    ghost function Value(): Adapter
      reads this
    {
      Adapter(config, listening)
    }

    constructor (config: Config, listening: bool)
      ensures Value() == Adapter(config, listening)
    {
      this.config, this.listening := config, listening;
    }

    method WrapTcpInIp(s: Tcp.Segment) returns (d: Ip.Datagram, addressed: Tcp.Segment)
      requires Tcp.Serializable(s.header)
      ensures d == Wrap(config, s) && addressed == Addressed(config, s)
    {
      addressed := s.(header := s.header.(sport := config.sourcePort, dport := config.destPort));
      var h := DatagramHeader(config, WireSize(s));
      var payload := Tcp.WriteSegment(Ip.PseudoChecksum(h), addressed);
      d := Ip.Datagram(h, payload);
    }

    method ParseCarried(d: Ip.Datagram) returns (s: Option<Tcp.Segment>)
      ensures s == Carried(d)
    {
      if d.header.proto != Ip.PROTO_TCP {
        return None;
      }
      var result, segment := Tcp.ReadSegment(BLANK, Ip.PseudoChecksum(d.header), d.payload);
      s := if result == NoError then Some(segment) else None;
    }

    method UnwrapTcpInIp(d: Ip.Datagram) returns (s: Option<Tcp.Segment>)
      modifies this
      ensures Unwrapped(Value(), s) == Unwrap(old(Value()), d)
    {
      if !listening && d.header.dst != config.sourceAddr {
        return None;
      }
      if !listening && d.header.src != config.destAddr {
        return None;
      }
      s := ParseCarried(d);
      if s.None? {
        return;
      }
      var h := s.value.header;
      if h.dport != config.sourcePort {
        return None;
      }
      if listening {
        if h.flags.syn && !h.flags.rst {
          config := Config(d.header.dst, config.sourcePort, d.header.src, h.sport);
          listening := false;
        } else {
          return None;
        }
      }
      if h.sport != config.destPort {
        return None;
      }
    }
  }
}
