/** The bytes on the wire, field by field at their offsets, and the checksum over the pseudo-header. */
module WireFormat {
  import opened Words
  import opened Parsing
  import opened Checksums
  import Ip = IPv4
  import Tcp = TcpWire
  import Over = TcpOverIp
  import Crossing
  import opened Segments

  /** The big-endian number of `width` bytes at an offset. */
  function Field(bytes: seq<byte>, offset: nat, width: nat): nat
    requires offset + width <= |bytes|
  {
    Decode(bytes[offset..offset + width])
  }

  /** From an offset on the bytes are these. */
  predicate At(bytes: seq<byte>, offset: nat, rest: seq<byte>) {
    offset <= |bytes| && bytes[offset..] == rest
  }

  lemma FieldAt(bytes: seq<byte>, offset: nat, width: nat, v: nat, rest: seq<byte>)
    requires At(bytes, offset, Encode(width, v) + rest) && v < Power256(width)
    ensures offset + width <= |bytes| && Field(bytes, offset, width) == v && At(bytes, offset + width, rest)
  {
    DecodeEncode(width, v);
    assert bytes[offset..][..width] == Encode(width, v);
    assert bytes[offset..][..width] == bytes[offset..offset + width];
    assert bytes[offset..][width..] == bytes[offset + width..];
  }

  // ---------- IPv4 (section 3.1 of RFC 791) ----------

  /** The first twenty bytes from `o` on are the header `h`. */
  ghost predicate IpFields(bytes: seq<byte>, o: nat, h: Ip.Header) {
    && o + 20 <= |bytes|
    && Field(bytes, o, 1) == 16 * h.ver + h.hlen
    && Field(bytes, o + 1, 1) == h.tos && Field(bytes, o + 2, 2) == h.len && Field(bytes, o + 4, 2) == h.id
    && FragmentBits(Field(bytes, o + 6, 2), h)
    && Field(bytes, o + 8, 1) == h.ttl && Field(bytes, o + 9, 1) == h.proto && Field(bytes, o + 10, 2) == h.cksum
    && Field(bytes, o + 12, 4) == h.src && Field(bytes, o + 16, 4) == h.dst
  }

  /** DF in bit 14, MF in bit 13, the fragment offset below. */
  predicate FragmentBits(f: nat, h: Ip.Header) {
    (f / 0x4000 % 2 == 1 <==> h.df) && (f / 0x2000 % 2 == 1 <==> h.mf) && f % 0x2000 == h.offset
  }

  lemma IpPart1(bytes: seq<byte>, o: nat, h: Ip.Header, rest: seq<byte>)
    requires At(bytes, o, Ip.Part1(h, rest))
    ensures o + 6 <= |bytes| && At(bytes, o + 6, rest)
    ensures Field(bytes, o, 1) == Ip.FirstByte(h) && Field(bytes, o + 1, 1) == h.tos
    ensures Field(bytes, o + 2, 2) == h.len && Field(bytes, o + 4, 2) == h.id
  {
    Powers();
    FieldAt(bytes, o, 1, Ip.FirstByte(h), Encode(1, h.tos) + (Encode(2, h.len) + (Encode(2, h.id) + rest)));
    FieldAt(bytes, o + 1, 1, h.tos, Encode(2, h.len) + (Encode(2, h.id) + rest));
    FieldAt(bytes, o + 2, 2, h.len, Encode(2, h.id) + rest);
    FieldAt(bytes, o + 4, 2, h.id, rest);
  }

  lemma IpPart2(bytes: seq<byte>, o: nat, h: Ip.Header, rest: seq<byte>)
    requires At(bytes, o, Ip.Part2(h, rest))
    ensures o + 4 <= |bytes| && At(bytes, o + 4, rest)
    ensures Field(bytes, o, 2) == Ip.FlagsAndOffset(h) && Field(bytes, o + 2, 1) == h.ttl && Field(bytes, o + 3, 1) == h.proto
  {
    Powers();
    FieldAt(bytes, o, 2, Ip.FlagsAndOffset(h), Encode(1, h.ttl) + (Encode(1, h.proto) + rest));
    FieldAt(bytes, o + 2, 1, h.ttl, Encode(1, h.proto) + rest);
    FieldAt(bytes, o + 3, 1, h.proto, rest);
  }

  lemma IpPart3(bytes: seq<byte>, o: nat, h: Ip.Header, rest: seq<byte>)
    requires At(bytes, o, Encode(2, h.cksum) + Ip.Part3(h, rest))
    ensures o + 10 <= |bytes| && At(bytes, o + 10, rest)
    ensures Field(bytes, o, 2) == h.cksum && Field(bytes, o + 2, 4) == h.src && Field(bytes, o + 6, 4) == h.dst
  {
    Powers();
    FieldAt(bytes, o, 2, h.cksum, Ip.Part3(h, rest));
    FieldAt(bytes, o + 2, 4, h.src, Encode(4, h.dst) + rest);
    FieldAt(bytes, o + 6, 4, h.dst, rest);
  }

  /** Every field of a header that the wire can hold is where the standard puts it. */
  lemma IpLayout(bytes: seq<byte>, o: nat, h: Ip.Header, rest: seq<byte>)
    requires At(bytes, o, Ip.Layout(h, rest)) && Ip.Fits(h)
    ensures IpFields(bytes, o, h) && At(bytes, o + 20, rest)
  {
    IpPart1(bytes, o, h, Ip.Part2(h, Encode(2, h.cksum) + Ip.Part3(h, rest)));
    IpPart2(bytes, o + 6, h, Encode(2, h.cksum) + Ip.Part3(h, rest));
    IpPart3(bytes, o + 10, h, rest);
    FragmentBitsOf(h);
    FirstByteIs(h);
  }

  lemma FragmentBitsOf(h: Ip.Header)
    requires h.offset < 0x2000
    ensures FragmentBits(Ip.FlagsAndOffset(h), h)
  {
  }

  lemma FirstByteIs(h: Ip.Header)
    requires Ip.Fits(h)
    ensures Ip.FirstByte(h) == 16 * h.ver + h.hlen
  {
  }

  // ---------- TCP (section 3.1 of RFC 793) ----------

  ghost predicate TcpFields(bytes: seq<byte>, o: nat, h: Tcp.Header) {
    && o + 20 <= |bytes|
    && Field(bytes, o, 2) == h.sport && Field(bytes, o + 2, 2) == h.dport
    && Field(bytes, o + 4, 4) == h.seqno && Field(bytes, o + 8, 4) == h.ackno
    && Field(bytes, o + 12, 1) == 16 * h.doff
    && Field(bytes, o + 13, 1) < 64 && FlagBits(Field(bytes, o + 13, 1), h.flags)
    && Field(bytes, o + 14, 2) == h.win && Field(bytes, o + 16, 2) == h.cksum && Field(bytes, o + 18, 2) == h.uptr
  }

  /** URG, ACK, PSH, RST, SYN and FIN from bit 5 down to bit 0. */
  predicate FlagBits(b: nat, f: Tcp.Flags) {
    && (b / 32 % 2 == 1 <==> f.urg) && (b / 16 % 2 == 1 <==> f.ack) && (b / 8 % 2 == 1 <==> f.psh)
    && (b / 4 % 2 == 1 <==> f.rst) && (b / 2 % 2 == 1 <==> f.syn) && (b % 2 == 1 <==> f.fin)
  }

  lemma TcpPart1(bytes: seq<byte>, o: nat, h: Tcp.Header, rest: seq<byte>)
    requires At(bytes, o, Tcp.Part1(h, rest))
    ensures o + 12 <= |bytes| && At(bytes, o + 12, rest)
    ensures Field(bytes, o, 2) == h.sport && Field(bytes, o + 2, 2) == h.dport
    ensures Field(bytes, o + 4, 4) == h.seqno && Field(bytes, o + 8, 4) == h.ackno
  {
    Powers();
    FieldAt(bytes, o, 2, h.sport, Encode(2, h.dport) + (Encode(4, h.seqno) + (Encode(4, h.ackno) + rest)));
    FieldAt(bytes, o + 2, 2, h.dport, Encode(4, h.seqno) + (Encode(4, h.ackno) + rest));
    FieldAt(bytes, o + 4, 4, h.seqno, Encode(4, h.ackno) + rest);
    FieldAt(bytes, o + 8, 4, h.ackno, rest);
  }

  lemma TcpPart2(bytes: seq<byte>, o: nat, h: Tcp.Header, rest: seq<byte>)
    requires At(bytes, o, Tcp.Part2(h, rest))
    ensures o + 4 <= |bytes| && At(bytes, o + 4, rest)
    ensures Field(bytes, o, 1) == Tcp.OffsetByte(h) && Field(bytes, o + 1, 1) == Tcp.FlagByte(h.flags)
    ensures Field(bytes, o + 2, 2) == h.win
  {
    Powers();
    FieldAt(bytes, o, 1, Tcp.OffsetByte(h), Encode(1, Tcp.FlagByte(h.flags)) + (Encode(2, h.win) + rest));
    FieldAt(bytes, o + 1, 1, Tcp.FlagByte(h.flags), Encode(2, h.win) + rest);
    FieldAt(bytes, o + 2, 2, h.win, rest);
  }

  lemma TcpPart3(bytes: seq<byte>, o: nat, h: Tcp.Header, rest: seq<byte>)
    requires At(bytes, o, Encode(2, h.cksum) + (Encode(2, h.uptr) + rest))
    ensures o + 4 <= |bytes| && At(bytes, o + 4, rest)
    ensures Field(bytes, o, 2) == h.cksum && Field(bytes, o + 2, 2) == h.uptr
  {
    Powers();
    FieldAt(bytes, o, 2, h.cksum, Encode(2, h.uptr) + rest);
    FieldAt(bytes, o + 2, 2, h.uptr, rest);
  }

  /** Every field of a header that the wire can hold is where the standard puts it. */
  lemma TcpLayout(bytes: seq<byte>, o: nat, h: Tcp.Header, rest: seq<byte>)
    requires At(bytes, o, Tcp.Layout(h, rest)) && h.doff <= 15
    ensures TcpFields(bytes, o, h) && At(bytes, o + 20, rest)
  {
    var tail := Encode(2, h.cksum) + (Encode(2, h.uptr) + rest);
    TcpPart1(bytes, o, h, Tcp.Part2(h, tail));
    TcpPart2(bytes, o + 12, h, tail);
    TcpPart3(bytes, o + 16, h, rest);
    FlagBitsOf(h.flags);
    OffsetIs(h);
  }

  lemma OffsetIs(h: Tcp.Header)
    requires h.doff <= 15
    ensures Tcp.OffsetByte(h) == 16 * h.doff
  {
  }

  lemma FlagBitsOf(f: Tcp.Flags)
    ensures Tcp.FlagByte(f) < 64 && FlagBits(Tcp.FlagByte(f), f)
  {
    Tcp.FlagsBack(f);
  }

  // ---------- the pseudo-header ----------

  /** Addresses, a zero byte, the protocol and the length of the segment (section 3.1 of RFC 793). */
  function PseudoHeader(h: Ip.Header): seq<byte> {
    Encode(4, h.src) + (Encode(4, h.dst) + (Encode(1, 0) + (Encode(1, h.proto) + Encode(2, Ip.PayloadLength(h)))))
  }

  lemma EncodeHalves(v: u32)
    ensures Encode(4, v) == Encode(2, v / 0x1_0000) + Encode(2, v % 0x1_0000)
  {
    assert Encode(4, v) == Encode(3, v / 256) + [(v % 256) as byte];
    assert Encode(3, v / 256) == Encode(2, v / 256 / 256) + [(v / 256 % 256) as byte];
    assert v / 256 / 256 == v / 0x1_0000;
    LowHalf(v % 0x1_0000);
    assert v % 0x1_0000 / 256 == v / 256 % 256 && v % 0x1_0000 % 256 == v % 256;
  }

  lemma LowHalf(w: u16)
    ensures Encode(2, w) == [(w / 256) as byte, (w % 256) as byte]
  {
  }

  /** A 32-bit field contributes its two halves. */
  lemma WordSumWide(v: u32)
    ensures WordSum(Encode(4, v), false) == v / 0x1_0000 + v % 0x1_0000
  {
    EncodeHalves(v);
    WordSumEven(Encode(2, v / 0x1_0000), Encode(2, v % 0x1_0000));
    WordSumField(v / 0x1_0000);
    WordSumField(v % 0x1_0000);
  }

  lemma ProtocolWord(proto: u8, rest: seq<byte>)
    ensures Encode(1, 0) + (Encode(1, proto) + rest) == Encode(2, proto) + rest
  {
    LowHalf(proto);
    OneByte(0);
    OneByte(proto);
    TwoThen(proto as byte, rest);
  }

  lemma OneByte(v: u8)
    ensures Encode(1, v) == [v as byte]
  {
  }

  lemma TwoThen(x: byte, rest: seq<byte>)
    ensures [0] + ([x] + rest) == [0, x] + rest
  {
  }

  /** What is computed from the fields of the IPv4 header is the sum of the words of the pseudo-header. */
  lemma PseudoIsSum(h: Ip.Header)
    ensures Ip.PseudoChecksum(h) == WordSum(PseudoHeader(h), false) && |PseudoHeader(h)| == 12
  {
    var len := Encode(2, Ip.PayloadLength(h));
    ProtocolWord(h.proto, len);
    WordSumEven(Encode(2, h.proto), len);
    WordSumEven(Encode(4, h.dst), Encode(2, h.proto) + len);
    WordSumEven(Encode(4, h.src), Encode(4, h.dst) + (Encode(2, h.proto) + len));
    WordSumWide(h.src);
    WordSumWide(h.dst);
    WordSumField(h.proto);
    WordSumField(Ip.PayloadLength(h));
  }

  /** So a checksum started from it is the checksum over pseudo-header and segment. */
  lemma PseudoCovers(h: Ip.Header, data: seq<byte>)
    ensures Checksum(Ip.PseudoChecksum(h), data) == Checksum(0, PseudoHeader(h) + data)
  {
    PseudoIsSum(h);
    WordSumEven(PseudoHeader(h), data);
    SameChecksum(Ip.PseudoChecksum(h), data, PseudoHeader(h) + data);
  }

  lemma SameChecksum(initial: nat, data: seq<byte>, all: seq<byte>)
    requires WordSum(all, false) == initial + WordSum(data, false)
    ensures Checksum(initial, data) == Checksum(0, all)
  {
    assert 0 + WordSum(all, false) == initial + WordSum(data, false);
  }

  // ---------- a segment in its datagram ----------

  /** The segment with the connection's ports and no checksum yet. */
  function Unsummed(c: Over.Config, s: Tcp.Segment): seq<byte>
    requires Tcp.Serializable(s.header)
  {
    Tcp.Serialize(s.header.(sport := c.sourcePort, dport := c.destPort, cksum := 0)) + s.payload
  }

  /** The pseudo-header of a connection's segment of `size` bytes. */
  function PseudoOf(c: Over.Config, size: u16): seq<byte> {
    Encode(4, c.sourceAddr) + (Encode(4, c.destAddr) + (Encode(1, 0) + (Encode(1, 6) + Encode(2, size))))
  }

  /** The TCP header as it is sent: ports of the connection, and the checksum over pseudo-header and segment. */
  function SentHeader(c: Over.Config, s: Tcp.Segment): Tcp.Header
    requires Tcp.Serializable(s.header) && Over.WireSize(s) <= 0xffff
  {
    s.header.(sport := c.sourcePort, dport := c.destPort,
              cksum := Checksum(0, PseudoOf(c, Over.WireSize(s)) + Unsummed(c, s)))
  }

  lemma PseudoOfWrapped(c: Over.Config, s: Tcp.Segment)
    requires Tcp.Serializable(s.header) && Over.WireSize(s) <= 0xffff
    ensures var h := Over.DatagramHeader(c, Over.WireSize(s));
            && PseudoHeader(h) == PseudoOf(c, Over.WireSize(s))
            && Tcp.Sent(Ip.PseudoChecksum(h), Over.Addressed(c, s)).header == SentHeader(c, s)
  {
    var h := Over.DatagramHeader(c, Over.WireSize(s));
    Over.LengthWraps(c, Over.WireSize(s));
    PseudoCovers(h, Unsummed(c, s));
  }

  /**
   * What is on the wire for a segment of a connection: an IPv4 header with the connection's addresses, the TCP
   * protocol and the length in 16 bits, its checksum verifying; then a TCP header with the connection's ports, the
   * segment's fields and the checksum over pseudo-header and segment, which verifies too; then the payload.
   */
  lemma WrappedBytes(c: Over.Config, s: Tcp.Segment)
    requires Tcp.Serializable(s.header) && s.header.doff <= 15 && Over.WireSize(s) <= 0xffff
    ensures Ip.DatagramSerializable(Over.Wrap(c, s))
    ensures var bytes := Ip.SerializeDatagram(Over.Wrap(c, s));
            && |bytes| == 20 + Over.WireSize(s)
            && Field(bytes, 0, 1) == 0x45 && Field(bytes, 2, 2) == |bytes| % 0x1_0000 && Field(bytes, 9, 1) == 6
            && Field(bytes, 12, 4) == c.sourceAddr && Field(bytes, 16, 4) == c.destAddr
            && Checksum(0, bytes[..20]) == 0
            && TcpFields(bytes, 20, SentHeader(c, s)) && bytes[20 + 4 * s.header.doff..] == s.payload
            && Checksum(0, PseudoOf(c, Over.WireSize(s)) + bytes[20..]) == 0
  {
    Over.WrapSerializableIff(c, s);
    DatagramBytes(Over.Wrap(c, s));
    WrappedTcp(c, s, Over.Wrap(c, s).payload, Ip.SerializeDatagram(Over.Wrap(c, s)));
  }

  lemma WrappedTcp(c: Over.Config, s: Tcp.Segment, payload: seq<byte>, bytes: seq<byte>)
    requires Tcp.Serializable(s.header) && s.header.doff <= 15 && Over.WireSize(s) <= 0xffff
    requires payload == Over.Wrap(c, s).payload && |bytes| == 20 + |payload| && bytes[20..] == payload
    ensures TcpFields(bytes, 20, SentHeader(c, s))
    ensures 20 + 4 * s.header.doff <= |bytes| && bytes[20 + 4 * s.header.doff..] == s.payload
    ensures Checksum(0, PseudoOf(c, Over.WireSize(s)) + bytes[20..]) == 0
  {
    var h := Over.DatagramHeader(c, Over.WireSize(s));
    PseudoOfWrapped(c, s);
    SegmentBytes(c, s, payload);
    TcpFieldsShift(bytes, payload, SentHeader(c, s));
    PseudoCovers(h, payload);
    Tcp.SegmentChecksumVerifies(Ip.PseudoChecksum(h), Over.Addressed(c, s));
    assert bytes[20 + 4 * s.header.doff..] == payload[4 * s.header.doff..];
  }

  /** So every segment of a connection is on the wire with its numbers, flags, window and bytes in their places. */
  lemma SegmentOnWire(c: Over.Config, seg: Segment)
    requires |seg.payload| <= MAX_PAYLOAD_SIZE
    ensures var s := Crossing.ToWire(seg);
            && Ip.DatagramSerializable(Over.Wrap(c, s))
            && var bytes := Ip.SerializeDatagram(Over.Wrap(c, s)); var flags := Tcp.Flags(false, seg.ack, false, seg.rst, seg.syn, seg.fin);
            && |bytes| == 40 + |seg.payload| && bytes[40..] == seg.payload
            && Field(bytes, 12, 4) == c.sourceAddr && Field(bytes, 16, 4) == c.destAddr
            && Field(bytes, 20, 2) == c.sourcePort && Field(bytes, 22, 2) == c.destPort
            && Field(bytes, 24, 4) == seg.seqno && Field(bytes, 28, 4) == seg.ackno
            && FlagBits(Field(bytes, 33, 1), flags) && Field(bytes, 34, 2) == seg.win
  {
    WrappedBytes(c, Crossing.ToWire(seg));
  }

  // ---------- reading ----------

  lemma SkipAt(bytes: seq<byte>, offset: nat, width: nat)
    requires offset + width <= |bytes|
    ensures var p := Parser(bytes[offset..], NoError);
            Peek(p, width) == Field(bytes, offset, width) && Skip(p, width) == Parser(bytes[offset + width..], NoError)
  {
    assert bytes[offset..][..width] == bytes[offset..offset + width];
    assert bytes[offset..][width..] == bytes[offset + width..];
  }

  /** Whatever the bytes are, each field is read at its offset; reserved bits are ignored. */
  lemma TcpReadsAt(bytes: seq<byte>)
    requires |bytes| >= 20
    ensures var h := Tcp.ReadFields(Parser(bytes, NoError)).header;
            && h.sport == Field(bytes, 0, 2) && h.dport == Field(bytes, 2, 2)
            && h.seqno == Field(bytes, 4, 4) && h.ackno == Field(bytes, 8, 4)
            && h.doff == Field(bytes, 12, 1) / 16 && FlagBits(Field(bytes, 13, 1), h.flags)
            && h.win == Field(bytes, 14, 2) && h.cksum == Field(bytes, 16, 2) && h.uptr == Field(bytes, 18, 2)
  {
    assert bytes[0..] == bytes;
    SkipAt(bytes, 0, 2);
    SkipAt(bytes, 2, 2);
    SkipAt(bytes, 4, 4);
    SkipAt(bytes, 8, 4);
    SkipAt(bytes, 12, 1);
    SkipAt(bytes, 13, 1);
    SkipAt(bytes, 14, 2);
    SkipAt(bytes, 16, 2);
    SkipAt(bytes, 18, 2);
  }

  lemma IpReadsAt(bytes: seq<byte>)
    requires |bytes| >= 20
    ensures var h := Ip.ReadFields(Parser(bytes, NoError)).header;
            && h.ver == Field(bytes, 0, 1) / 16 && h.hlen == Field(bytes, 0, 1) % 16
            && h.tos == Field(bytes, 1, 1) && h.len == Field(bytes, 2, 2) && h.id == Field(bytes, 4, 2)
            && FragmentBits(Field(bytes, 6, 2), h)
            && h.ttl == Field(bytes, 8, 1) && h.proto == Field(bytes, 9, 1) && h.cksum == Field(bytes, 10, 2)
            && h.src == Field(bytes, 12, 4) && h.dst == Field(bytes, 16, 4)
  {
    assert bytes[0..] == bytes;
    SkipAt(bytes, 0, 1);
    SkipAt(bytes, 1, 1);
    SkipAt(bytes, 2, 2);
    SkipAt(bytes, 4, 2);
    SkipAt(bytes, 6, 2);
    SkipAt(bytes, 8, 1);
    SkipAt(bytes, 9, 1);
    SkipAt(bytes, 10, 2);
    SkipAt(bytes, 12, 4);
    SkipAt(bytes, 16, 4);
  }

  /** Which datagrams carry a segment: TCP ones whose checksum over the pseudo-header verifies, with room for the header. */
  lemma CarriedIff(d: Ip.Datagram)
    ensures Over.Carried(d).Some?
       <==> && d.header.proto == 6 && Checksum(0, PseudoHeader(d.header) + d.payload) == 0
            && 20 <= |d.payload| && Tcp.DataStart(Tcp.ReadFields(Parser(d.payload, NoError)).header) <= |d.payload|
  {
    PseudoCovers(d.header, d.payload);
    Tcp.SegmentAcceptedIff(Over.BLANK, Ip.PseudoChecksum(d.header), d.payload);
  }

  // ---------- steps ----------

  lemma DatagramBytes(d: Ip.Datagram)
    requires Ip.DatagramSerializable(d) && Ip.Fits(d.header) && d.header.hlen == 5
    ensures var bytes := Ip.SerializeDatagram(d);
            && |bytes| == 20 + |d.payload| && IpFields(bytes, 0, Ip.Sent(d.header))
            && bytes[20..] == d.payload && Checksum(0, bytes[..20]) == 0
  {
    var bytes, h := Ip.SerializeDatagram(d), Ip.Sent(d.header);
    assert Zeros(0) == [];
    Ip.LayoutAppend(h, [], d.payload);
    assert [] + d.payload == d.payload;
    assert bytes[0..] == bytes;
    IpLayout(bytes, 0, h, d.payload);
    Ip.HeaderChecksumVerifies(d.header);
    assert bytes[..20] == Ip.Serialize(h);
  }

  lemma SegmentBytes(c: Over.Config, s: Tcp.Segment, payload: seq<byte>)
    requires Tcp.Serializable(s.header) && s.header.doff <= 15 && payload == Over.Wrap(c, s).payload
    ensures var sum := Ip.PseudoChecksum(Over.Wrap(c, s).header);
            && TcpFields(payload, 0, Tcp.Sent(sum, Over.Addressed(c, s)).header)
            && 4 * s.header.doff <= |payload| && payload[4 * s.header.doff..] == s.payload
  {
    var sum := Ip.PseudoChecksum(Over.Wrap(c, s).header);
    var sent := Tcp.Sent(sum, Over.Addressed(c, s));
    var zeros := Zeros(4 * s.header.doff - Tcp.LENGTH);
    Tcp.LayoutAppend(sent.header, zeros, s.payload);
    assert payload[0..] == payload;
    TcpLayout(payload, 0, sent.header, zeros + s.payload);
    assert |Tcp.Serialize(sent.header)| == 4 * s.header.doff;
  }

  lemma TcpFieldsShift(bytes: seq<byte>, payload: seq<byte>, h: Tcp.Header)
    requires |bytes| == 20 + |payload| && bytes[20..] == payload && TcpFields(payload, 0, h)
    ensures TcpFields(bytes, 20, h)
  {
    FieldShift(bytes, payload, 0, 2);
    FieldShift(bytes, payload, 2, 2);
    FieldShift(bytes, payload, 4, 4);
    FieldShift(bytes, payload, 8, 4);
    FieldShift(bytes, payload, 12, 1);
    FieldShift(bytes, payload, 13, 1);
    FieldShift(bytes, payload, 14, 2);
    FieldShift(bytes, payload, 16, 2);
    FieldShift(bytes, payload, 18, 2);
  }

  lemma FieldShift(bytes: seq<byte>, payload: seq<byte>, offset: nat, width: nat)
    requires |bytes| == 20 + |payload| && bytes[20..] == payload && offset + width <= |payload|
    ensures Field(bytes, 20 + offset, width) == Field(payload, offset, width)
  {
    assert bytes[20 + offset..20 + offset + width] == payload[offset..offset + width];
  }
}
