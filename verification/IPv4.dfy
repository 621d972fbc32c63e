/** IPv4 headers and datagrams on the wire (section 3.1 of RFC 791). */
module IPv4 {
  import opened Words
  import opened Parsing
  import opened Checksums

  const LENGTH: nat := 20

  datatype Header = Header(
    ver: u8, hlen: u8, tos: u8, len: u16, id: u16, df: bool, mf: bool, offset: u16,
    ttl: u8, proto: u8, cksum: u16, src: u32, dst: u32)

  const PROTO_TCP: u8 := 6
  const DEFAULT_TTL: u8 := 128

  /** A header before anything is set or parsed. */
  const NEW_HEADER := Header(4, 5, 0, 0, 0, true, false, 0, DEFAULT_TTL, PROTO_TCP, 0, 0, 0)

  /** A 16-bit difference: it wraps when the length field does not cover the header. */
  function PayloadLength(h: Header): u16 {
    if 4 * h.hlen <= h.len then h.len - 4 * h.hlen else h.len - 4 * h.hlen + 0x1_0000
  }

  /** What the addresses, the protocol and the length contribute to a TCP checksum. */
  function PseudoChecksum(h: Header): (sum: nat)
    ensures sum <= 0xff_ffff
  {
    h.src / 0x1_0000 + h.src % 0x1_0000 + h.dst / 0x1_0000 + h.dst % 0x1_0000 + h.proto + PayloadLength(h)
  }

  // ---------- layout ----------

  function FirstByte(h: Header): u8 {
    (h.ver * 16) % 0x100 + h.hlen % 16
  }

  function FlagsAndOffset(h: Header): u16 {
    (if h.df then 0x4000 else 0) + (if h.mf then 0x2000 else 0) + h.offset % 0x2000
  }

  /** The fields up to the fragment offset, those up to the checksum, and the addresses, each before `rest`. */
  function Part1(h: Header, rest: seq<byte>): seq<byte> {
    Encode(1, FirstByte(h)) + (Encode(1, h.tos) + (Encode(2, h.len) + (Encode(2, h.id) + rest)))
  }

  function Part2(h: Header, rest: seq<byte>): seq<byte> {
    Encode(2, FlagsAndOffset(h)) + (Encode(1, h.ttl) + (Encode(1, h.proto) + rest))
  }

  function Part3(h: Header, rest: seq<byte>): seq<byte> {
    Encode(4, h.src) + (Encode(4, h.dst) + rest)
  }

  function Layout(h: Header, rest: seq<byte>): seq<byte> {
    Part1(h, Part2(h, Encode(2, h.cksum) + Part3(h, rest)))
  }

  predicate Serializable(h: Header) {
    h.ver == 4 && 4 * h.hlen >= LENGTH
  }

  function Serialize(h: Header): seq<byte>
    requires Serializable(h)
  {
    Layout(h, Zeros(4 * h.hlen - LENGTH))
  }

  lemma Part1Append(h: Header, x: seq<byte>, y: seq<byte>)
    ensures Part1(h, x) + y == Part1(h, x + y) && |Part1(h, x)| == 6 + |x|
  {
  }

  lemma Part2Append(h: Header, x: seq<byte>, y: seq<byte>)
    ensures Part2(h, x) + y == Part2(h, x + y) && |Part2(h, x)| == 4 + |x|
  {
    assert Encode(1, h.proto) + x + y == Encode(1, h.proto) + (x + y);
    var x1 := Encode(1, h.proto) + x;
    assert Encode(1, h.ttl) + x1 + y == Encode(1, h.ttl) + (x1 + y);
  }

  lemma Part3Append(h: Header, x: seq<byte>, y: seq<byte>)
    ensures Part3(h, x) + y == Part3(h, x + y) && |Part3(h, x)| == 8 + |x|
  {
  }

  lemma LayoutAppend(h: Header, x: seq<byte>, y: seq<byte>)
    ensures Layout(h, x) + y == Layout(h, x + y) && |Layout(h, x)| == LENGTH + |x|
  {
    var c := Encode(2, h.cksum);
    Part3Append(h, x, y);
    assert c + Part3(h, x) + y == c + (Part3(h, x) + y);
    Part2Append(h, c + Part3(h, x), y);
    Part1Append(h, Part2(h, c + Part3(h, x)), y);
  }

  /** The ten bytes before the checksum field. */
  function Front(h: Header): seq<byte> {
    Part1(h, Part2(h, []))
  }

  /** The checksum field sits behind ten bytes, and nothing around it depends on it. */
  lemma LayoutAround(h: Header, c: u16, rest: seq<byte>)
    ensures Layout(h.(cksum := c), rest) == Front(h) + (Encode(2, c) + Part3(h, rest))
    ensures |Front(h)| == 10 && |Part3(h, rest)| == 8 + |rest|
  {
    var tail := Encode(2, c) + Part3(h, rest);
    PartsIgnore(h, c, Part2(h, tail), tail, rest);
    Part2Append(h, [], tail);
    Part1Append(h, Part2(h, []), tail);
    Part3Append(h, rest, []);
    assert [] + tail == tail;
  }

  lemma PartsIgnore(h: Header, c: u16, x: seq<byte>, y: seq<byte>, z: seq<byte>)
    ensures var g := h.(cksum := c); Part1(g, x) == Part1(h, x) && Part2(g, y) == Part2(h, y) && Part3(g, z) == Part3(h, z)
  {
  }

  // ---------- reading back ----------

  datatype Read = Read(header: Header, parser: Parser)

  /** The fixed fields, one after the other. */
  function ReadFields(p: Parser): Read {
    var first := U8(p);
    var p1 := Skip(p, 1);
    var p2 := Skip(p1, 1);
    var p3 := Skip(p2, 2);
    var p4 := Skip(p3, 2);
    var fo := U16(p4);
    var p5 := Skip(p4, 2);
    var p6 := Skip(p5, 1);
    var p7 := Skip(p6, 1);
    var p8 := Skip(p7, 2);
    var p9 := Skip(p8, 4);
    Read(Header(first / 16, first % 16, U8(p1), U16(p2), U16(p3),
                (fo / 0x4000) % 2 == 1, (fo / 0x2000) % 2 == 1, fo % 0x2000,
                U8(p5), U8(p6), U16(p7), U32(p8), U32(p9)),
         Skip(p9, 4))
  }

  /** What four bits of header length and thirteen bits of offset keep of a header. */
  function OnWire(h: Header): Header {
    h.(hlen := h.hlen % 16, offset := h.offset % 0x2000)
  }

  lemma FlagsBack(h: Header)
    requires h.ver == 4
    ensures FirstByte(h) / 16 == h.ver && FirstByte(h) % 16 == h.hlen % 16
    ensures var fo := FlagsAndOffset(h);
            && ((fo / 0x4000) % 2 == 1 <==> h.df)
            && ((fo / 0x2000) % 2 == 1 <==> h.mf)
            && fo % 0x2000 == h.offset % 0x2000
  {
  }

  lemma ReadPart1(h: Header, rest: seq<byte>)
    ensures var p := Parser(Part1(h, rest), NoError);
            var p1 := Skip(p, 1); var p2 := Skip(p1, 1); var p3 := Skip(p2, 2);
            && U8(p) == FirstByte(h) && U8(p1) == h.tos && U16(p2) == h.len && U16(p3) == h.id
            && Skip(p3, 2) == Parser(rest, NoError)
  {
    ReadU8(FirstByte(h), Encode(1, h.tos) + (Encode(2, h.len) + (Encode(2, h.id) + rest)));
    ReadU8(h.tos, Encode(2, h.len) + (Encode(2, h.id) + rest));
    ReadU16(h.len, Encode(2, h.id) + rest);
    ReadU16(h.id, rest);
  }

  lemma ReadPart2(h: Header, rest: seq<byte>)
    ensures var p := Parser(Part2(h, rest), NoError);
            var p1 := Skip(p, 2); var p2 := Skip(p1, 1);
            && U16(p) == FlagsAndOffset(h) && U8(p1) == h.ttl && U8(p2) == h.proto
            && Skip(p2, 1) == Parser(rest, NoError)
  {
    ReadU16(FlagsAndOffset(h), Encode(1, h.ttl) + (Encode(1, h.proto) + rest));
    ReadU8(h.ttl, Encode(1, h.proto) + rest);
    ReadU8(h.proto, rest);
  }

  lemma ReadPart3(h: Header, rest: seq<byte>)
    ensures var p := Parser(Part3(h, rest), NoError);
            U32(p) == h.src && U32(Skip(p, 4)) == h.dst && Skip(Skip(p, 4), 4) == Parser(rest, NoError)
  {
    ReadU32(h.src, Encode(4, h.dst) + rest);
    ReadU32(h.dst, rest);
  }

  /** Every field comes back as far as the wire holds it. */
  lemma ReadFieldsBack(h: Header, rest: seq<byte>)
    requires h.ver == 4
    ensures ReadFields(Parser(Layout(h, rest), NoError)) == Read(OnWire(h), Parser(rest, NoError))
  {
    FlagsBack(h);
    var tail := Encode(2, h.cksum) + Part3(h, rest);
    ReadPart1(h, Part2(h, tail));
    ReadPart2(h, tail);
    ReadU16(h.cksum, Part3(h, rest));
    ReadPart3(h, rest);
  }

  lemma FieldsOf(h: Header, rest: seq<byte>, buffer: seq<byte>)
    requires h.ver == 4 && buffer == Layout(h, rest)
    ensures ReadFields(Parser(buffer, NoError)).header == OnWire(h)
  {
    ReadFieldsBack(h, rest);
  }

  /** The fixed fields take twenty bytes. */
  lemma FieldsLength(p: Parser)
    requires p.error.NoError?
    ensures var q := ReadFields(p).parser;
            && (q.error.NoError? <==> LENGTH <= |p.buffer|)
            && (q.error.NoError? ==> q == Parser(p.buffer[LENGTH..], NoError))
  {
  }

  // ---------- header parsing ----------

  datatype Parsed = Parsed(result: ParseResult, header: Header, parser: Parser)

  /** The checks once the fields `f` are read and `q` is left of the original bytes. */
  function Judge(original: seq<byte>, f: Header, q: Parser): Parsed {
    var size := |original|;
    if size < 4 * f.hlen then Parsed(PacketTooShort, f, q)
    else if f.ver != 4 then Parsed(WrongIPVersion, f, q)
    else if f.hlen < 5 then Parsed(HeaderTooShort, f, q)
    else if size != f.len then Parsed(TruncatedPacket, f, q)
    else
      var s := Skip(q, 4 * f.hlen - LENGTH);
      if !s.error.NoError? then Parsed(s.error, f, s)
      else if Checksum(0, original[..4 * f.hlen]) != 0 then Parsed(BadChecksum, f, s)
      else Parsed(NoError, f, s)
  }

  /** Parses into a header that so far holds `h`; a buffer too short for a header leaves it as it is. */
  function Parse(h: Header, p: Parser): Parsed {
    if |p.buffer| < LENGTH then Parsed(PacketTooShort, h, p)
    else var Read(f, q) := ReadFields(p); Judge(p.buffer, f, q)
  }

  // ---------- datagrams ----------

  datatype Datagram = Datagram(header: Header, payload: seq<byte>)

  datatype ParsedDatagram = ParsedDatagram(result: ParseResult, dgram: Datagram)

  /** The result of parsing the header is not looked at; only the length of the payload is. */
  function ParseDatagram(h: Header, buffer: seq<byte>): ParsedDatagram {
    var r := Parse(h, Parser(buffer, NoError));
    var d := Datagram(r.header, r.parser.buffer);
    if |d.payload| != PayloadLength(d.header) then ParsedDatagram(PacketTooShort, d)
    else ParsedDatagram(r.parser.error, d)
  }

  /** The source throws on a payload of the wrong size, a wrong version or a header too short. */
  predicate DatagramSerializable(d: Datagram) {
    |d.payload| == PayloadLength(d.header) && Serializable(d.header)
  }

  function HeaderChecksum(h: Header): u16
    requires Serializable(h)
  {
    Checksum(0, Serialize(h.(cksum := 0)))
  }

  function SerializeDatagram(d: Datagram): seq<byte>
    requires DatagramSerializable(d)
  {
    Serialize(Sent(d.header)) + d.payload
  }

  // ---------- acceptance ----------

  /** The checks on the fields of a buffer of `size` bytes, all but the checksum. */
  predicate Sound(h: Header, size: nat) {
    h.ver == 4 && 5 <= h.hlen && 4 * h.hlen <= size && size == h.len
  }

  lemma ParseLeaves(before: Header, buffer: seq<byte>)
    requires LENGTH <= |buffer|
    ensures var f := ReadFields(Parser(buffer, NoError)).header;
            var r := Parse(before, Parser(buffer, NoError));
            && r.header == f
            && r.parser == Parser(buffer[if Sound(f, |buffer|) then 4 * f.hlen else LENGTH..], NoError)
            && (r.result == NoError <==> Sound(f, |buffer|) && Checksum(0, buffer[..4 * f.hlen]) == 0)
  {
    var p := Parser(buffer, NoError);
    FieldsLength(p);
    JudgeLeaves(buffer, ReadFields(p).header);
  }

  lemma JudgeLeaves(buffer: seq<byte>, f: Header)
    requires LENGTH <= |buffer|
    ensures var r := Judge(buffer, f, Parser(buffer[LENGTH..], NoError));
            && r.header == f
            && r.parser == Parser(buffer[if Sound(f, |buffer|) then 4 * f.hlen else LENGTH..], NoError)
            && (r.result == NoError <==> Sound(f, |buffer|) && Checksum(0, buffer[..4 * f.hlen]) == 0)
  {
    if Sound(f, |buffer|) {
      assert buffer[LENGTH..][4 * f.hlen - LENGTH..] == buffer[4 * f.hlen..];
    }
  }

  /**
   * Which buffers a datagram accepts. The header parser's verdict is dropped, so a bad checksum never
   * rejects one, and fields that are not in order do so only when they give another payload length.
   */
  lemma DatagramAcceptedIff(before: Header, buffer: seq<byte>)
    requires LENGTH <= |buffer|
    ensures var f := ReadFields(Parser(buffer, NoError)).header;
            ParseDatagram(before, buffer).result == NoError
            <==> Sound(f, |buffer|) || |buffer| - LENGTH == PayloadLength(f)
  {
    ParseLeaves(before, buffer);
  }

  /** A buffer shorter than a header is judged by the header that was there before. */
  lemma ShortDatagram(before: Header, buffer: seq<byte>)
    requires |buffer| < LENGTH
    ensures var r := ParseDatagram(before, buffer);
            && r.dgram == Datagram(before, buffer)
            && (r.result == NoError <==> |buffer| == PayloadLength(before))
  {
  }

  // ---------- round trip ----------

  /** The values a header can carry on the wire. */
  predicate Fits(h: Header) {
    h.ver == 4 && 5 <= h.hlen <= 15 && h.offset < 0x2000
  }

  lemma OnWireIff(h: Header)
    requires Serializable(h)
    ensures OnWire(h) == h <==> Fits(h)
  {
  }

  /** The header as sent: with a fresh checksum. */
  function Sent(h: Header): Header
    requires Serializable(h)
  {
    h.(cksum := HeaderChecksum(h))
  }

  /** The inserted checksum verifies to zero. */
  lemma HeaderChecksumVerifies(h: Header)
    requires Serializable(h)
    ensures Checksum(0, Serialize(Sent(h))) == 0
  {
    var back := Part3(h, Zeros(4 * h.hlen - LENGTH));
    BlankHeaderSum(h, back);
    var c := HeaderChecksum(h);
    LayoutAround(h, c, Zeros(4 * h.hlen - LENGTH));
    WordSumField(0);
    WordSumField(c);
    InsertedVerifies(0, Front(h), Encode(2, 0), Encode(2, c), back);
  }

  lemma BlankHeaderSum(h: Header, back: seq<byte>)
    requires Serializable(h) && back == Part3(h, Zeros(4 * h.hlen - LENGTH))
    ensures HeaderChecksum(h) == Complement(SumAround(0, Front(h), back))
    ensures |Front(h)| == 10 && |back| == 4 * h.hlen - 12
  {
    LayoutAround(h, 0, Zeros(4 * h.hlen - LENGTH));
    var c := Complement(SumAround(0, Front(h), back));
    WordSumField(0);
    WordSumField(c);
    InsertedVerifies(0, Front(h), Encode(2, 0), Encode(2, c), back);
  }

  /** The header's sum is positive: its first byte holds the version. */
  lemma FrontPositive(h: Header)
    requires h.ver == 4
    ensures WordSum(Front(h), false) > 0
  {
    Part1Append(h, Part2(h, []), []);
    assert Front(h)[0] == Encode(1, FirstByte(h))[0];
    assert Encode(1, FirstByte(h)) == [FirstByte(h) as byte];
    WordSumFirst(Front(h));
  }

  /** Exactly which values of the checksum field verify: the one computed, and the other zero. */
  lemma HeaderChecksumIff(h: Header, c: u16)
    requires Serializable(h)
    ensures Checksum(0, Serialize(h.(cksum := c))) == 0 <==> c % 0xffff == HeaderChecksum(h) % 0xffff
  {
    var back := Part3(h, Zeros(4 * h.hlen - LENGTH));
    BlankHeaderSum(h, back);
    LayoutAround(h, c, Zeros(4 * h.hlen - LENGTH));
    FrontPositive(h);
    WordSumField(c);
    FieldInFront(Front(h), Encode(2, c), back, c);
  }

  lemma FieldInFront(front: seq<byte>, field: seq<byte>, back: seq<byte>, c: u16)
    requires |front| == 10 && |field| == 2 && |back| <= 1020 && WordSum(front, false) > 0 && WordSum(field, false) == c
    ensures Checksum(0, front + (field + back)) == 0
       <==> c % 0xffff == Complement(SumAround(0, front, back)) % 0xffff
  {
    WordSumThree(front, field, back);
    var sum := WordSum(front, false) + WordSum(back, false);
    SumFits(0, front + (field + back), false);
    AroundFits(0, front, back);
    FieldVerifiesIff(0, front + (field + back), sum, c);
  }

  /** What a serialized datagram looks like to the parser. */
  lemma SerializedFields(h: Header, payload: seq<byte>)
    requires Serializable(h)
    ensures |Serialize(h)| == 4 * h.hlen
    ensures ReadFields(Parser(Serialize(h) + payload, NoError)).header == OnWire(h)
  {
    var zeros := Zeros(4 * h.hlen - LENGTH);
    LayoutAppend(h, zeros, payload);
    FieldsOf(h, zeros + payload, Serialize(h) + payload);
  }

  /** How a serializable length field relates to the size of the payload. */
  lemma LengthField(d: Datagram)
    requires DatagramSerializable(d)
    ensures 4 * d.header.hlen <= d.header.len ==> d.header.len == 4 * d.header.hlen + |d.payload|
    ensures d.header.len < 4 * d.header.hlen ==> d.header.len + TWO16 == 4 * d.header.hlen + |d.payload|
  {
  }

  /** A datagram read from bytes that hold the fields `f`. */
  lemma ReadDatagramOf(before: Header, buffer: seq<byte>, f: Header)
    requires LENGTH <= |buffer| && ReadFields(Parser(buffer, NoError)).header == f
    ensures var rest := buffer[if Sound(f, |buffer|) then 4 * f.hlen else LENGTH..];
            ParseDatagram(before, buffer)
            == ParsedDatagram(if |rest| == PayloadLength(f) then NoError else PacketTooShort, Datagram(f, rest))
  {
    ParseLeaves(before, buffer);
  }

  lemma ReadHeaderOf(before: Header, bytes: seq<byte>, payload: seq<byte>, h: Header)
    requires Fits(h) && |bytes| == 4 * h.hlen && h.len == |bytes| + |payload|
    requires ReadFields(Parser(bytes + payload, NoError)).header == h
    requires Checksum(0, bytes) == 0
    ensures Parse(before, Parser(bytes + payload, NoError)) == Parsed(NoError, h, Parser(payload, NoError))
  {
    assert (bytes + payload)[..|bytes|] == bytes && (bytes + payload)[|bytes|..] == payload;
    ParseLeaves(before, bytes + payload);
  }

  /** Parsing a serialized header succeeds, checksum included, and gives every field back. */
  lemma HeaderRoundTrip(d: Datagram, before: Header)
    requires DatagramSerializable(d) && Fits(d.header) && 4 * d.header.hlen <= d.header.len
    ensures Parse(before, Parser(SerializeDatagram(d), NoError))
         == Parsed(NoError, Sent(d.header), Parser(d.payload, NoError))
  {
    var h := Sent(d.header);
    SerializedFields(h, d.payload);
    HeaderChecksumVerifies(d.header);
    LengthField(d);
    OnWireIff(h);
    ReadHeaderOf(before, Serialize(h), d.payload, h);
  }

  lemma DatagramBackIff(before: Header, bytes: seq<byte>, payload: seq<byte>, h: Header, f: Header)
    requires Serializable(h) && |bytes| == 4 * h.hlen && |payload| == PayloadLength(h)
    requires ReadFields(Parser(bytes + payload, NoError)).header == f
    ensures ParseDatagram(before, bytes + payload) == ParsedDatagram(NoError, Datagram(h, payload))
            <==> f == h && (4 * h.hlen <= h.len || h.hlen == 5)
  {
    LengthField(Datagram(h, payload));
    assert (bytes + payload)[|bytes|..] == payload;
    ReadDatagramOf(before, bytes + payload, f);
  }

  /**
   * Exactly which datagrams come back from the wire with their fields, their payload and a fresh
   * checksum: those whose fields fit, and whose length field is long enough or has no options to miss.
   */
  lemma DatagramRoundTripIff(d: Datagram, before: Header)
    requires DatagramSerializable(d)
    ensures var h := d.header;
            ParseDatagram(before, SerializeDatagram(d)) == ParsedDatagram(NoError, d.(header := Sent(h)))
            <==> Fits(h) && (4 * h.hlen <= h.len || h.hlen == 5)
  {
    var h := Sent(d.header);
    SerializedFields(h, d.payload);
    OnWireIff(h);
    DatagramBackIff(before, Serialize(h), d.payload, h, OnWire(h));
  }

  /**
   * What the dropped verdict lets through: any datagram that would come back, put on the wire with a
   * checksum that does not verify, is refused by the header parser and accepted as a datagram.
   */
  lemma BadChecksumAccepted(d: Datagram, before: Header)
    requires DatagramSerializable(d) && Fits(d.header) && 4 * d.header.hlen <= d.header.len
    requires d.header.cksum % 0xffff != HeaderChecksum(d.header) % 0xffff
    ensures var buffer := Serialize(d.header) + d.payload;
            && Parse(before, Parser(buffer, NoError)).result == BadChecksum
            && ParseDatagram(before, buffer) == ParsedDatagram(NoError, d)
  {
    var h := d.header;
    SerializedFields(h, d.payload);
    OnWireIff(h);
    HeaderChecksumIff(h, h.cksum);
    assert h.(cksum := h.cksum) == h;
    LengthField(d);
    RefusedHeader(before, Serialize(h), d.payload, h);
    DatagramBackIff(before, Serialize(h), d.payload, h, h);
  }

  lemma RefusedHeader(before: Header, bytes: seq<byte>, payload: seq<byte>, h: Header)
    requires Fits(h) && |bytes| == 4 * h.hlen && h.len == |bytes| + |payload|
    requires ReadFields(Parser(bytes + payload, NoError)).header == h
    requires Checksum(0, bytes) != 0
    ensures Parse(before, Parser(bytes + payload, NoError)).result == BadChecksum
  {
    assert (bytes + payload)[..|bytes|] == bytes;
    FieldsLength(Parser(bytes + payload, NoError));
  }

  // ---------- step by step ----------

  method ParseFields(p: NetParser) returns (h: Header)
    modifies p
    ensures Read(h, p.Value()) == ReadFields(old(p.Value()))
  {
    var first := p.ReadU8();
    var tos := p.ReadU8();
    var len := p.ReadU16();
    var id := p.ReadU16();
    var fo := p.ReadU16();
    var ttl := p.ReadU8();
    var proto := p.ReadU8();
    var cksum := p.ReadU16();
    var src := p.ReadU32();
    var dst := p.ReadU32();
    h := Header(first / 16, first % 16, tos, len, id,
                (fo / 0x4000) % 2 == 1, (fo / 0x2000) % 2 == 1, fo % 0x2000,
                ttl, proto, cksum, src, dst);
  }

  method ChecksumOf(data: seq<byte>) returns (v: u16)
    ensures v == Checksum(0, data)
  {
    var check := new InternetChecksum(0);
    check.Add(data);
    v := check.Value();
  }

  method JudgeHeader(original: seq<byte>, h: Header, p: NetParser) returns (result: ParseResult)
    modifies p
    ensures Parsed(result, h, p.Value()) == Judge(original, h, old(p.Value()))
  {
    var size := |original|;
    if size < 4 * h.hlen {
      return PacketTooShort;
    }
    if h.ver != 4 {
      return WrongIPVersion;
    }
    if h.hlen < 5 {
      return HeaderTooShort;
    }
    if size != h.len {
      return TruncatedPacket;
    }
    p.RemovePrefix(4 * h.hlen - LENGTH);
    if !p.error.NoError? {
      return p.error;
    }
    var v := ChecksumOf(original[..4 * h.hlen]);
    result := if v != 0 then BadChecksum else NoError;
  }

  method ParseHeader(before: Header, p: NetParser) returns (result: ParseResult, h: Header)
    modifies p
    ensures Parsed(result, h, p.Value()) == Parse(before, old(p.Value()))
  {
    var original := p.buffer;
    if |original| < LENGTH {
      return PacketTooShort, before;
    }
    h := ParseFields(p);
    result := JudgeHeader(original, h, p);
  }

  method ReadDatagram(before: Header, buffer: seq<byte>) returns (result: ParseResult, d: Datagram)
    ensures ParsedDatagram(result, d) == ParseDatagram(before, buffer)
  {
    var p := new NetParser(buffer);
    var verdict, h := ParseHeader(before, p);
    d := Datagram(h, p.buffer);
    if |d.payload| != PayloadLength(h) {
      return PacketTooShort, d;
    }
    result := p.error;
  }

  method AppendPart1(h: Header) returns (t: seq<byte>)
    ensures t == Part1(h, [])
  {
    t := UnparseInt([], 1, FirstByte(h));
    t := UnparseInt(t, 1, h.tos);
    t := UnparseInt(t, 2, h.len);
    t := UnparseInt(t, 2, h.id);
  }

  method AppendPart2(s: seq<byte>, h: Header) returns (t: seq<byte>)
    ensures t == s + Part2(h, [])
  {
    t := UnparseInt(s, 2, FlagsAndOffset(h));
    t := UnparseInt(t, 1, h.ttl);
    t := UnparseInt(t, 1, h.proto);
  }

  method AppendPart3(s: seq<byte>, h: Header, zeros: seq<byte>) returns (t: seq<byte>)
    ensures t == s + Part3(h, zeros)
  {
    t := UnparseInt(s, 4, h.src);
    t := UnparseInt(t, 4, h.dst);
    t := t + zeros;
  }

  method SerializeHeader(h: Header) returns (ret: seq<byte>)
    requires Serializable(h)
    ensures ret == Serialize(h)
  {
    var zeros := Zeros(4 * h.hlen - LENGTH);
    ret := AppendPart1(h);
    ret := AppendPart2(ret, h);
    ret := UnparseInt(ret, 2, h.cksum);
    ret := AppendPart3(ret, h, zeros);
    InOrder(h, zeros);
  }

  /** The parts one after the other are the layout. */
  lemma InOrder(h: Header, zeros: seq<byte>)
    ensures Part1(h, []) + Part2(h, []) + Encode(2, h.cksum) + Part3(h, zeros) == Layout(h, zeros)
  {
  }

  method WriteDatagram(d: Datagram) returns (ret: seq<byte>)
    requires DatagramSerializable(d)
    ensures ret == SerializeDatagram(d)
  {
    var blank := SerializeHeader(d.header.(cksum := 0));
    var c := ChecksumOf(blank);
    var bytes := SerializeHeader(d.header.(cksum := c));
    ret := bytes + d.payload;
  }
}
