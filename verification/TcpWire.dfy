/** TCP headers and segments on the wire (section 3.1 of RFC 793). */
module TcpWire {
  import opened Words
  import opened Parsing
  import opened Checksums

  const LENGTH: nat := 20

  datatype Flags = Flags(urg: bool, ack: bool, psh: bool, rst: bool, syn: bool, fin: bool)

  datatype Header = Header(
    sport: u16, dport: u16, seqno: u32, ackno: u32, doff: u8, flags: Flags,
    win: u16, cksum: u16, uptr: u16)

  datatype Segment = Segment(header: Header, payload: seq<byte>)

  // ---------- layout ----------

  function Bit(b: bool, weight: nat): nat {
    if b then weight else 0
  }

  function FlagByte(f: Flags): u8 {
    Bit(f.urg, 32) + Bit(f.ack, 16) + Bit(f.psh, 8) + Bit(f.rst, 4) + Bit(f.syn, 2) + Bit(f.fin, 1)
  }

  function FlagsOf(b: u8): Flags {
    Flags((b / 32) % 2 == 1, (b / 16) % 2 == 1, (b / 8) % 2 == 1, (b / 4) % 2 == 1, (b / 2) % 2 == 1, b % 2 == 1)
  }

  lemma FlagsBack(f: Flags)
    ensures FlagsOf(FlagByte(f)) == f
  {
    var high, low := ThreeBits(f.urg, f.ack, f.psh), ThreeBits(f.rst, f.syn, f.fin);
    SplitByte(high, low, FlagByte(f));
    ThreeBitsBack(f.urg, f.ack, f.psh);
    ThreeBitsBack(f.rst, f.syn, f.fin);
  }

  function ThreeBits(x: bool, y: bool, z: bool): nat {
    Bit(x, 4) + Bit(y, 2) + Bit(z, 1)
  }

  lemma ThreeBitsBack(x: bool, y: bool, z: bool)
    ensures var n := ThreeBits(x, y, z); n < 8 && (n / 4 % 2 == 1 <==> x) && (n / 2 % 2 == 1 <==> y) && (n % 2 == 1 <==> z)
  {
  }

  lemma SplitByte(high: nat, low: nat, b: nat)
    requires b == 8 * high + low && high < 8 && low < 8
    ensures b / 32 == high / 4 && b / 16 == high / 2 && b / 8 == high
    ensures b / 4 % 2 == low / 4 % 2 && b / 2 % 2 == low / 2 % 2 && b % 2 == low % 2
  {
    SplitLow(high, low, b);
  }

  lemma SplitLow(high: nat, low: nat, b: nat)
    requires b == 8 * high + low
    ensures b / 4 % 2 == low / 4 % 2 && b / 2 % 2 == low / 2 % 2 && b % 2 == low % 2
  {
    assert b / 4 == 2 * high + low / 4;
    assert b / 2 == 4 * high + low / 2;
  }

  /** The data offset in the upper half of a byte. */
  function OffsetByte(h: Header): u8 {
    (h.doff * 16) % 0x100
  }

  /** The ports and numbers, and the fields up to the window, each before `rest`. */
  function Part1(h: Header, rest: seq<byte>): seq<byte> {
    Encode(2, h.sport) + (Encode(2, h.dport) + (Encode(4, h.seqno) + (Encode(4, h.ackno) + rest)))
  }

  function Part2(h: Header, rest: seq<byte>): seq<byte> {
    Encode(1, OffsetByte(h)) + (Encode(1, FlagByte(h.flags)) + (Encode(2, h.win) + rest))
  }

  function Layout(h: Header, rest: seq<byte>): seq<byte> {
    Part1(h, Part2(h, Encode(2, h.cksum) + (Encode(2, h.uptr) + rest)))
  }

  /** The source throws on a header too short. */
  predicate Serializable(h: Header) {
    h.doff >= 5
  }

  function Serialize(h: Header): seq<byte>
    requires Serializable(h)
  {
    Layout(h, Zeros(4 * h.doff - LENGTH))
  }

  lemma Part1Append(h: Header, x: seq<byte>, y: seq<byte>)
    ensures Part1(h, x) + y == Part1(h, x + y) && |Part1(h, x)| == 12 + |x|
  {
  }

  lemma Part2Append(h: Header, x: seq<byte>, y: seq<byte>)
    ensures Part2(h, x) + y == Part2(h, x + y) && |Part2(h, x)| == 4 + |x|
  {
  }

  lemma LayoutAppend(h: Header, x: seq<byte>, y: seq<byte>)
    ensures Layout(h, x) + y == Layout(h, x + y) && |Layout(h, x)| == LENGTH + |x|
  {
    var c, u := Encode(2, h.cksum), Encode(2, h.uptr);
    assert u + x + y == u + (x + y);
    assert c + (u + x) + y == c + (u + x + y);
    Part2Append(h, c + (u + x), y);
    Part1Append(h, Part2(h, c + (u + x)), y);
  }

  /** The sixteen bytes before the checksum field. */
  function Front(h: Header): seq<byte> {
    Part1(h, Part2(h, []))
  }

  /** The checksum field sits behind sixteen bytes, and nothing around it depends on it. */
  lemma LayoutAround(h: Header, c: u16, rest: seq<byte>)
    ensures Layout(h.(cksum := c), rest) == Front(h) + (Encode(2, c) + (Encode(2, h.uptr) + rest))
    ensures |Front(h)| == 16
  {
    var tail := Encode(2, c) + (Encode(2, h.uptr) + rest);
    Part2Append(h, [], tail);
    Part1Append(h, Part2(h, []), tail);
    assert [] + tail == tail;
  }

  // ---------- reading back ----------

  datatype Read = Read(header: Header, parser: Parser)

  /** The fixed fields, one after the other. */
  function ReadFields(p: Parser): Read {
    var p1 := Skip(p, 2);
    var p2 := Skip(p1, 2);
    var p3 := Skip(p2, 4);
    var p4 := Skip(p3, 4);
    var p5 := Skip(p4, 1);
    var p6 := Skip(p5, 1);
    var p7 := Skip(p6, 2);
    var p8 := Skip(p7, 2);
    Read(Header(U16(p), U16(p1), U32(p2), U32(p3), U8(p4) / 16, FlagsOf(U8(p5)), U16(p6), U16(p7), U16(p8)),
         Skip(p8, 2))
  }

  /** What four bits of data offset keep of a header. */
  function OnWire(h: Header): Header {
    h.(doff := h.doff % 16)
  }

  lemma OnWireIff(h: Header)
    ensures OnWire(h) == h <==> h.doff <= 15
  {
  }

  lemma ReadPart1(h: Header, rest: seq<byte>)
    ensures var p := Parser(Part1(h, rest), NoError);
            var p1 := Skip(p, 2); var p2 := Skip(p1, 2); var p3 := Skip(p2, 4);
            && U16(p) == h.sport && U16(p1) == h.dport && U32(p2) == h.seqno && U32(p3) == h.ackno
            && Skip(p3, 4) == Parser(rest, NoError)
  {
    ReadU16(h.sport, Encode(2, h.dport) + (Encode(4, h.seqno) + (Encode(4, h.ackno) + rest)));
    ReadU16(h.dport, Encode(4, h.seqno) + (Encode(4, h.ackno) + rest));
    ReadU32(h.seqno, Encode(4, h.ackno) + rest);
    ReadU32(h.ackno, rest);
  }

  lemma ReadPart2(h: Header, rest: seq<byte>)
    ensures var p := Parser(Part2(h, rest), NoError);
            var p1 := Skip(p, 1); var p2 := Skip(p1, 1);
            && U8(p) == OffsetByte(h) && U8(p1) == FlagByte(h.flags) && U16(p2) == h.win
            && Skip(p2, 2) == Parser(rest, NoError)
  {
    ReadU8(OffsetByte(h), Encode(1, FlagByte(h.flags)) + (Encode(2, h.win) + rest));
    ReadU8(FlagByte(h.flags), Encode(2, h.win) + rest);
    ReadU16(h.win, rest);
  }

  lemma OffsetBack(h: Header)
    ensures OffsetByte(h) / 16 == h.doff % 16
  {
    assert h.doff * 16 == 0x100 * (h.doff / 16) + 16 * (h.doff % 16);
  }

  /** Every field comes back as far as the wire holds it. */
  lemma ReadFieldsBack(h: Header, rest: seq<byte>)
    ensures ReadFields(Parser(Layout(h, rest), NoError)) == Read(OnWire(h), Parser(rest, NoError))
  {
    FlagsBack(h.flags);
    OffsetBack(h);
    var tail := Encode(2, h.cksum) + (Encode(2, h.uptr) + rest);
    ReadPart1(h, Part2(h, tail));
    ReadPart2(h, tail);
    ReadU16(h.cksum, Encode(2, h.uptr) + rest);
    ReadU16(h.uptr, rest);
  }

  lemma FieldsOf(h: Header, rest: seq<byte>, buffer: seq<byte>)
    requires buffer == Layout(h, rest)
    ensures ReadFields(Parser(buffer, NoError)).header == OnWire(h)
  {
    ReadFieldsBack(h, rest);
  }

  /** The fixed fields take twenty bytes. */
  lemma FieldsLength(p: Parser)
    requires p.error.NoError?
    ensures var q := ReadFields(p).parser;
            && (q.error.NoError? <==> LENGTH <= |p.buffer|)
            && (q.error.NoError? ==> q == Parser(p.buffer[LENGTH..], NoError))
  {
  }

  // ---------- parsing ----------

  datatype Parsed = Parsed(result: ParseResult, header: Header, parser: Parser)

  /** The check once the fields `h` are read and `q` is left, and the skip over options. */
  function Judge(h: Header, q: Parser): Parsed {
    if h.doff < 5 then Parsed(HeaderTooShort, h, q)
    else var s := Skip(q, 4 * h.doff - LENGTH); Parsed(s.error, h, s)
  }

  function Parse(p: Parser): Parsed {
    var Read(h, q) := ReadFields(p);
    Judge(h, q)
  }

  datatype ParsedSegment = ParsedSegment(result: ParseResult, segment: Segment)

  /** The checksum comes first; then the header parser's verdict is dropped and only its reader's error kept. */
  function ParseSegment(before: Segment, initial: u32, buffer: seq<byte>): ParsedSegment {
    if Checksum(initial, buffer) != 0 then ParsedSegment(BadChecksum, before)
    else
      var r := Parse(Parser(buffer, NoError));
      ParsedSegment(r.parser.error, Segment(r.header, r.parser.buffer))
  }

  function SegmentChecksum(initial: u32, s: Segment): u16
    requires Serializable(s.header)
  {
    Checksum(initial, Serialize(s.header.(cksum := 0)) + s.payload)
  }

  /** The segment as sent: with a fresh checksum. */
  function Sent(initial: u32, s: Segment): Segment
    requires Serializable(s.header)
  {
    s.(header := s.header.(cksum := SegmentChecksum(initial, s)))
  }

  function SerializeSegment(initial: u32, s: Segment): seq<byte>
    requires Serializable(s.header)
  {
    Serialize(Sent(initial, s).header) + s.payload
  }

  // ---------- acceptance ----------

  /** Where the payload of a segment of these fields begins. */
  function DataStart(h: Header): nat {
    if h.doff < 5 then LENGTH else 4 * h.doff
  }

  lemma JudgeLeaves(buffer: seq<byte>, h: Header, q: Parser)
    requires q.error.NoError? <==> LENGTH <= |buffer|
    requires q.error.NoError? ==> q.buffer == buffer[LENGTH..]
    ensures var r := Judge(h, q);
            && r.header == h
            && (r.parser.error.NoError? <==> LENGTH <= |buffer| && DataStart(h) <= |buffer|)
            && (r.parser.error.NoError? ==> r.parser.buffer == buffer[DataStart(h)..])
  {
    if LENGTH <= |buffer| && 5 <= h.doff && 4 * h.doff <= |buffer| {
      assert buffer[LENGTH..][4 * h.doff - LENGTH..] == buffer[4 * h.doff..];
    }
  }

  lemma ParseLeaves(buffer: seq<byte>)
    ensures var h := ReadFields(Parser(buffer, NoError)).header;
            var r := Parse(Parser(buffer, NoError));
            && r.header == h
            && (r.parser.error.NoError? <==> LENGTH <= |buffer| && DataStart(h) <= |buffer|)
            && (r.parser.error.NoError? ==> r.parser.buffer == buffer[DataStart(h)..])
  {
    var p := Parser(buffer, NoError);
    FieldsLength(p);
    JudgeLeaves(buffer, ReadFields(p).header, ReadFields(p).parser);
  }

  /**
   * Which buffers are accepted as segments, and what they carry: a zero checksum, room for the fixed
   * fields and for the data offset. A data offset under five words does not reject.
   */
  lemma SegmentAcceptedIff(before: Segment, initial: u32, buffer: seq<byte>)
    ensures var h := ReadFields(Parser(buffer, NoError)).header;
            var r := ParseSegment(before, initial, buffer);
            && (r.result == NoError
                <==> Checksum(initial, buffer) == 0 && LENGTH <= |buffer| && DataStart(h) <= |buffer|)
            && (r.result == NoError ==> r.segment == Segment(h, buffer[DataStart(h)..]))
  {
    ParseLeaves(buffer);
  }

  lemma LayoutVerifies(initial: u32, h: Header, payload: seq<byte>, c: u16)
    requires c == Complement(SumAround(initial, Front(h), Encode(2, h.uptr) + payload))
    ensures Checksum(initial, Layout(h.(cksum := c), payload)) == 0
  {
    LayoutAround(h, c, payload);
    WordSumField(0);
    WordSumField(c);
    InsertedVerifies(initial, Front(h), Encode(2, 0), Encode(2, c), Encode(2, h.uptr) + payload);
  }

  lemma ShortOffsetParsed(before: Segment, initial: u32, h: Header, payload: seq<byte>, buffer: seq<byte>)
    requires h.doff < 5 && ReadFields(Parser(buffer, NoError)) == Read(h, Parser(payload, NoError))
    requires Checksum(initial, buffer) == 0
    ensures Parse(Parser(buffer, NoError)).result == HeaderTooShort
    ensures ParseSegment(before, initial, buffer) == ParsedSegment(NoError, Segment(h, payload))
  {
  }

  /**
   * What the dropped verdict lets through: any header whose data offset is under five words, with a
   * checksum that verifies, is refused by the header parser and accepted as a segment.
   */
  lemma ShortOffsetAccepted(before: Segment, initial: u32, h: Header, payload: seq<byte>, sent: Header)
    requires h.doff < 5
    requires sent == h.(cksum := Complement(SumAround(initial, Front(h), Encode(2, h.uptr) + payload)))
    ensures Parse(Parser(Layout(sent, payload), NoError)).result == HeaderTooShort
    ensures ParseSegment(before, initial, Layout(sent, payload)) == ParsedSegment(NoError, Segment(sent, payload))
  {
    LayoutVerifies(initial, h, payload, sent.cksum);
    ReadFieldsBack(sent, payload);
    OnWireIff(sent);
    ShortOffsetParsed(before, initial, sent, payload, Layout(sent, payload));
  }

  // ---------- round trip ----------

  function AfterChecksum(s: Segment): seq<byte>
    requires Serializable(s.header)
  {
    Encode(2, s.header.uptr) + (Zeros(4 * s.header.doff - LENGTH) + s.payload)
  }

  lemma SerializedAround(s: Segment, c: u16)
    requires Serializable(s.header)
    ensures Serialize(s.header.(cksum := c)) + s.payload == Front(s.header) + (Encode(2, c) + AfterChecksum(s))
    ensures |Front(s.header)| == 16 && |Serialize(s.header.(cksum := c))| == 4 * s.header.doff
  {
    var zeros := Zeros(4 * s.header.doff - LENGTH);
    LayoutAppend(s.header.(cksum := c), zeros, s.payload);
    LayoutAround(s.header, c, zeros + s.payload);
  }

  /** The inserted checksum verifies to zero, for any segment and any sum from the layer below. */
  lemma SegmentChecksumVerifies(initial: u32, s: Segment)
    requires Serializable(s.header)
    ensures Checksum(initial, SerializeSegment(initial, s)) == 0
  {
    var front, back := Front(s.header), AfterChecksum(s);
    var c := Complement(SumAround(initial, front, back));
    SerializedAround(s, 0);
    SerializedAround(s, c);
    WordSumField(0);
    WordSumField(c);
    InsertedVerifies(initial, front, Encode(2, 0), Encode(2, c), back);
  }

  /** For any segment an IPv4 datagram can hold and any pseudo-header sum, nothing overflows while summing. */
  lemma SegmentSumFits(initial: u32, s: Segment)
    requires Serializable(s.header) && 4 * s.header.doff + |s.payload| <= 0xffff && initial <= 0xff_ffff
    ensures initial + WordSum(SerializeSegment(initial, s), false) < TWO32
  {
    SerializedAround(s, SegmentChecksum(initial, s));
    SumFits(initial, SerializeSegment(initial, s), false);
  }

  lemma SerializedFields(s: Segment)
    requires Serializable(s.header)
    ensures |Serialize(s.header)| == 4 * s.header.doff
    ensures ReadFields(Parser(Serialize(s.header) + s.payload, NoError)).header == OnWire(s.header)
  {
    var zeros := Zeros(4 * s.header.doff - LENGTH);
    LayoutAppend(s.header, zeros, s.payload);
    FieldsOf(s.header, zeros + s.payload, Serialize(s.header) + s.payload);
  }

  lemma SegmentBackIff(before: Segment, initial: u32, bytes: seq<byte>, s: Segment, f: Header)
    requires Serializable(s.header) && |bytes| == 4 * s.header.doff
    requires ReadFields(Parser(bytes + s.payload, NoError)).header == f
    ensures ParseSegment(before, initial, bytes + s.payload) == ParsedSegment(NoError, s)
            <==> f == s.header && Checksum(initial, bytes + s.payload) == 0
  {
    assert (bytes + s.payload)[|bytes|..] == s.payload;
    SegmentAcceptedIff(before, initial, bytes + s.payload);
  }

  /**
   * Exactly which segments come back from the wire with their fields, their payload and a fresh
   * checksum: those whose data offset fits four bits.
   */
  lemma SegmentRoundTripIff(before: Segment, initial: u32, s: Segment)
    requires Serializable(s.header)
    ensures ParseSegment(before, initial, SerializeSegment(initial, s)) == ParsedSegment(NoError, Sent(initial, s))
            <==> s.header.doff <= 15
  {
    var sent := Sent(initial, s);
    SerializedFields(sent);
    SegmentChecksumVerifies(initial, s);
    OnWireIff(sent.header);
    SegmentBackIff(before, initial, Serialize(sent.header), sent, OnWire(sent.header));
  }

  // ---------- step by step ----------

  method ParseFields(p: NetParser) returns (h: Header)
    modifies p
    ensures Read(h, p.Value()) == ReadFields(old(p.Value()))
  {
    var sport := p.ReadU16();
    var dport := p.ReadU16();
    var seqno := p.ReadU32();
    var ackno := p.ReadU32();
    var offset := p.ReadU8();
    var flags := p.ReadU8();
    var win := p.ReadU16();
    var cksum := p.ReadU16();
    var uptr := p.ReadU16();
    h := Header(sport, dport, seqno, ackno, offset / 16, FlagsOf(flags), win, cksum, uptr);
  }

  method ParseHeader(p: NetParser) returns (result: ParseResult, h: Header)
    modifies p
    ensures Parsed(result, h, p.Value()) == Parse(old(p.Value()))
  {
    h := ParseFields(p);
    if h.doff < 5 {
      return HeaderTooShort, h;
    }
    p.RemovePrefix(4 * h.doff - LENGTH);
    result := p.error;
  }

  method ReadSegment(before: Segment, initial: u32, buffer: seq<byte>) returns (result: ParseResult, s: Segment)
    ensures ParsedSegment(result, s) == ParseSegment(before, initial, buffer)
  {
    var v := ChecksumOf(initial, [], buffer);
    assert [] + buffer == buffer;
    if v != 0 {
      return BadChecksum, before;
    }
    result, s := ReadVerified(buffer);
  }

  method ReadVerified(buffer: seq<byte>) returns (result: ParseResult, s: Segment)
    ensures var r := Parse(Parser(buffer, NoError));
            result == r.parser.error && s == Segment(r.header, r.parser.buffer)
  {
    var p := new NetParser(buffer);
    var verdict, h := ParseHeader(p);
    result, s := p.error, Segment(h, p.buffer);
  }

  method AppendPart1(h: Header) returns (t: seq<byte>)
    ensures t == Part1(h, [])
  {
    t := UnparseInt([], 2, h.sport);
    t := UnparseInt(t, 2, h.dport);
    t := UnparseInt(t, 4, h.seqno);
    t := UnparseInt(t, 4, h.ackno);
  }

  method AppendPart2(s: seq<byte>, h: Header) returns (t: seq<byte>)
    ensures t == s + Part2(h, [])
  {
    t := UnparseInt(s, 1, OffsetByte(h));
    t := UnparseInt(t, 1, FlagByte(h.flags));
    t := UnparseInt(t, 2, h.win);
  }

  method SerializeHeader(h: Header) returns (ret: seq<byte>)
    requires Serializable(h)
    ensures ret == Serialize(h)
  {
    var zeros := Zeros(4 * h.doff - LENGTH);
    ret := AppendPart1(h);
    ret := AppendPart2(ret, h);
    ret := UnparseInt(ret, 2, h.cksum);
    ret := UnparseInt(ret, 2, h.uptr);
    ret := ret + zeros;
    InOrder(h, zeros);
  }

  /** The parts one after the other are the layout. */
  lemma InOrder(h: Header, zeros: seq<byte>)
    ensures Part1(h, []) + Part2(h, []) + Encode(2, h.cksum) + Encode(2, h.uptr) + zeros == Layout(h, zeros)
  {
    LayoutAround(h, h.cksum, zeros);
    Part1Append(h, [], Part2(h, []));
    assert [] + Part2(h, []) == Part2(h, []);
    Regroup(Front(h), Encode(2, h.cksum), Encode(2, h.uptr), zeros);
  }

  lemma Regroup(a: seq<byte>, b: seq<byte>, c: seq<byte>, d: seq<byte>)
    ensures a + b + c + d == a + (b + (c + d))
  {
  }

  method ChecksumOf(initial: u32, header: seq<byte>, payload: seq<byte>) returns (v: u16)
    requires |header| % 2 == 0
    ensures v == Checksum(initial, header + payload)
  {
    var check := new InternetChecksum(initial);
    check.Add(header);
    check.Add(payload);
    WordSumEven(header, payload);
    AddModulo(initial + WordSum(header, false), WordSum(payload, false));
    v := check.Value();
  }

  method WriteSegment(initial: u32, s: Segment) returns (ret: seq<byte>)
    requires Serializable(s.header)
    ensures ret == SerializeSegment(initial, s)
  {
    var blank := SerializeHeader(s.header.(cksum := 0));
    SerializedAround(s, 0);
    var c := ChecksumOf(initial, blank, s.payload);
    var bytes := SerializeHeader(s.header.(cksum := c));
    ret := bytes + s.payload;
  }
}
