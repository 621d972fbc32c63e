/** Big-endian integers on the wire: the reader that consumes a buffer and the writer that appends to one. */
module Parsing {
  import opened Words

  datatype ParseResult =
    | NoError | BadChecksum | PacketTooShort | WrongIPVersion | HeaderTooShort | TruncatedPacket

  // ---------- integers ----------

  function Power256(width: nat): nat {
    if width == 0 then 1 else 256 * Power256(width - 1)
  }

  function Encode(width: nat, v: nat): (bs: seq<byte>)
    ensures |bs| == width
    decreases width
  {
    if width == 0 then [] else Encode(width - 1, v / 256) + [(v % 256) as byte]
  }

  function Decode(bs: seq<byte>): nat {
    if bs == [] then 0 else Decode(bs[..|bs| - 1]) * 256 + bs[|bs| - 1] as int
  }

  lemma {:induction false} DecodeEncode(width: nat, v: nat)
    requires v < Power256(width)
    ensures Decode(Encode(width, v)) == v
    decreases width
  {
    if width > 0 {
      DecodeEncode(width - 1, v / 256);
      assert Encode(width, v)[..width - 1] == Encode(width - 1, v / 256);
    }
  }

  lemma {:induction false} DecodeBound(bs: seq<byte>)
    ensures Decode(bs) < Power256(|bs|)
    decreases |bs|
  {
    if bs != [] {
      DecodeBound(bs[..|bs| - 1]);
    }
  }

  lemma {:induction false} EncodeDecode(bs: seq<byte>)
    ensures Encode(|bs|, Decode(bs)) == bs
    decreases |bs|
  {
    if bs != [] {
      var init, last := bs[..|bs| - 1], bs[|bs| - 1];
      EncodeDecode(init);
      assert (Decode(init) * 256 + last as int) / 256 == Decode(init);
      assert bs == init + [last];
    }
  }

  lemma Powers()
    ensures Power256(1) == 0x100 && Power256(2) == 0x1_0000 && Power256(4) == 0x1_0000_0000
  {
  }

  // ---------- reading ----------

  /** A buffer being read, with the error met so far. */
  datatype Parser = Parser(buffer: seq<byte>, error: ParseResult)

  function Check(p: Parser, size: nat): Parser {
    if size > |p.buffer| then p.(error := PacketTooShort) else p
  }

  function Skip(p: Parser, size: nat): Parser {
    var q := Check(p, size);
    if q.error.NoError? then q.(buffer := q.buffer[size..]) else q
  }

  function Peek(p: Parser, width: nat): nat {
    var q := Check(p, width);
    if q.error.NoError? then Decode(q.buffer[..width]) else 0
  }

  /** Reading takes back what writing put in front. */
  lemma ReadWritten(width: nat, v: nat, rest: seq<byte>)
    requires v < Power256(width)
    ensures var p := Parser(Encode(width, v) + rest, NoError);
            Peek(p, width) == v && Skip(p, width) == Parser(rest, NoError)
  {
  }

  lemma PeekBound(p: Parser, width: nat)
    ensures Peek(p, width) < Power256(width)
  {
    var q := Check(p, width);
    if q.error.NoError? {
      DecodeBound(q.buffer[..width]);
    } else {
      PowerPositive(width);
    }
  }

  lemma {:induction false} PowerPositive(width: nat)
    ensures Power256(width) > 0
  {
    if width > 0 {
      PowerPositive(width - 1);
    }
  }

  function U8(p: Parser): u8 {
    PeekBound(p, 1);
    Powers();
    Peek(p, 1)
  }

  function U16(p: Parser): u16 {
    PeekBound(p, 2);
    Powers();
    Peek(p, 2)
  }

  function U32(p: Parser): u32 {
    PeekBound(p, 4);
    Powers();
    Peek(p, 4)
  }

  lemma ReadU8(v: u8, rest: seq<byte>)
    ensures var p := Parser(Encode(1, v) + rest, NoError); U8(p) == v && Skip(p, 1) == Parser(rest, NoError)
  {
  }

  lemma ReadU16(v: u16, rest: seq<byte>)
    ensures var p := Parser(Encode(2, v) + rest, NoError); U16(p) == v && Skip(p, 2) == Parser(rest, NoError)
  {
    Powers();
    ReadWritten(2, v, rest);
  }

  lemma ReadU32(v: u32, rest: seq<byte>)
    ensures var p := Parser(Encode(4, v) + rest, NoError); U32(p) == v && Skip(p, 4) == Parser(rest, NoError)
  {
    Powers();
    ReadWritten(4, v, rest);
  }

  /** Two reads in a row succeed together exactly when one read of both sizes does. */
  lemma SkipTwice(p: Parser, a: nat, b: nat)
    ensures var q := Skip(Skip(p, a), b);
            && (q.error.NoError? <==> p.error.NoError? && a + b <= |p.buffer|)
            && (q.error.NoError? ==> q == Skip(p, a + b))
            && (!q.error.NoError? && p.error.NoError? ==> q.error == PacketTooShort)
  {
  }

  class NetParser {
    var buffer: seq<byte>
    var error: ParseResult

    ghost function Value(): Parser
      reads this
    {
      Parser(buffer, error)
    }

    constructor (buffer: seq<byte>)
      ensures Value() == Parser(buffer, NoError)
    {
      this.buffer := buffer;
      error := NoError;
    }

    method CheckSize(size: nat)
      modifies this`error
      ensures Value() == Check(old(Value()), size)
    {
      if size > |buffer| {
        error := PacketTooShort;
      }
    }

    method ParseInt(len: nat) returns (v: nat)
      modifies this
      ensures v == Peek(old(Value()), len) && Value() == Skip(old(Value()), len)
    {
      CheckSize(len);
      if !error.NoError? {
        return 0;
      }
      v := 0;
      for i := 0 to len
        invariant v == Decode(buffer[..i])
      {
        assert buffer[..i + 1][..i] == buffer[..i];
        v := v * 256 + buffer[i] as int;
      }
      buffer := buffer[len..];
    }

    method ReadU8() returns (v: u8)
      modifies this
      ensures v == U8(old(Value())) && Value() == Skip(old(Value()), 1)
    {
      ghost var p := U8(Value());
      v := ParseInt(1);
    }

    method ReadU16() returns (v: u16)
      modifies this
      ensures v == U16(old(Value())) && Value() == Skip(old(Value()), 2)
    {
      ghost var p := U16(Value());
      v := ParseInt(2);
    }

    method ReadU32() returns (v: u32)
      modifies this
      ensures v == U32(old(Value())) && Value() == Skip(old(Value()), 4)
    {
      ghost var p := U32(Value());
      v := ParseInt(4);
    }

    method RemovePrefix(n: nat)
      modifies this
      ensures Value() == Skip(old(Value()), n)
    {
      CheckSize(n);
      if !error.NoError? {
        return;
      }
      buffer := buffer[n..];
    }
  }

  // ---------- writing ----------

  function Zeros(n: nat): (bs: seq<byte>)
    ensures |bs| == n
  {
    seq(n, _ => 0)
  }

  function Shift(v: nat, bytes: nat): nat {
    if bytes == 0 then v else Shift(v / 256, bytes - 1)
  }

  lemma {:induction false} EncodePrefix(width: nat, v: nat, i: nat)
    requires i < width
    ensures Encode(width, v)[..i + 1] == Encode(width, v)[..i] + [(Shift(v, width - i - 1) % 256) as byte]
    decreases width
  {
    if i < width - 1 {
      EncodePrefix(width - 1, v / 256, i);
      assert Encode(width, v)[..i + 1] == Encode(width - 1, v / 256)[..i + 1];
      assert Encode(width, v)[..i] == Encode(width - 1, v / 256)[..i];
    }
  }

  method UnparseInt(s: seq<byte>, len: nat, v: nat) returns (t: seq<byte>)
    ensures t == s + Encode(len, v)
  {
    t := s;
    for i := 0 to len
      invariant t == s + Encode(len, v)[..i]
    {
      var theByte := Shift(v, len - i - 1) % 256;
      EncodePrefix(len, v, i);
      t := t + [theByte as byte];
    }
    assert Encode(len, v)[..len] == Encode(len, v);
  }
}
