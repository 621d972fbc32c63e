/** The Internet checksum: a one's-complement sum of 16-bit words (section 1 of RFC 1071). */
module Checksums {
  import opened Words
  import opened Parsing

  /** Sum of the bytes, the high one of each pair counted 256 times; `odd` when the first byte is a low one. */
  function WordSum(data: seq<byte>, odd: bool): nat {
    if data == [] then 0
    else
      var last := data[|data| - 1] as int;
      WordSum(data[..|data| - 1], odd) + if odd == (|data| % 2 == 1) then last else 256 * last
  }

  /** Folds the carries back in until 16 bits remain. */
  function Fold(sum: nat): nat
    decreases sum
  {
    if sum <= 0xffff then sum else Fold(sum / 0x1_0000 + sum % 0x1_0000)
  }

  function Complement(sum: nat): (c: u16)
  {
    FoldMeaning(sum);
    0xffff - Fold(sum)
  }

  /** Folding keeps the value modulo 65535 and does not reach zero from a positive sum. */
  lemma {:induction false} FoldMeaning(sum: nat)
    ensures Fold(sum) <= 0xffff && Fold(sum) % 0xffff == sum % 0xffff && (sum > 0 <==> Fold(sum) > 0)
    decreases sum
  {
    if sum > 0xffff {
      var next := sum / 0x1_0000 + sum % 0x1_0000;
      FoldMeaning(next);
      assert sum == next + 0xffff * (sum / 0x1_0000);
      AddMultiple(next, sum / 0x1_0000);
    }
  }

  lemma {:induction false} AddMultiple(x: nat, k: nat)
    ensures (x + 0xffff * k) % 0xffff == x % 0xffff
  {
  }

  /** A sum verifies exactly when it is a positive multiple of 65535. */
  lemma VerifiesIff(sum: nat)
    ensures Complement(sum) == 0 <==> sum > 0 && sum % 0xffff == 0
  {
    FoldMeaning(sum);
  }

  /** Adding the complement of a sum makes it verify. */
  lemma ComplementVerifies(sum: nat)
    ensures Complement(sum + Complement(sum)) == 0
  {
    FoldMeaning(sum);
    CancelsOut(sum, Fold(sum));
    VerifiesIff(sum + Complement(sum));
  }

  lemma CancelsOut(sum: nat, folded: nat)
    requires folded <= 0xffff && folded % 0xffff == sum % 0xffff
    ensures (sum + (0xffff - folded)) % 0xffff == 0
  {
  }

  // ---------- sums of pieces ----------

  /** What one more byte adds: it counts 256 times in an even place. */
  function Weighed(x: byte, place: nat, odd: bool): nat {
    if odd == (place % 2 == 0) then x as int else 256 * x as int
  }

  lemma WordSumSnoc(data: seq<byte>, x: byte, odd: bool)
    ensures WordSum(data + [x], odd) == WordSum(data, odd) + Weighed(x, |data|, odd)
  {
    assert (data + [x])[..|data|] == data;
  }

  lemma WeighedShift(x: byte, place: nat, shift: nat, odd: bool)
    ensures Weighed(x, shift + place, odd) == Weighed(x, place, if shift % 2 == 0 then odd else !odd)
  {
  }

  lemma {:induction false} WordSumConcat(a: seq<byte>, b: seq<byte>, odd: bool)
    ensures WordSum(a + b, odd) == WordSum(a, odd) + WordSum(b, if |a| % 2 == 0 then odd else !odd)
    decreases |b|
  {
    if b == [] {
      assert a + b == a;
    } else {
      var init, last := b[..|b| - 1], b[|b| - 1];
      assert b == init + [last] && a + b == (a + init) + [last];
      WordSumConcat(a, init, odd);
      WordSumSnoc(a + init, last, odd);
      WordSumSnoc(init, last, if |a| % 2 == 0 then odd else !odd);
      WeighedShift(last, |init|, |a|, odd);
    }
  }

  lemma {:induction false} WordSumBound(data: seq<byte>, odd: bool)
    ensures WordSum(data, odd) <= 0xff00 * |data|
    decreases |data|
  {
    if data != [] {
      WordSumBound(data[..|data| - 1], odd);
    }
  }

  /** A 16-bit field at an even place contributes its own value. */
  lemma WordSumField(v: u16)
    ensures WordSum(Encode(2, v), false) == v
  {
    var bs := Encode(2, v);
    assert bs == [(v / 256) as byte, (v % 256) as byte];
    assert bs[..1] == [(v / 256) as byte] && bs[..1][..0] == [];
    assert WordSum(bs[..1], false) == 256 * (v / 256);
  }

  lemma WordSumFirst(data: seq<byte>)
    requires data != []
    ensures WordSum(data, false) >= 256 * data[0] as int
  {
    assert data == [data[0]] + data[1..];
    WordSumConcat([data[0]], data[1..], false);
  }

  /** The 32-bit sum over a buffer, starting from an initial sum. */
  function Checksum(initial: nat, data: seq<byte>): u16 {
    Complement((initial + WordSum(data, false)) % TWO32)
  }

  lemma WordSumEven(a: seq<byte>, b: seq<byte>)
    requires |a| % 2 == 0
    ensures WordSum(a + b, false) == WordSum(a, false) + WordSum(b, false)
  {
    WordSumConcat(a, b, false);
  }

  lemma WordSumThree(a: seq<byte>, b: seq<byte>, c: seq<byte>)
    requires |a| % 2 == 0 && |b| % 2 == 0
    ensures WordSum(a + (b + c), false) == WordSum(a, false) + WordSum(b, false) + WordSum(c, false)
  {
    WordSumEven(a, b + c);
    WordSumEven(b, c);
  }

  /**
   * Adding its complement to a 32-bit sum never wraps: the total is the next multiple of 65535, and
   * 2^32 - 1 is itself such a multiple.
   */
  lemma NeverWraps(sum: u32)
    ensures sum + Complement(sum) < TWO32
  {
    FoldMeaning(sum);
    var total := sum + Complement(sum);
    if total >= TWO32 {
      VerifiesIff(total);
      ComplementVerifies(sum);
      NoMultipleBetween(total);
      assert false;
    }
  }

  /** 2^32 - 1 is 65535 * 65537, so the next multiple of 65535 is far above it. */
  lemma NoMultipleBetween(total: nat)
    requires TWO32 <= total < TWO32 + 0xfffe
    ensures total % 0xffff != 0
  {
  }

  /** So a 32-bit sum always verifies together with its own checksum. */
  lemma OwnChecksumVerifies(sum: u32)
    ensures Complement((sum + Complement(sum)) % TWO32) == 0
  {
    NeverWraps(sum);
    ComplementVerifies(sum);
  }

  /** The 32-bit sum of everything but the checksum field. */
  function SumAround(initial: nat, front: seq<byte>, back: seq<byte>): u32 {
    (initial + WordSum(front, false) + WordSum(back, false)) % TWO32
  }

  /** A checksum computed with its field blank and then put in that field verifies, whatever the size and the initial sum. */
  lemma InsertedVerifies(initial: nat, front: seq<byte>, blank: seq<byte>, field: seq<byte>, back: seq<byte>)
    requires |front| % 2 == 0 && |blank| == |field| == 2
    requires WordSum(blank, false) == 0
    requires WordSum(field, false) == Complement(SumAround(initial, front, back))
    ensures Checksum(initial, front + (blank + back)) == Complement(SumAround(initial, front, back))
    ensures Checksum(initial, front + (field + back)) == 0
  {
    WordSumThree(front, blank, back);
    WordSumThree(front, field, back);
    ChecksumAround(initial, front, back, front + (blank + back));
    ChecksumCancels(initial, front, WordSum(field, false), back, front + (field + back));
  }

  lemma ChecksumAround(initial: nat, front: seq<byte>, back: seq<byte>, data: seq<byte>)
    requires WordSum(data, false) == WordSum(front, false) + WordSum(back, false)
    ensures Checksum(initial, data) == Complement(SumAround(initial, front, back))
  {
    assert initial + WordSum(data, false) == initial + WordSum(front, false) + WordSum(back, false);
  }

  lemma ChecksumCancels(initial: nat, front: seq<byte>, v: nat, back: seq<byte>, data: seq<byte>)
    requires WordSum(data, false) == WordSum(front, false) + v + WordSum(back, false)
    requires v == Complement(SumAround(initial, front, back))
    ensures Checksum(initial, data) == 0
  {
    FieldCancels(initial, WordSum(front, false), v, WordSum(back, false), WordSum(data, false));
  }

  lemma FieldCancels(initial: nat, f: nat, v: nat, b: nat, total: nat)
    requires total == f + v + b && v == Complement((initial + f + b) % TWO32)
    ensures Complement((initial + total) % TWO32) == 0
  {
    AddAround(initial, f, v, b, total);
    OwnChecksumVerifies((initial + f + b) % TWO32);
  }

  lemma AddAround(initial: nat, f: nat, v: nat, b: nat, total: nat)
    requires total == f + v + b
    ensures (initial + total) % TWO32 == ((initial + f + b) % TWO32 + v) % TWO32
  {
    AddModulo(initial + f + b, v);
    assert initial + total == initial + f + b + v;
  }

  /** For up to 65535 bytes after any pseudo-header sum, the 32-bit accumulator does not overflow. */
  lemma SumFits(initial: nat, data: seq<byte>, odd: bool)
    requires |data| <= 0xffff && initial <= 0xff_ffff
    ensures initial + WordSum(data, odd) < TWO32
  {
    WordSumBound(data, odd);
  }

  lemma Unreduced(initial: nat, data: seq<byte>, odd: bool)
    requires |data| <= 0xffff && initial <= 0xff_ffff
    ensures (initial + WordSum(data, odd)) % TWO32 == initial + WordSum(data, odd)
  {
    SumFits(initial, data, odd);
  }

  /** The values that make a positive sum verify are its complement and the other zero. */
  lemma ValueVerifiesIff(sum: nat, v: nat)
    requires sum > 0
    ensures Complement(sum + v) == 0 <==> v % 0xffff == Complement(sum) % 0xffff
  {
    VerifiesIff(sum + v);
    ComplementVerifies(sum);
    VerifiesIff(sum + Complement(sum));
    SameResidue(sum, v, Complement(sum));
  }

  lemma SameResidue(sum: nat, a: nat, b: nat)
    requires (sum + b) % 0xffff == 0
    ensures (sum + a) % 0xffff == 0 <==> a % 0xffff == b % 0xffff
  {
  }

  lemma AroundFits(initial: nat, front: seq<byte>, back: seq<byte>)
    requires initial + WordSum(front, false) + WordSum(back, false) < TWO32
    ensures SumAround(initial, front, back) == initial + WordSum(front, false) + WordSum(back, false)
  {
  }

  /** Which values `v` of the checksum field verify in `data` of up to 65535 bytes. */
  lemma FieldVerifiesIff(initial: nat, data: seq<byte>, sum: nat, v: nat)
    requires |data| <= 0xffff && initial <= 0xff_ffff
    requires initial + WordSum(data, false) == sum + v && sum > 0
    ensures Checksum(initial, data) == 0 <==> v % 0xffff == Complement(sum) % 0xffff
  {
    Unreduced(initial, data, false);
    ValueVerifiesIff(sum, v);
  }

  lemma AddModulo(x: nat, v: nat)
    ensures (x % TWO32 + v) % TWO32 == (x + v) % TWO32
  {
  }

  lemma OneMoreByte(initial: nat, data: seq<byte>, i: nat, odd: bool)
    requires i < |data|
    ensures ((initial + WordSum(data[..i], odd)) % TWO32 + Weighed(data[i], i, odd)) % TWO32
         == (initial + WordSum(data[..i + 1], odd)) % TWO32
  {
    assert data[..i + 1] == data[..i] + [data[i]];
    WordSumSnoc(data[..i], data[i], odd);
    AddAround(initial, WordSum(data[..i], odd), Weighed(data[i], i, odd), 0, WordSum(data[..i + 1], odd));
  }

  class InternetChecksum {
    var sum: u32
    var parity: bool

    constructor (initial: u32)
      ensures sum == initial && !parity
    {
      sum, parity := initial, false;
    }

    method Add(data: seq<byte>)
      modifies this
      ensures sum == (old(sum) + WordSum(data, old(parity))) % TWO32
      ensures parity == (old(parity) != (|data| % 2 == 1))
      ensures |data| <= 0xffff && old(sum) <= 0xff_ffff ==> sum == old(sum) + WordSum(data, old(parity))
    {
      for i := 0 to |data|
        invariant sum == (old(sum) + WordSum(data[..i], old(parity))) % TWO32
        invariant parity == (old(parity) != (i % 2 == 1))
      {
        var val := data[i] as int;
        if !parity {
          val := val * 256;
        }
        OneMoreByte(old(sum), data, i, old(parity));
        sum := (sum + val) % TWO32;
        parity := !parity;
      }
      assert data[..|data|] == data;
      if |data| <= 0xffff && old(sum) <= 0xff_ffff {
        Unreduced(old(sum), data, old(parity));
      }
    }

    method Value() returns (v: u16)
      ensures v == Complement(sum)
    {
      var ret: nat := sum;
      while ret > 0xffff
        invariant Fold(ret) == Fold(sum)
      {
        ret := ret / 0x1_0000 + ret % 0x1_0000;
      }
      v := 0xffff - ret;
    }
  }
}
