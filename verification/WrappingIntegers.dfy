/** Sequence numbers: 64-bit absolute numbers and their 32-bit wire form. */
module WrappingIntegers {
  import opened Words

  function Wrap(n: nat, isn: u32): u32 {
    (isn + n % TWO32) % TWO32
  }

  /** How far `n` lies past `isn` on the 32-bit circle. */
  function Offset(n: u32, isn: u32): u32 {
    if n >= isn then n - isn else (TWO32 - isn) + n
  }

  function Unwrap(n: u32, isn: u32, checkpoint: nat): nat {
    var offset := Offset(n, isn);
    if offset >= checkpoint then
      offset
    else
      var high := (checkpoint / TWO32) * TWO32;
      var low := checkpoint % TWO32;
      if low > offset then
        if low - offset >= TWO31 then high + offset + TWO32 else high + offset
      else
        if offset - low >= TWO31 then high + offset - TWO32 else high + offset
  }

  /** `Unwrap` as the source computes it, in 64-bit arithmetic. */
  function Unwrap64(n: u32, isn: u32, checkpoint: u64): u64 {
    Unwrap(n, isn, checkpoint) % TWO64
  }

  /** The documented result: it wraps to `n`, and no other candidate is nearer to the checkpoint. */
  ghost predicate Nearest(r: nat, n: u32, isn: u32, checkpoint: nat) {
    && Wrap(r, isn) == n
    && forall v: nat :: Wrap(v, isn) == n ==> Distance(r, checkpoint) <= Distance(v, checkpoint)
  }

  ghost predicate Nearest64(r: u64, n: u32, isn: u32, checkpoint: u64) {
    && Wrap(r, isn) == n
    && forall v: u64 :: Wrap(v, isn) == n ==> Distance(r, checkpoint) <= Distance(v, checkpoint)
  }

  /** The branch whose sum does not fit in 64 bits. */
  predicate Overflows(n: u32, isn: u32, checkpoint: u64) {
    && checkpoint >= TWO64 - TWO32
    && checkpoint % TWO32 - Offset(n, isn) >= TWO31
  }

  /** Two absolute numbers share a wire form exactly when they agree modulo 2^32. */
  lemma WrapCongruent(v: nat, n: u32, isn: u32)
    ensures Wrap(v, isn) == n <==> v % TWO32 == Offset(n, isn)
  {
  }

  lemma CandidateGap(v: nat, r: nat)
    requires v % TWO32 == r % TWO32 && v != r
    ensures Distance(v, r) >= TWO32
  {
  }

  lemma UnwrapShape(n: u32, isn: u32, checkpoint: nat)
    ensures var r := Unwrap(n, isn, checkpoint);
            r % TWO32 == Offset(n, isn) && (Distance(r, checkpoint) <= TWO31 || checkpoint < r < TWO32)
  {
  }

  lemma UnwrapNearest(n: u32, isn: u32, checkpoint: nat)
    ensures Nearest(Unwrap(n, isn, checkpoint), n, isn, checkpoint)
  {
    var r := Unwrap(n, isn, checkpoint);
    UnwrapShape(n, isn, checkpoint);
    WrapCongruent(r, n, isn);
    forall v: nat | Wrap(v, isn) == n
      ensures Distance(r, checkpoint) <= Distance(v, checkpoint)
    {
      WrapCongruent(v, n, isn);
      if v != r {
        CandidateGap(v, r);
      }
    }
  }

  lemma UnwrapInvertsWrap(v: nat, isn: u32, checkpoint: nat)
    requires Distance(v, checkpoint) < TWO31
    ensures Unwrap(Wrap(v, isn), isn, checkpoint) == v
  {
    var n := Wrap(v, isn);
    UnwrapNearest(n, isn, checkpoint);
    var r := Unwrap(n, isn, checkpoint);
    WrapCongruent(v, n, isn);
    WrapCongruent(r, n, isn);
    if r != v {
      CandidateGap(v, r);
    }
  }

  /** The 64-bit code returns the nearest 64-bit number exactly when the sum does not overflow. */
  lemma Unwrap64NearestIff(n: u32, isn: u32, checkpoint: u64)
    ensures Nearest64(Unwrap64(n, isn, checkpoint), n, isn, checkpoint) <==> !Overflows(n, isn, checkpoint)
  {
    var r := Unwrap(n, isn, checkpoint);
    UnwrapNearest(n, isn, checkpoint);
    if Overflows(n, isn, checkpoint) {
      OverflowMisses(n, isn, checkpoint);
    } else {
      assert r < TWO64;
    }
  }

  /** The candidate just below would have been closer. */
  lemma OverflowMisses(n: u32, isn: u32, checkpoint: u64)
    requires Overflows(n, isn, checkpoint)
    ensures !Nearest64(Unwrap64(n, isn, checkpoint), n, isn, checkpoint)
  {
    var offset := Offset(n, isn);
    var v: u64 := TWO64 - TWO32 + offset;
    assert Unwrap(n, isn, checkpoint) == TWO64 + offset;
    WrapCongruent(v, n, isn);
    assert Distance(v, checkpoint) < Distance(offset, checkpoint);
  }
}
