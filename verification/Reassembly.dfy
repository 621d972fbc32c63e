/**
 * The stream reassembler as a value: the ring buffer seen as a finite map from stream index to
 * byte. `Push` is defined for every input, including those the unsigned arithmetic of the source
 * gets wrong; the lemmas say when it is the documented operation.
 */
module Reassembly {
  import opened Words
  import opened ByteStreams

  datatype Reassembler = Reassembler(output: Stream, first: nat, held: map<nat, byte>, eofSeen: bool)

  function Empty(capacity: nat): Reassembler {
    Reassembler(Fresh(capacity), 0, map[], false)
  }

  /** The first index that does not fit: bytes read plus capacity, once `Aligned` holds. */
  function Limit(r: Reassembler): nat {
    r.first + Room(r.output)
  }

  /** What every input keeps: indices fit on the ring. */
  ghost predicate OnRing(r: Reassembler) {
    && r.output.capacity > 0
    && forall p: nat :: p in r.held ==> r.first <= p < r.first + r.output.capacity
  }

  /** What in-window inputs keep: the output counts as many bytes as were assembled, and all held bytes fit. */
  ghost predicate Aligned(r: Reassembler) {
    && r.output.capacity > 0
    && |r.output.history| == r.first
    && forall p: nat :: p in r.held ==> r.first <= p < Limit(r)
  }

  /** The window ends a capacity beyond what has been read. */
  lemma LimitIsCapacity(r: Reassembler)
    requires Aligned(r)
    ensures Limit(r) == r.output.bytesRead + r.output.capacity
  {
  }

  // ---------- storing ----------

  /**
   * How many bytes of `data` are treated as storable. Beyond the limit the unsigned subtraction wraps
   * around, to a number above every size except for an index at the very end of the 64 bits.
   */
  function Stored(r: Reassembler, size: nat, index: nat): nat {
    if index <= Limit(r) then Min(size, Limit(r) - index) else Min(size, Max(0, TWO64 + Limit(r) - index))
  }

  /** So it is the 64-bit difference, cut to the size. */
  lemma StoredIsUnsigned(r: Reassembler, size: nat, index: u64)
    requires Limit(r) < TWO64
    ensures Stored(r, size, index) == Min(size, (Limit(r) - index) % TWO64)
  {
  }

  function Begin(r: Reassembler, index: nat): nat {
    if index < r.first then r.first - index else 0
  }

  /** The index a byte for `p` ends up at: its own, or an alias one or more laps back. */
  function Place(first: nat, capacity: nat, p: nat): nat
    requires capacity > 0 && p >= first
  {
    first + (p - first) % capacity
  }

  /** The map after bytes `lo..hi` of `data` have been written, one after the other. */
  function StoreRange(r: Reassembler, data: seq<byte>, index: nat, lo: nat, hi: nat): map<nat, byte>
    requires r.output.capacity > 0 && index + lo >= r.first && hi <= |data|
    decreases hi
  {
    if hi <= lo then r.held
    else StoreRange(r, data, index, lo, hi - 1)[Place(r.first, r.output.capacity, index + hi - 1) := data[hi - 1]]
  }

  function Store(r: Reassembler, data: seq<byte>, index: nat): map<nat, byte>
    requires r.output.capacity > 0
  {
    StoreRange(r, data, index, Begin(r, index), Stored(r, |data|, index))
  }

  /** The bytes of `data`, which starts at `index`, by stream index from `lo` up to `hi`. */
  function Piece(data: seq<byte>, index: nat, lo: nat, hi: nat): (m: map<nat, byte>)
    requires index <= lo && hi <= index + |data|
    ensures forall p: nat :: p in m <==> lo <= p < hi
    ensures forall p: nat :: p in m ==> m[p] == data[p - index]
    decreases hi
  {
    if hi <= lo then map[] else Piece(data, index, lo, hi - 1)[hi - 1 := data[hi - 1 - index]]
  }

  /** The documented effect: the bytes between the first unassembled index and the limit. */
  function Clip(r: Reassembler, data: seq<byte>, index: nat): map<nat, byte> {
    Piece(data, index, Max(index, r.first), Min(index + |data|, Limit(r)))
  }

  function ClippedCount(r: Reassembler, size: nat, index: nat): nat {
    Max(0, Min(size, Limit(r) - index))
  }

  lemma SmallMod(x: nat, m: nat)
    requires x < m
    ensures x % m == x
  {
  }

  lemma {:induction false} StoreRangeOnRing(r: Reassembler, data: seq<byte>, index: nat, lo: nat, hi: nat)
    requires OnRing(r) && index + lo >= r.first && hi <= |data|
    ensures forall p: nat :: p in StoreRange(r, data, index, lo, hi) ==> r.first <= p < r.first + r.output.capacity
    decreases hi
  {
    if hi > lo {
      StoreRangeOnRing(r, data, index, lo, hi - 1);
    }
  }

  lemma PlaceInWindow(r: Reassembler, p: nat)
    requires Aligned(r) && r.first <= p < Limit(r)
    ensures Place(r.first, r.output.capacity, p) == p
  {
    SmallMod(p - r.first, r.output.capacity);
  }

  /** `s` is `held` with the bytes of `data`, which starts at `index`, laid over it from `lo` up to `hi`. */
  ghost predicate LaidOver(s: map<nat, byte>, held: map<nat, byte>, data: seq<byte>, index: nat, lo: nat, hi: nat)
    requires index <= lo && hi <= index + |data|
  {
    && (forall p: nat :: p in s <==> p in held || lo <= p < hi)
    && (forall p: nat :: p in s ==> s[p] == if lo <= p < hi then data[p - index] else held[p])
  }

  lemma {:induction false} StoreRangeInWindow(r: Reassembler, data: seq<byte>, index: nat, lo: nat, hi: nat)
    requires Aligned(r) && index + lo >= r.first && hi <= |data| && index + hi <= Limit(r)
    ensures LaidOver(StoreRange(r, data, index, lo, hi), r.held, data, index, index + lo, index + hi)
    decreases hi
  {
    if hi > lo {
      StoreRangeInWindow(r, data, index, lo, hi - 1);
      PlaceInWindow(r, index + hi - 1);
    }
  }

  lemma LaidOverIsUnion(s: map<nat, byte>, held: map<nat, byte>, data: seq<byte>, index: nat, lo: nat, hi: nat)
    requires index <= lo && hi <= index + |data| && LaidOver(s, held, data, index, lo, hi)
    ensures s == held + Piece(data, index, lo, hi)
  {
  }

  /** In the window, the ring stores exactly the documented bytes at their own indices. */
  lemma StoreInWindow(r: Reassembler, data: seq<byte>, index: nat)
    requires Aligned(r) && index <= Limit(r)
    ensures Store(r, data, index) == r.held + Clip(r, data, index)
  {
    StoreLaidOver(r, data, index);
    LaidOverIsUnion(Store(r, data, index), r.held, data, index, Max(index, r.first), Min(index + |data|, Limit(r)));
  }

  lemma StoreLaidOver(r: Reassembler, data: seq<byte>, index: nat)
    requires Aligned(r) && index <= Limit(r)
    ensures LaidOver(Store(r, data, index), r.held, data, index, Max(index, r.first), Min(index + |data|, Limit(r)))
  {
    var lo, hi := Begin(r, index), Stored(r, |data|, index);
    if hi > lo {
      StoreRangeInWindow(r, data, index, lo, hi);
    }
  }

  /** The store does what is documented exactly when the push starts within the window or is empty. */
  lemma StoreIsClippedIff(r: Reassembler, data: seq<byte>, index: u64)
    requires Aligned(r)
    ensures (Store(r, data, index) == r.held + Clip(r, data, index)
             && Stored(r, |data|, index) == ClippedCount(r, |data|, index))
        <==> (data == [] || index <= Limit(r))
  {
    if index <= Limit(r) {
      StoreInWindow(r, data, index);
    } else if data == [] {
      assert Clip(r, data, index) == map[];
    }
  }

  // ---------- assembling ----------

  /** The bytes held contiguously from `p` on. */
  function Contiguous(held: map<nat, byte>, p: nat): seq<byte>
    decreases held.Keys
  {
    if p in held then [held[p]] + Contiguous(held - {p}, p + 1) else []
  }

  function From(held: map<nat, byte>, p: nat): map<nat, byte> {
    map i | i in held && i >= p :: held[i]
  }

  lemma {:induction false} ContiguousMeaning(held: map<nat, byte>, p: nat)
    ensures var run := Contiguous(held, p);
            && (forall i :: p <= i < p + |run| ==> i in held && run[i - p] == held[i])
            && p + |run| !in held
    decreases held.Keys
  {
    if p in held {
      ContiguousMeaning(held - {p}, p + 1);
      var run := Contiguous(held, p);
      forall i | p <= i < p + |run|
        ensures i in held && run[i - p] == held[i]
      {
        if i > p {
          assert i in held - {p};
        }
      }
    }
  }

  function Push(r: Reassembler, data: seq<byte>, index: nat, eof: bool): Reassembler
    requires r.output.capacity > 0
  {
    Assemble(AfterStore(r, data, index, eof))
  }

  function AfterStore(r: Reassembler, data: seq<byte>, index: nat, eof: bool): Reassembler
    requires r.output.capacity > 0
  {
    r.(held := Store(r, data, index), eofSeen := r.eofSeen || (eof && Stored(r, |data|, index) == |data|))
  }

  /** The contiguous run moves to the output. */
  function Advance(r: Reassembler): Reassembler {
    var run := Contiguous(r.held, r.first);
    Reassembler(Write(r.output, run), r.first + |run|, From(r.held, r.first + |run|), r.eofSeen)
  }

  function Assemble(r: Reassembler): Reassembler {
    var t := Advance(r);
    if t.eofSeen && t.held == map[] then t.(output := EndInput(t.output)) else t
  }

  /** Whatever is pushed, the indices stay on the ring and the output keeps what it had. */
  lemma PushCapacity(r: Reassembler, data: seq<byte>, index: nat, eof: bool)
    requires r.output.capacity > 0
    ensures Push(r, data, index, eof).output.capacity == r.output.capacity
  {
  }

  lemma PushOnRing(r: Reassembler, data: seq<byte>, index: nat, eof: bool)
    requires OnRing(r)
    ensures var t := Push(r, data, index, eof);
            && OnRing(t) && t.output.capacity == r.output.capacity && t.output.error == r.output.error
            && t.output.bytesRead == r.output.bytesRead
            && r.output.history <= t.output.history && t.first >= r.first
            && (r.output.inputEnded ==> t.output.inputEnded)
  {
    StoreRangeOnRing(r, data, index, Begin(r, index), Stored(r, |data|, index));
  }

  /** Assembly never overfills the output, so the write is never cut short. */
  lemma AssembleAligned(r: Reassembler)
    requires Aligned(r)
    ensures var t := Assemble(r); var run := Contiguous(r.held, r.first);
            && Aligned(t) && t.first !in t.held
            && t.output.history == r.output.history + run
            && t.first == r.first + |run| && t.first <= Limit(r) && Limit(t) == Limit(r)
            && t.output.bytesRead == r.output.bytesRead && t.output.capacity == r.output.capacity
  {
    var run := Contiguous(r.held, r.first);
    ContiguousMeaning(r.held, r.first);
    if |run| > 0 {
      assert r.first + |run| - 1 in r.held;
    }
    assert |run| <= Room(r.output);
    assert run[..Min(|run|, Room(r.output))] == run;
  }

  lemma PushAligned(r: Reassembler, data: seq<byte>, index: nat, eof: bool)
    requires Aligned(r) && index <= Limit(r)
    ensures var t := Push(r, data, index, eof);
            && Aligned(t) && t.first !in t.held && r.first <= t.first <= Limit(r) == Limit(t)
            && t.output.history == r.output.history + Contiguous(r.held + Clip(r, data, index), r.first)
            && t.output.bytesRead == r.output.bytesRead && t.output.capacity == r.output.capacity
  {
    StoreInWindow(r, data, index);
    AssembleAligned(AfterStore(r, data, index, eof));
  }

  lemma WholeRun(data: seq<byte>, held: map<nat, byte>)
    requires held == Piece(data, 0, 0, |data|)
    ensures Contiguous(held, 0) == data
  {
    ContiguousMeaning(held, 0);
    SameRun(Contiguous(held, 0), data, held);
  }

  lemma SameRun(run: seq<byte>, data: seq<byte>, held: map<nat, byte>)
    requires forall p: nat :: p in held <==> p < |data|
    requires forall p: nat :: p in held ==> held[p] == data[p]
    requires forall i :: 0 <= i < |run| ==> i in held && run[i] == held[i]
    requires |run| !in held
    ensures run == data
  {
    assert |run| > |data| ==> |data| in held;
  }

  /** The first push at the start of the stream is assembled at once. */
  lemma FirstPush(capacity: nat, data: seq<byte>, eof: bool)
    requires |data| <= capacity && capacity > 0
    ensures Push(Empty(capacity), data, 0, eof).output.history == data
    ensures Push(Empty(capacity), data, 0, eof).output.inputEnded == eof
  {
    var q := Empty(capacity);
    var held := Piece(data, 0, 0, |data|);
    StoreInWindow(q, data, 0);
    assert map[] + held == held;
    WholeRun(data, held);
    FirstAssembled(q.(held := held, eofSeen := eof), data);
  }

  lemma FirstAssembled(r: Reassembler, data: seq<byte>)
    requires r.output == Fresh(r.output.capacity) && |data| <= r.output.capacity && r.first == 0
    requires r.held == Piece(data, 0, 0, |data|) && Contiguous(r.held, 0) == data
    ensures Assemble(r).output.history == data && Assemble(r).output.inputEnded == r.eofSeen
  {
    assert From(r.held, |data|) == map[];
    assert data[..Min(|data|, Room(r.output))] == data;
    assert [] + data == data;
  }

  // ---------- pieces of one stream ----------

  /** `data` is what the stream `s` has at `index`, and a push that claims the end really ends it. */
  ghost predicate PieceOf(s: seq<byte>, data: seq<byte>, index: nat, eof: bool) {
    && index + |data| <= |s|
    && data == s[index..index + |data|]
    && (eof ==> index + |data| == |s|)
  }

  /** Everything assembled or held is the stream's own byte at that index. */
  ghost predicate Faithful(r: Reassembler, s: seq<byte>) {
    && Aligned(r) && r.first !in r.held
    && r.output.history <= s
    && forall p: nat :: p in r.held ==> p < |s| && r.held[p] == s[p]
  }

  /** Assembly moves indices from held to assembled and loses none. */
  lemma AssembleMoves(r: Reassembler)
    requires Aligned(r)
    ensures var t := Assemble(r);
            && (forall p: nat :: (p < t.first || p in t.held) <==> (p < r.first || p in r.held))
            && (forall p: nat :: p in t.held ==> p in r.held && t.held[p] == r.held[p])
  {
    ContiguousMeaning(r.held, r.first);
  }

  lemma RunIsStream(r: Reassembler, s: seq<byte>)
    requires Aligned(r) && r.output.history <= s
    requires forall p: nat :: p in r.held ==> p < |s| && r.held[p] == s[p]
    ensures r.output.history + Contiguous(r.held, r.first) <= s
  {
    ContiguousMeaning(r.held, r.first);
    var run := Contiguous(r.held, r.first);
    if |run| > 0 {
      assert r.first + |run| - 1 in r.held;
    }
    assert forall i: nat :: r.first <= i < r.first + |run| ==> (r.output.history + run)[i] == s[i];
  }

  lemma AssembleFaithful(r: Reassembler, s: seq<byte>)
    requires Aligned(r) && r.output.history <= s
    requires forall p: nat :: p in r.held ==> p < |s| && r.held[p] == s[p]
    ensures var t := Assemble(r); Faithful(t, s)
    ensures var t := Assemble(r);
            forall p: nat :: (p < t.first || p in t.held) <==> (p < r.first || p in r.held)
  {
    AssembleAligned(r);
    AssembleMoves(r);
    RunIsStream(r, s);
  }

  lemma StoreFaithful(r: Reassembler, s: seq<byte>, data: seq<byte>, index: nat, eof: bool)
    requires Faithful(r, s) && PieceOf(s, data, index, eof) && index <= Limit(r)
    ensures var t := AfterStore(r, data, index, eof);
            && Aligned(t)
            && (forall p: nat :: p in t.held ==> p < |s| && t.held[p] == s[p])
            && forall p: nat :: (p < t.first || p in t.held)
                      <==> (p < r.first || p in r.held || index <= p < Min(index + |data|, Limit(r)))
  {
    StoreInWindow(r, data, index);
    assert forall p: nat :: p in Clip(r, data, index) ==> data[p - index] == s[p];
  }

  /** Any in-window piece of the stream keeps the reassembler faithful to it and adds just that piece's indices. */
  lemma PushFaithful(r: Reassembler, s: seq<byte>, data: seq<byte>, index: nat, eof: bool)
    requires Faithful(r, s) && PieceOf(s, data, index, eof) && index <= Limit(r)
    ensures var t := Push(r, data, index, eof);
            && Faithful(t, s) && Limit(t) == Limit(r) && t.output.bytesRead == r.output.bytesRead
            && t.first >= r.first && t.output.capacity == r.output.capacity
            && r.output.history <= t.output.history
            && forall p: nat :: (p < t.first || p in t.held)
                      <==> (p < r.first || p in r.held || index <= p < Min(index + |data|, Limit(r)))
  {
    var mid := AfterStore(r, data, index, eof);
    StoreFaithful(r, s, data, index, eof);
    AssembleFaithful(mid, s);
    AssembleAligned(mid);
  }

  lemma ReadFaithful(r: Reassembler, s: seq<byte>, len: nat)
    requires Faithful(r, s)
    ensures var t := r.(output := Pop(r.output, len)); Faithful(t, s) && Limit(t) >= Limit(r)
  {
  }

  /** A faithful reassembler is determined by the set of indices it has. */
  lemma DeterminedByIndices(r: Reassembler, t: Reassembler, s: seq<byte>)
    requires Faithful(r, s) && Faithful(t, s)
    requires forall p: nat :: (p < r.first || p in r.held) <==> (p < t.first || p in t.held)
    ensures r.first == t.first && r.held == t.held && r.output.history == t.output.history
  {
  }
}
