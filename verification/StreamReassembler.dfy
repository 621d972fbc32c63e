/** The reassembler as the source runs it: two arrays used as a ring, a moving separator and counters. */
module StreamReassemblers {
  import opened Words
  import opened ByteStreams
  import opened Reassembly

  // ---------- ring arithmetic ----------

  /** The slot `distance` places past the separator: going round the ring until the distance fits. */
  ghost function Slot(separator: nat, capacity: nat, distance: nat): (s: nat)
    requires separator < capacity
    ensures s < capacity
    decreases distance
  {
    if separator + distance < capacity then separator + distance
    else if distance < capacity then separator + distance - capacity
    else Slot(separator, capacity, distance - capacity)
  }

  lemma ModUnique(x: nat, m: nat, q: nat, r: nat)
    requires m > 0 && r < m && x == m * q + r
    ensures x % m == r && x / m == q
  {
    var d: int := x / m - q;
    assert m * d == m * (x / m) - m * q == r - x % m;
    assert d >= 1 ==> m * d >= m;
    assert d <= -1 ==> m * d <= m * -1;
  }

  lemma ModLessLap(x: nat, m: nat)
    requires 0 < m <= x
    ensures x % m == (x - m) % m
  {
    assert x - m == m * (x / m - 1) + x % m;
    assert x / m >= 1;
    ModUnique(x - m, m, x / m - 1, x % m);
  }

  /** The remainder the source computes is that slot. */
  lemma {:induction false} SlotIsRemainder(separator: nat, capacity: nat, d: nat)
    requires separator < capacity
    ensures Slot(separator, capacity, d) == (separator + d) % capacity
    decreases d
  {
    if d >= capacity {
      SlotIsRemainder(separator, capacity, d - capacity);
      ModLessLap(separator + d, capacity);
    } else if separator + d >= capacity {
      ModLessLap(separator + d, capacity);
      SmallMod(separator + d - capacity, capacity);
    } else {
      SmallMod(separator + d, capacity);
    }
  }

  /** A distance of one lap or more lands on the slot of its remainder. */
  lemma {:induction false} SlotOfRemainder(separator: nat, capacity: nat, d: nat)
    requires separator < capacity
    ensures Slot(separator, capacity, d) == Slot(separator, capacity, d % capacity)
    decreases d
  {
    if d >= capacity {
      ModLessLap(d, capacity);
      SlotOfRemainder(separator, capacity, d - capacity);
    } else {
      SmallMod(d, capacity);
    }
  }

  /** Moving the separator by `count` shortens every distance by `count`. */
  lemma SlotShift(separator: nat, capacity: nat, count: nat, d: nat)
    requires separator < capacity && count <= capacity && d < capacity
    ensures Slot(Slot(separator, capacity, count), capacity, d) == Slot(separator, capacity, count + d)
  {
  }

  lemma SlotsDiffer(separator: nat, capacity: nat, a: nat)
    requires separator < capacity && a < capacity
    ensures forall b: nat :: b < capacity && b != a ==> Slot(separator, capacity, b) != Slot(separator, capacity, a)
  {
  }

  // ---------- the ring as a map ----------

  /** The arrays of the ring with the position that goes with them. */
  datatype Ring = Ring(buffer: seq<byte>, occupied: seq<bool>, separator: nat, first: nat) {
    ghost predicate Valid() {
      |buffer| == |occupied| && separator < |buffer|
    }

    /** Slot and map agree about stream index `p`. */
    ghost predicate Matches(held: map<nat, byte>, p: nat)
      requires Valid() && p >= first
    {
      var i := Slot(separator, |buffer|, p - first);
      (p in held <==> occupied[i]) && (p in held ==> held[p] == buffer[i])
    }

    /** `held` is what the ring holds, by stream index, looking one lap ahead of `first`. */
    ghost predicate Holds(held: map<nat, byte>) {
      && Valid()
      && (forall p: nat :: p in held ==> first <= p < first + |buffer|)
      && (forall p: nat :: first <= p < first + |buffer| ==> Matches(held, p))
    }

    function Set(i: nat, x: byte, filled: bool): Ring
      requires i < |buffer| && i < |occupied|
    {
      this.(buffer := buffer[i := x], occupied := occupied[i := filled])
    }
  }

  lemma FillSlot(ring: Ring, held: map<nat, byte>, p: nat, x: byte)
    requires ring.Holds(held) && p >= ring.first
    ensures var i := Slot(ring.separator, |ring.buffer|, p - ring.first);
            var home := Place(ring.first, |ring.buffer|, p);
            (ring.occupied[i] <==> home in held) && ring.Set(i, x, true).Holds(held[home := x])
  {
    var home := Place(ring.first, |ring.buffer|, p);
    SlotOfRemainder(ring.separator, |ring.buffer|, p - ring.first);
    assert ring.Matches(held, home);
    FillHome(ring, held, home, x);
  }

  lemma FillHome(ring: Ring, held: map<nat, byte>, home: nat, x: byte)
    requires ring.Holds(held) && ring.first <= home < ring.first + |ring.buffer|
    ensures ring.Set(Slot(ring.separator, |ring.buffer|, home - ring.first), x, true).Holds(held[home := x])
  {
    var after := ring.Set(Slot(ring.separator, |ring.buffer|, home - ring.first), x, true);
    var filled := held[home := x];
    SlotsDiffer(ring.separator, |ring.buffer|, home - ring.first);
    forall q: nat | ring.first <= q < ring.first + |ring.buffer|
      ensures after.Matches(filled, q)
    {
      assert ring.Matches(held, q);
    }
  }

  lemma EmptySlot(ring: Ring, held: map<nat, byte>, p: nat, x: byte)
    requires ring.Holds(held) && p in held
    ensures var i := Slot(ring.separator, |ring.buffer|, p - ring.first);
            ring.Set(i, x, false).Holds(held - {p}) && held[p] == ring.buffer[i]
  {
    var capacity := |ring.buffer|;
    var i := Slot(ring.separator, capacity, p - ring.first);
    SlotsDiffer(ring.separator, capacity, p - ring.first);
    var after := ring.Set(i, x, false);
    var rest := held - {p};
    assert ring.Matches(held, p);
    forall q: nat | ring.first <= q < ring.first + capacity
      ensures after.Matches(rest, q)
    {
      assert ring.Matches(held, q);
    }
  }

  /** After a full lap every slot has been emptied, so an occupied slot is less than a lap away. */
  lemma OccupiedIsHeld(ring: Ring, held: map<nat, byte>, count: nat, p: nat)
    requires ring.Holds(held) && count <= |ring.buffer| && p == ring.first + count
    requires forall q: nat :: q in held ==> q >= p
    ensures ring.occupied[Slot(ring.separator, |ring.buffer|, count)] <==> p in held
  {
    if count == |ring.buffer| {
      assert ring.Matches(held, ring.first);
    } else {
      assert ring.Matches(held, p);
    }
  }

  /** Advancing past `count` emptied slots changes no held byte. */
  lemma AdvanceRing(ring: Ring, held: map<nat, byte>, count: nat)
    requires ring.Holds(held) && count <= |ring.buffer|
    requires forall p: nat :: p in held ==> p >= ring.first + count
    ensures ring.(separator := Slot(ring.separator, |ring.buffer|, count), first := ring.first + count).Holds(held)
  {
    var capacity := |ring.buffer|;
    var after := ring.(separator := Slot(ring.separator, capacity, count), first := ring.first + count);
    forall p: nat | after.first <= p < after.first + capacity
      ensures after.Matches(held, p)
    {
      SlotShift(ring.separator, capacity, count, p - after.first);
      if p >= ring.first + capacity {
        assert ring.Matches(held, p - capacity);
      } else {
        assert ring.Matches(held, p);
      }
    }
  }

  lemma RemoveShrinks(held: map<nat, byte>, p: nat)
    requires p in held
    ensures |held - {p}| == |held| - 1
  {
  }

  /** `held` is what `all` has from `p` on. */
  ghost predicate IsFrom(held: map<nat, byte>, all: map<nat, byte>, p: nat) {
    && (forall q: nat :: q in held <==> q in all && q >= p)
    && (forall q: nat :: q in held ==> held[q] == all[q])
  }

  lemma IsFromUnique(held: map<nat, byte>, all: map<nat, byte>, p: nat)
    requires IsFrom(held, all, p)
    ensures held == From(all, p)
  {
  }

  /** `bytes` are those held from `first` on. */
  lemma IsFromNext(held: map<nat, byte>, rest: map<nat, byte>, all: map<nat, byte>, p: nat)
    requires IsFrom(held, all, p) && rest == held - {p}
    ensures IsFrom(rest, all, p + 1)
  {
  }

  ghost predicate Spells(bytes: seq<byte>, held: map<nat, byte>, first: nat) {
    forall q: nat :: first <= q < first + |bytes| ==> q in held && held[q] == bytes[q - first]
  }

  lemma SpellsMore(bytes: seq<byte>, held: map<nat, byte>, first: nat, p: nat)
    requires Spells(bytes, held, first) && p == first + |bytes| && p in held
    ensures Spells(bytes + [held[p]], held, first)
  {
  }

  lemma SpellsUnique(bytes: seq<byte>, held: map<nat, byte>, first: nat)
    requires Spells(bytes, held, first) && first + |bytes| !in held
    ensures bytes == Contiguous(held, first)
  {
    var run := Contiguous(held, first);
    ContiguousMeaning(held, first);
    assert |bytes| == |run|;
    forall k: nat | k < |run|
      ensures bytes[k] == run[k]
    {
      var q := first + k;
      assert held[q] == bytes[q - first] && held[q] == run[q - first];
    }
  }

  class StreamReassembler {
    const output: ByteStream
    const capacity: nat
    const buffer: array<byte>
    const occupied: array<bool>
    var separator: nat
    var firstUnassembled: nat
    var unassembledBytes: nat
    var eofReceived: bool
    ghost var held: map<nat, byte>

    ghost const Repr: set<object> := {this, output, buffer, occupied}

    ghost predicate Valid()
      reads Repr
    {
      output.Valid() && output.totalCapacity == capacity && RingValid()
    }

    ghost predicate RingValid()
      reads this, buffer, occupied
    {
      && capacity == buffer.Length
      && Contents().Holds(held)
      && unassembledBytes == |held|
    }

    ghost function Contents(): Ring
      reads this, buffer, occupied
    {
      Ring(buffer[..], occupied[..], separator, firstUnassembled)
    }

    ghost function Value(): Reassembler
      requires Valid()
      reads Repr
    {
      Reassembler(output.Value(), firstUnassembled, held, eofReceived)
    }

    constructor (capacity: nat)
      requires capacity > 0
      ensures Valid() && fresh(Repr) && Value() == Empty(capacity)
    {
      output := new ByteStream(capacity);
      this.capacity := capacity;
      buffer := new byte[capacity](_ => 32);
      occupied := new bool[capacity](_ => false);
      separator, firstUnassembled, unassembledBytes, eofReceived := 0, 0, 0, false;
      held := map[];
    }

    method PushSubstring(data: seq<byte>, index: nat, eof: bool)
      requires Valid()
      modifies Repr
      ensures Valid() && Value() == Push(old(Value()), data, index, eof)
    {
      var stored := StoreData(data, index);
      eofReceived := eofReceived || (eof && stored == |data|);
      WriteToOutput();
      if eofReceived && unassembledBytes == 0 {
        output.EndWriting();
      }
    }

    method StoreData(data: seq<byte>, index: nat) returns (stored: nat)
      requires Valid()
      modifies this`unassembledBytes, this`held, buffer, occupied
      ensures Valid()
      ensures Value() == old(Value()).(held := Store(old(Value()), data, index))
      ensures stored == Stored(old(Value()), |data|, index)
    {
      ghost var r := Value();
      var room := capacity - |output.buffer|;
      var fits := room + firstUnassembled - index;
      stored := Min(|data|, if fits >= 0 then fits else Max(0, TWO64 + fits));
      var begin := if index < firstUnassembled then firstUnassembled - index else 0;
      assert stored == Stored(r, |data|, index) && begin == Begin(r, index);
      StoreBytes(data, index, begin, stored, r);
    }

    method StoreBytes(data: seq<byte>, index: nat, begin: nat, end: nat, ghost r: Reassembler)
      requires RingValid() && end <= |data| && index + begin >= firstUnassembled
      requires r.held == held && r.first == firstUnassembled && r.output.capacity == capacity
      modifies this`unassembledBytes, this`held, buffer, occupied
      ensures RingValid() && held == StoreRange(r, data, index, begin, end)
    {
      var i := begin;
      while i < end
        invariant begin <= i && (i <= end || i == begin)
        invariant RingValid()
        invariant held == StoreRange(r, data, index, begin, if i <= end then i else end)
      {
        StoreByte(index + i, data[i]);
        i := i + 1;
      }
    }

    method SlotAt(distance: nat) returns (i: nat)
      requires separator < capacity
      ensures i == Slot(separator, capacity, distance)
    {
      i := (separator + distance) % capacity;
      SlotIsRemainder(separator, capacity, distance);
    }

    method StoreByte(p: nat, x: byte)
      requires RingValid() && p >= firstUnassembled
      modifies this`unassembledBytes, this`held, buffer, occupied
      ensures RingValid()
      ensures held == old(held)[Place(firstUnassembled, capacity, p) := x]
    {
      var i := SlotAt(p - firstUnassembled);
      FillSlot(Contents(), held, p, x);
      if !occupied[i] {
        unassembledBytes := unassembledBytes + 1;
      }
      buffer[i] := x;
      occupied[i] := true;
      held := held[Place(firstUnassembled, capacity, p) := x];
      assert Contents() == old(Contents()).Set(i, x, true);
    }

    /** Part of the run has been taken: `taken` spells it, the rest is still held, and `i` is the next slot. */
    ghost predicate Taking(all: map<nat, byte>, taken: seq<byte>, i: nat)
      reads this, buffer, occupied
    {
      var p := firstUnassembled + |taken|;
      && RingValid() && |taken| <= capacity
      && Spells(taken, all, firstUnassembled) && IsFrom(held, all, p)
      && i == Slot(separator, capacity, |taken|) && (occupied[i] <==> p in held)
    }

    /** Takes the byte at the front of what is held and moves to the next slot. */
    method TakeByte(taken: seq<byte>, i: nat, ghost all: map<nat, byte>) returns (longer: seq<byte>, next: nat)
      requires Taking(all, taken, i) && occupied[i]
      modifies this`unassembledBytes, this`held, buffer, occupied
      ensures Taking(all, longer, next) && |held| < |old(held)|
    {
      ghost var p := firstUnassembled + |taken|;
      SpellsMore(taken, all, firstUnassembled, p);
      var x := ClearSlot(i, p);
      IsFromNext(old(held), held, all, p);
      longer := taken + [x];
      next := SlotAt(|longer|);
      OccupiedIsHeld(Contents(), held, |longer|, p + 1);
    }

    method ClearSlot(i: nat, ghost p: nat) returns (x: byte)
      requires RingValid() && p in held && i == Slot(separator, capacity, p - firstUnassembled)
      modifies this`unassembledBytes, this`held, buffer, occupied
      ensures RingValid() && x == old(held)[p] && held == old(held) - {p} && |held| < |old(held)|
    {
      EmptySlot(Contents(), held, p, 32);
      RemoveShrinks(held, p);
      x := buffer[i];
      buffer[i] := 32;
      occupied[i] := false;
      unassembledBytes := unassembledBytes - 1;
      held := held - {p};
      assert Contents() == old(Contents()).Set(i, 32, false);
    }

    method WriteToOutput()
      requires Valid()
      modifies this`separator, this`firstUnassembled, this`unassembledBytes, this`held, buffer, occupied, output
      ensures Valid() && Value() == Advance(old(Value()))
    {
      var count := WriteRun();
      MoveOn(count);
    }

    /** Takes the run out of the ring and writes it, the position not yet moved. */
    method WriteRun() returns (count: nat)
      requires Valid()
      modifies this`unassembledBytes, this`held, buffer, occupied, output
      ensures Valid() && count <= capacity && count == |Contiguous(old(held), firstUnassembled)|
      ensures held == From(old(held), firstUnassembled + count)
      ensures output.Value() == Write(old(output.Value()), Contiguous(old(held), firstUnassembled))
    {
      var reassembled := TakeRun();
      IsFromUnique(held, old(held), firstUnassembled + |reassembled|);
      var written := output.Append(reassembled);
      count := |reassembled|;
    }

    method MoveOn(count: nat)
      requires RingValid() && count <= capacity
      requires forall q: nat :: q in held ==> q >= firstUnassembled + count
      modifies this`separator, this`firstUnassembled
      ensures RingValid() && firstUnassembled == old(firstUnassembled) + count
    {
      AdvanceRing(Contents(), held, count);
      firstUnassembled := firstUnassembled + count;
      separator := SlotAt(count);
    }

    method TakeRun() returns (reassembled: seq<byte>)
      requires RingValid()
      modifies this`unassembledBytes, this`held, buffer, occupied
      ensures RingValid() && |reassembled| <= capacity
      ensures reassembled == Contiguous(old(held), firstUnassembled)
      ensures IsFrom(held, old(held), firstUnassembled + |reassembled|)
    {
      reassembled := [];
      var i := SlotAt(0);
      OccupiedIsHeld(Contents(), held, 0, firstUnassembled);
      while occupied[i]
        invariant Taking(old(held), reassembled, i)
        decreases |held|
      {
        reassembled, i := TakeByte(reassembled, i, old(held));
      }
      SpellsUnique(reassembled, old(held), firstUnassembled);
    }
  }
}
